/** The critique-and-revise loop of `ConstitutionalChain`
    (`langchain/src/chains/constitutional_ai/constitutional_chain.ts`). The
    three language-model chains are total functions handed in by the
    caller; the model records every call made to them. */
module Constitutional {
  import opened Wrappers
  import opened Strings

  /** A constitutional principle: what to criticise and how to revise. */
  datatype Principle = Principle(name: string, critiqueRequest: string, revisionRequest: string)

  /** The chain inputs of the user's request (`ChainValues`). */
  type Values = map<string, string>

  /** What the critique chain is asked with. */
  datatype CritiqueInputs = CritiqueInputs(inputPrompt: string, outputFromModel: string, critiqueRequest: string)

  /** What the revision chain is asked with. */
  datatype RevisionInputs = RevisionInputs(
    inputPrompt: string, outputFromModel: string, critiqueRequest: string,
    critique: string, revisionRequest: string)

  /** One call to one of the three chains, in the order they are made. */
  datatype ChainCall =
    | OriginalCall(values: Values)
    | CritiqueCall(critiqueInputs: CritiqueInputs)
    | RevisionCall(revisionInputs: RevisionInputs)

  // ---------------------------------------------------------------------
  // _parseCritique

  const RevisionMarker := "Revision request"
  const RevisionSplitter := "Revision request:"
  const Paragraph := "\n\n"

  /** `_parseCritique`: a reply mentioning a revision request is cut before
      the first "Revision request:", then before the first blank line. */
  function ParseCritique(outputString: string): (r: string)
    ensures r <= outputString
  {
    if !Contains(outputString, RevisionMarker) then outputString
    else
      var beforeRequest := Split(outputString, RevisionSplitter)[0];
      SplitFirst(outputString, RevisionSplitter);
      if Contains(beforeRequest, Paragraph) then
        SplitFirst(beforeRequest, Paragraph);
        Split(beforeRequest, Paragraph)[0]
      else beforeRequest
  }

  /** A reply that never mentions a revision request is the critique as it
      is. Otherwise the critique is the longest prefix holding neither
      "Revision request:" nor a blank line: it stops at the end of the
      reply or right before the first of the two. */
  lemma ParseCritiqueCutsAtFirstMarker(s: string)
    ensures !Contains(s, RevisionMarker) ==> ParseCritique(s) == s
    ensures Contains(s, RevisionMarker) ==>
      var r := ParseCritique(s);
      && !Contains(r, RevisionSplitter)
      && !Contains(r, Paragraph)
      && (|r| == |s| || OccursAt(s, RevisionSplitter, |r|) || OccursAt(s, Paragraph, |r|))
      && (forall j :: 0 <= j < |r| ==> !OccursAt(s, RevisionSplitter, j) && !OccursAt(s, Paragraph, j))
  {
    if Contains(s, RevisionMarker) {
      var before := Split(s, RevisionSplitter)[0];
      SplitFirst(s, RevisionSplitter);
      if Contains(before, Paragraph) {
        var r := Split(before, Paragraph)[0];
        SplitFirst(before, Paragraph);
        PrefixLacks(r, before, RevisionSplitter);
        OccursInExtension(before, s, Paragraph, |r|);
        forall j | 0 <= j < |r|
          ensures !OccursAt(s, Paragraph, j)
        {
          OccursWithin(before, s, Paragraph, j);
        }
      } else {
        forall j | 0 <= j < |before|
          ensures !OccursAt(s, Paragraph, j)
        {
          NoParagraphBeforeRequest(s, before, j);
        }
      }
    }
  }

  /** A blank line cannot start inside the text before the first
      "Revision request:" when that text has none: one that straddles its
      end would need a line break where the request begins. */
  lemma NoParagraphBeforeRequest(s: string, before: string, j: int)
    requires before <= s && !Contains(before, Paragraph) && 0 <= j < |before|
    requires |before| == |s| || OccursAt(s, RevisionSplitter, |before|)
    ensures !OccursAt(s, Paragraph, j)
  {
    if j + |Paragraph| <= |before| {
      OccursWithin(before, s, Paragraph, j);
    } else if |before| < |s| {
      assert s[|before|..|before| + |RevisionSplitter|] == RevisionSplitter;
      assert s[j + 1] == 'R';
    }
  }

  // ---------------------------------------------------------------------
  // The loop of _call

  function CritiqueInputsFor(inputPrompt: string, response: string, p: Principle): CritiqueInputs {
    CritiqueInputs(inputPrompt, response, p.critiqueRequest)
  }

  function RevisionInputsFor(inputPrompt: string, response: string, p: Principle, rawCritique: string): RevisionInputs {
    RevisionInputs(inputPrompt, response, p.critiqueRequest, ParseCritique(rawCritique), p.revisionRequest)
  }

  /** One critique-and-revise step: the revision of `response` under `p`. */
  function Revise(inputPrompt: string, response: string, p: Principle,
                  critiqueChain: CritiqueInputs -> string, revisionChain: RevisionInputs -> string): string
  {
    revisionChain(RevisionInputsFor(inputPrompt, response, p,
                                    critiqueChain(CritiqueInputsFor(inputPrompt, response, p))))
  }

  /** The responses the loop goes through: the initial one, then one
      revision per principle. */
  function Responses(inputPrompt: string, initial: string, principles: seq<Principle>,
                     critiqueChain: CritiqueInputs -> string, revisionChain: RevisionInputs -> string): (rs: seq<string>)
    ensures |rs| == |principles| + 1
    ensures rs[0] == initial
    decreases |principles|
  {
    if principles == [] then [initial]
    else
      var k := |principles| - 1;
      var prev := Responses(inputPrompt, initial, principles[..k], critiqueChain, revisionChain);
      prev + [Revise(inputPrompt, prev[k], principles[k], critiqueChain, revisionChain)]
  }

  /** The critique and revision calls of the loop, in the order made. */
  function StepCalls(inputPrompt: string, initial: string, principles: seq<Principle>,
                     critiqueChain: CritiqueInputs -> string, revisionChain: RevisionInputs -> string): (calls: seq<ChainCall>)
    ensures |calls| == 2 * |principles|
    decreases |principles|
  {
    if principles == [] then []
    else
      var k := |principles| - 1;
      var p := principles[k];
      var response := Responses(inputPrompt, initial, principles[..k], critiqueChain, revisionChain)[k];
      var critiqueIn := CritiqueInputsFor(inputPrompt, response, p);
      StepCalls(inputPrompt, initial, principles[..k], critiqueChain, revisionChain)
        + [CritiqueCall(critiqueIn),
           RevisionCall(RevisionInputsFor(inputPrompt, response, p, critiqueChain(critiqueIn)))]
  }

  /** Each step revises the response of the step before it. */
  lemma {:induction false} ResponsesChain(inputPrompt: string, initial: string, principles: seq<Principle>,
                                          critiqueChain: CritiqueInputs -> string, revisionChain: RevisionInputs -> string,
                                          i: nat)
    requires i < |principles|
    ensures var rs := Responses(inputPrompt, initial, principles, critiqueChain, revisionChain);
      rs[i + 1] == Revise(inputPrompt, rs[i], principles[i], critiqueChain, revisionChain)
    decreases |principles|
  {
    var k := |principles| - 1;
    if i < k {
      assert principles[..k][i] == principles[i];
      ResponsesChain(inputPrompt, initial, principles[..k], critiqueChain, revisionChain, i);
    }
  }

  /** Step `i` makes a critique call and then a revision call, both about
      principle `i` and about the response of step `i - 1` (the initial
      response for the first step), and both with the same prompt. */
  lemma {:induction false} StepCallsShape(inputPrompt: string, initial: string, principles: seq<Principle>,
                                          critiqueChain: CritiqueInputs -> string, revisionChain: RevisionInputs -> string,
                                          i: nat)
    requires i < |principles|
    ensures var rs := Responses(inputPrompt, initial, principles, critiqueChain, revisionChain);
      var calls := StepCalls(inputPrompt, initial, principles, critiqueChain, revisionChain);
      var critiqueIn := CritiqueInputsFor(inputPrompt, rs[i], principles[i]);
      && calls[2 * i] == CritiqueCall(critiqueIn)
      && calls[2 * i + 1] == RevisionCall(RevisionInputsFor(inputPrompt, rs[i], principles[i], critiqueChain(critiqueIn)))
    decreases |principles|
  {
    var k := |principles| - 1;
    if i < k {
      assert principles[..k][i] == principles[i];
      StepCallsShape(inputPrompt, initial, principles[..k], critiqueChain, revisionChain, i);
      ResponsesPrefix(inputPrompt, initial, principles, critiqueChain, revisionChain, k);
    }
  }

  /** Dropping the last principle drops the last response and nothing else. */
  lemma ResponsesPrefix(inputPrompt: string, initial: string, principles: seq<Principle>,
                        critiqueChain: CritiqueInputs -> string, revisionChain: RevisionInputs -> string,
                        k: nat)
    requires k + 1 == |principles|
    ensures Responses(inputPrompt, initial, principles[..k], critiqueChain, revisionChain)
            == Responses(inputPrompt, initial, principles, critiqueChain, revisionChain)[..k + 1]
  {
  }

  /** One more principle adds one revision and its two calls. */
  lemma StepExtends(inputPrompt: string, initial: string, principles: seq<Principle>,
                    critiqueChain: CritiqueInputs -> string, revisionChain: RevisionInputs -> string,
                    i: nat)
    requires i < |principles|
    ensures var response := Responses(inputPrompt, initial, principles[..i], critiqueChain, revisionChain)[i];
      var critiqueIn := CritiqueInputsFor(inputPrompt, response, principles[i]);
      && Responses(inputPrompt, initial, principles[..i + 1], critiqueChain, revisionChain)[i + 1]
         == Revise(inputPrompt, response, principles[i], critiqueChain, revisionChain)
      && StepCalls(inputPrompt, initial, principles[..i + 1], critiqueChain, revisionChain)
         == StepCalls(inputPrompt, initial, principles[..i], critiqueChain, revisionChain)
            + [CritiqueCall(critiqueIn),
               RevisionCall(RevisionInputsFor(inputPrompt, response, principles[i], critiqueChain(critiqueIn)))]
  {
    assert principles[..i + 1][..i] == principles[..i];
  }

  /** The chain as it is configured; none of this changes after
      construction. `prompt` is the formatting of the original chain's
      prompt. */
  datatype ConstitutionalChain = ConstitutionalChain(
    chain: Values -> string,
    prompt: Values -> string,
    constitutionalPrinciples: seq<Principle>,
    critiqueChain: CritiqueInputs -> string,
    revisionChain: RevisionInputs -> string)
  {
    /** `_call`: the initial response, revised once per principle in
        order; `calls` records the chain calls in the order made. */
    method Call(values: Values) returns (output: Values, calls: seq<ChainCall>)
      ensures var rs := Responses(prompt(values), chain(values), constitutionalPrinciples, critiqueChain, revisionChain);
        output == map["output" := rs[|constitutionalPrinciples|]]
      ensures calls == [OriginalCall(values)]
                       + StepCalls(prompt(values), chain(values), constitutionalPrinciples, critiqueChain, revisionChain)
    {
      var response := chain(values);
      calls := [OriginalCall(values)];
      var inputPrompt := prompt(values);
      ghost var initial := response;
      var i := 0;
      while i < |constitutionalPrinciples|
        invariant 0 <= i <= |constitutionalPrinciples|
        invariant response == Responses(inputPrompt, initial, constitutionalPrinciples[..i], critiqueChain, revisionChain)[i]
        invariant calls == [OriginalCall(values)]
                           + StepCalls(inputPrompt, initial, constitutionalPrinciples[..i], critiqueChain, revisionChain)
      {
        var p := constitutionalPrinciples[i];
        var critiqueIn := CritiqueInputs(inputPrompt, response, p.critiqueRequest);
        var rawCritique := critiqueChain(critiqueIn);
        var critique := ParseCritique(rawCritique);
        var revisionIn := RevisionInputs(inputPrompt, response, p.critiqueRequest, critique, p.revisionRequest);
        var revisionRaw := revisionChain(revisionIn);
        calls := calls + [CritiqueCall(critiqueIn), RevisionCall(revisionIn)];
        response := revisionRaw;
        StepExtends(inputPrompt, initial, constitutionalPrinciples, critiqueChain, revisionChain, i);
        i := i + 1;
      }
      assert constitutionalPrinciples[..i] == constitutionalPrinciples;
      output := map["output" := response];
    }
  }

  /** The calls of `_call`: one original call, then a critique call and a
      revision call per principle, in list order. Step `i` works on
      response `i` of `Responses` (the initial response, then each
      revision in turn, by `ResponsesChain`), and the revision call gets
      the critique call's reply after `_parseCritique`. */
  lemma CallLog(c: ConstitutionalChain, values: Values, calls: seq<ChainCall>)
    requires calls == [OriginalCall(values)]
                      + StepCalls(c.prompt(values), c.chain(values), c.constitutionalPrinciples, c.critiqueChain, c.revisionChain)
    ensures |calls| == 1 + 2 * |c.constitutionalPrinciples|
    ensures calls[0] == OriginalCall(values)
    ensures var rs := Responses(c.prompt(values), c.chain(values), c.constitutionalPrinciples, c.critiqueChain, c.revisionChain);
      forall i :: 0 <= i < |c.constitutionalPrinciples| ==>
        var critiqueIn := CritiqueInputsFor(c.prompt(values), rs[i], c.constitutionalPrinciples[i]);
        && calls[1 + 2 * i] == CritiqueCall(critiqueIn)
        && calls[2 + 2 * i] == RevisionCall(RevisionInputsFor(c.prompt(values), rs[i], c.constitutionalPrinciples[i],
                                                              c.critiqueChain(critiqueIn)))
  {
    var ps := c.constitutionalPrinciples;
    var inputPrompt := c.prompt(values);
    var steps := StepCalls(inputPrompt, c.chain(values), ps, c.critiqueChain, c.revisionChain);
    forall i | 0 <= i < |ps|
      ensures calls[1 + 2 * i] == steps[2 * i] && calls[2 + 2 * i] == steps[2 * i + 1]
    {
    }
    forall i | 0 <= i < |ps|
    {
      StepCallsShape(inputPrompt, c.chain(values), ps, c.critiqueChain, c.revisionChain, i);
    }
  }

  /** `input_prompt` is formatted once: every critique and revision call
      carries the same one. */
  lemma SamePromptEverywhere(c: ConstitutionalChain, values: Values, calls: seq<ChainCall>)
    requires calls == [OriginalCall(values)]
                      + StepCalls(c.prompt(values), c.chain(values), c.constitutionalPrinciples, c.critiqueChain, c.revisionChain)
    ensures forall j :: 1 <= j < |calls| ==>
      (calls[j].CritiqueCall? && calls[j].critiqueInputs.inputPrompt == c.prompt(values))
      || (calls[j].RevisionCall? && calls[j].revisionInputs.inputPrompt == c.prompt(values))
  {
    var ps := c.constitutionalPrinciples;
    var steps := StepCalls(c.prompt(values), c.chain(values), ps, c.critiqueChain, c.revisionChain);
    forall j | 1 <= j < |calls|
      ensures (calls[j].CritiqueCall? && calls[j].critiqueInputs.inputPrompt == c.prompt(values))
              || (calls[j].RevisionCall? && calls[j].revisionInputs.inputPrompt == c.prompt(values))
    {
      var i := (j - 1) / 2;
      StepCallsShape(c.prompt(values), c.chain(values), ps, c.critiqueChain, c.revisionChain, i);
      assert calls[j] == steps[j - 1];
      assert j - 1 == 2 * i || j - 1 == 2 * i + 1;
    }
  }

  // ---------------------------------------------------------------------
  // getPrinciples and fromLLM

  /** One entry of the registry of known principles (`PRINCIPLES`), in its
      key order. */
  datatype Entry = Entry(key: string, principle: Principle)

  /** `PRINCIPLES[name]`: the first entry with that key, or `undefined`. */
  function Lookup(registry: seq<Entry>, name: string): (r: Option<Principle>)
    ensures r.None? <==> forall j :: 0 <= j < |registry| ==> registry[j].key != name
    ensures r.Some? ==> Entry(name, r.value) in registry
  {
    if registry == [] then None
    else if registry[0].key == name then Some(registry[0].principle)
    else
      assert registry == [registry[0]] + registry[1..];
      Lookup(registry[1..], name)
  }

  /** `getPrinciples(names)`: with names (even an empty list, which is
      truthy), one lookup per name in order, `undefined` for an unknown
      name; without names, every registered principle in registry order. */
  function GetPrinciples(registry: seq<Entry>, names: Option<seq<string>>): (r: seq<Option<Principle>>)
    ensures names.Some? ==> |r| == |names.value|
    ensures names.Some? ==> forall i :: 0 <= i < |r| ==> r[i] == Lookup(registry, names.value[i])
    ensures names.None? ==> |r| == |registry|
    ensures names.None? ==> forall i :: 0 <= i < |r| ==> r[i] == Some(registry[i].principle)
  {
    match names
    case Some(ns) => seq(|ns|, i requires 0 <= i < |ns| => Lookup(registry, ns[i]))
    case None => seq(|registry|, i requires 0 <= i < |registry| => Some(registry[i].principle))
  }

  /** A registered name finds its own principle when keys are distinct. */
  lemma LookupRegistered(registry: seq<Entry>, j: nat)
    requires j < |registry|
    requires forall a, b :: 0 <= a < b < |registry| ==> registry[a].key != registry[b].key
    ensures Lookup(registry, registry[j].key) == Some(registry[j].principle)
  {
    var r := Lookup(registry, registry[j].key);
    var a :| 0 <= a < |registry| && registry[a] == Entry(registry[j].key, r.value);
    assert a == j;
  }

  /** `fromLLM`: the given chains, or the defaults built from the language
      model when absent; no principles when none are given. */
  function FromLLM(chain: Values -> string, prompt: Values -> string,
                   constitutionalPrinciples: Option<seq<Principle>>,
                   critiqueChain: Option<CritiqueInputs -> string>, revisionChain: Option<RevisionInputs -> string>,
                   defaultCritique: CritiqueInputs -> string, defaultRevision: RevisionInputs -> string): (c: ConstitutionalChain)
    ensures c.chain == chain && c.prompt == prompt
    ensures constitutionalPrinciples.None? ==> c.constitutionalPrinciples == []
    ensures constitutionalPrinciples.Some? ==> c.constitutionalPrinciples == constitutionalPrinciples.value
    ensures c.critiqueChain == if critiqueChain.Some? then critiqueChain.value else defaultCritique
    ensures c.revisionChain == if revisionChain.Some? then revisionChain.value else defaultRevision
  {
    ConstitutionalChain(chain, prompt, constitutionalPrinciples.GetOr([]),
                        critiqueChain.GetOr(defaultCritique), revisionChain.GetOr(defaultRevision))
  }
}
