/** The deterministic parts of `GenerativeAgent`
    (`langchain/src/experimental/generative_agents/generative_agent.ts`):
    the summary cache with its refresh period, the classification of a
    reply by its `REACT:` / `SAY:` / `GOODBYE:` marker, `_cleanResponse`
    and `parseList`. Time is in milliseconds; what the language model
    writes is handed in as text. */
module GenerativeAgents {
  import opened Wrappers
  import opened Strings

  // ---------------------------------------------------------------------
  // parseList

  /** How many decimal digits `s` starts with. */
  function LeadingDigits(s: string): (d: nat)
    ensures d <= |s| && AllDigits(s[..d])
    ensures d < |s| ==> !IsDigit(s[d])
  {
    if s != [] && IsDigit(s[0]) then
      var d := 1 + LeadingDigits(s[1..]);
      assert s[..d] == [s[0]] + s[1..][..d - 1];
      d
    else 0
  }

  /** The line starts as `^\s*\d+\.` requires: optional whitespace,
      at least one digit, then a full stop. Both counts are maximal, as
      the regular expression's must be (a digit is not whitespace and a
      full stop is not a digit). */
  predicate StartsWithEnumeration(line: string) {
    var w := LeadingWhitespace(line);
    var d := LeadingDigits(line[w..]);
    0 < d && w + d < |line| && line[w + d] == '.'
  }

  /** `p` is entirely an enumeration such as " 12. " (`\s*\d+\.\s*`):
      `w` whitespace characters, `d` digits, a full stop, whitespace. */
  predicate IsEnumerationAt(p: string, w: nat, d: nat) {
    && 0 < d && w + d < |p|
    && AllWhitespace(p[..w]) && AllDigits(p[w..w + d]) && p[w + d] == '.'
    && AllWhitespace(p[w + d + 1..])
  }

  /** `p` is entirely an enumeration such as " 12. ". */
  ghost predicate IsEnumeration(p: string) {
    exists w, d :: IsEnumerationAt(p, w, d)
  }

  /** The `replace` in `parseList`: a leading enumeration (whitespace,
      digits, a full stop, whitespace, such as " 12. ") is removed once; a
      line without one is left as it is. What is removed is an
      enumeration, and what is left does not start with whitespace, so
      the longest match is the one removed. */
  function StripEnumeration(line: string): (r: string)
    ensures !StartsWithEnumeration(line) ==> r == line
    ensures StartsWithEnumeration(line) ==>
      && |r| < |line| && r == line[|line| - |r|..]
      && IsEnumeration(line[..|line| - |r|])
      && (r == [] || !IsWhitespace(r[0]))
  {
    var rest := TrimStart(line);
    var d := LeadingDigits(rest);
    if 0 < d < |rest| && rest[d] == '.' then
      var w := LeadingWhitespace(line);
      var k := w + d + 1;
      assert rest[d + 1..] == line[k..];
      EnumerationCut(line, w, d, LeadingWhitespace(line[k..]));
      TrimStart(rest[d + 1..])
    else line
  }

  /** The part of `line` up to the end of the whitespace after its
      enumeration's full stop is an enumeration. */
  lemma EnumerationCut(line: string, w: nat, d: nat, g: nat)
    requires w + d < |line| && AllWhitespace(line[..w])
    requires 0 < d && AllDigits(line[w..][..d]) && line[w + d] == '.'
    requires g <= |line[w + d + 1..]| && AllWhitespace(line[w + d + 1..][..g])
    ensures IsEnumerationAt(line[..w + d + 1 + g], w, d)
    ensures IsEnumeration(line[..w + d + 1 + g])
  {
    var p := line[..w + d + 1 + g];
    assert p[..w] == line[..w];
    assert p[w..w + d] == line[w..][..d];
    assert p[w + d + 1..] == line[w + d + 1..][..g];
    assert IsEnumerationAt(p, w, d);
  }

  /** `parseList`: one item per line of the trimmed text, each without its
      enumeration and trimmed. */
  function ParseList(text: string): (items: seq<string>)
    ensures |items| == |Split(Trim(text), "\n")| >= 1
    ensures forall i :: 0 <= i < |items| ==>
      items[i] == Trim(StripEnumeration(Split(Trim(text), "\n")[i])) && IsTrimmed(items[i])
  {
    var lines := Split(Trim(text), "\n");
    seq(|lines|, i requires 0 <= i < |lines| => Trim(StripEnumeration(lines[i])))
  }

  /** The line `k. item`, as a model is asked to write list entries. */
  function NumberedLine(k: nat, item: string): string {
    NatToString(k) + ". " + item
  }

  /** The lines `1. a`, `2. b`, ... of a list of items. */
  function Numbered(items: seq<string>): (lines: seq<string>)
    ensures |lines| == |items|
    ensures forall i :: 0 <= i < |items| ==> lines[i] == NumberedLine(i + 1, items[i])
  {
    seq(|items|, i requires 0 <= i < |items| => NumberedLine(i + 1, items[i]))
  }

  lemma TrimStartKeeps(s: string)
    requires s == [] || !IsWhitespace(s[0])
    ensures TrimStart(s) == s
  {
    assert LeadingWhitespace(s) == 0;
  }

  lemma {:induction false} LeadingDigitsOf(digits: string, rest: string)
    requires AllDigits(digits)
    requires rest == [] || !IsDigit(rest[0])
    ensures LeadingDigits(digits + rest) == |digits|
    decreases |digits|
  {
    if digits != [] {
      assert (digits + rest)[1..] == digits[1..] + rest;
      LeadingDigitsOf(digits[1..], rest);
    }
  }

  /** The enumeration of a numbered line is removed, and only it. */
  lemma StripNumberedLine(k: nat, item: string)
    requires item == [] || !IsWhitespace(item[0])
    ensures StripEnumeration(NumberedLine(k, item)) == item
  {
    var line := NumberedLine(k, item);
    var d := |NatToString(k)|;
    NumberedLineShape(k, item);
    StripEnumerationAt(line, d);
    TrimStartSpace(item);
    TrimStartKeeps(item);
  }

  /** A numbered line starts with its digits, then ". ", then the item. */
  lemma NumberedLineShape(k: nat, item: string)
    ensures var line := NumberedLine(k, item); var d := |NatToString(k)|;
      && !IsWhitespace(line[0])
      && LeadingDigits(line) == d && 0 < d < |line| && line[d] == '.'
      && line[d + 1..] == [' '] + item
  {
    var n := NatToString(k);
    var line := NumberedLine(k, item);
    var tail := ". " + item;
    assert line == n + tail;
    assert line[0] == n[0] && IsDigit(n[0]);
    LeadingDigitsOf(n, tail);
    assert line[|n| + 1..] == [' '] + item;
  }

  /** A line that starts with `d` digits and a full stop loses them and
      the whitespace after them. */
  lemma StripEnumerationAt(line: string, d: nat)
    requires line == [] || !IsWhitespace(line[0])
    requires LeadingDigits(line) == d && 0 < d < |line| && line[d] == '.'
    ensures StripEnumeration(line) == TrimStart(line[d + 1..])
  {
    TrimStartKeeps(line);
  }

  lemma TrimStartSpace(item: string)
    ensures TrimStart([' '] + item) == TrimStart(item)
  {
    var line := [' '] + item;
    assert line[1..] == item;
    assert LeadingWhitespace(line) == 1 + LeadingWhitespace(item);
    assert line[1 + LeadingWhitespace(item)..] == item[LeadingWhitespace(item)..];
  }

  lemma {:induction false} JoinStartsWithFirst(parts: seq<string>, sep: string)
    requires |parts| >= 1 && parts[0] != []
    ensures Join(parts, sep) != [] && Join(parts, sep)[0] == parts[0][0]
  {
  }

  lemma {:induction false} JoinEndsWithLast(parts: seq<string>, sep: string)
    requires |parts| >= 1 && parts[|parts| - 1] != []
    ensures var j := Join(parts, sep); j != [] && j[|j| - 1] == parts[|parts| - 1][|parts[|parts| - 1]| - 1]
  {
    var n := |parts|;
    if n > 1 {
      assert parts[..n - 1] + [parts[n - 1]] == parts;
      JoinAppend(parts[..n - 1], parts[n - 1], sep);
    }
  }

  lemma NumberedTextTrimmed(items: seq<string>)
    requires |items| >= 1
    requires forall i :: 0 <= i < |items| ==> items[i] != [] && IsTrimmed(items[i])
    ensures IsTrimmed(Join(Numbered(items), "\n"))
  {
    var lines := Numbered(items);
    var last := |items| - 1;
    JoinStartsWithFirst(lines, "\n");
    assert lines[0][0] == NatToString(1)[0];
    JoinEndsWithLast(lines, "\n");
    assert lines[last] == (NatToString(last + 1) + ". ") + items[last];
  }

  lemma NumberedLinesSingle(items: seq<string>)
    requires forall i :: 0 <= i < |items| ==> '\n' !in items[i]
    ensures forall k :: 0 <= k < |items| ==> '\n' !in Numbered(items)[k]
  {
    forall k | 0 <= k < |items|
      ensures '\n' !in Numbered(items)[k]
    {
      var n := NatToString(k + 1);
      assert Numbered(items)[k] == n + ". " + items[k];
      assert '\n' !in n;
    }
  }

  /** A numbered list splits back into its numbered lines. */
  lemma SplitNumbered(items: seq<string>)
    requires |items| >= 1
    requires forall i :: 0 <= i < |items| ==> items[i] != [] && IsTrimmed(items[i]) && '\n' !in items[i]
    ensures Split(Trim(Join(Numbered(items), "\n")), "\n") == Numbered(items)
  {
    NumberedTextTrimmed(items);
    NumberedLinesSingle(items);
    SplitJoinChar(Numbered(items), '\n');
  }

  lemma ParsedNumberedItem(items: seq<string>, r: seq<string>, i: nat)
    requires i < |items| == |r|
    requires items[i] != [] && IsTrimmed(items[i])
    requires r[i] == Trim(StripEnumeration(Numbered(items)[i]))
    ensures r[i] == items[i]
  {
    var item := items[i];
    assert Numbered(items)[i] == NumberedLine(i + 1, item);
    StripNumberedLine(i + 1, item);
    assert StripEnumeration(NumberedLine(i + 1, item)) == item;
    assert Trim(item) == item;
  }

  /** Reading back a numbered list gives the items, provided each item is a
      non-empty single line without surrounding whitespace. */
  lemma {:induction false} ParseNumberedList(items: seq<string>)
    requires |items| >= 1
    requires forall i :: 0 <= i < |items| ==> items[i] != [] && IsTrimmed(items[i]) && '\n' !in items[i]
    ensures ParseList(Join(Numbered(items), "\n")) == items
  {
    var lines := Numbered(items);
    var text := Join(lines, "\n");
    SplitNumbered(items);
    var r := ParseList(text);
    forall i | 0 <= i < |items|
      ensures r[i] == items[i]
    {
      ParsedNumberedItem(items, r, i);
    }
  }

  // ---------------------------------------------------------------------
  // _cleanResponse and the reply markers

  /** `_cleanResponse`: `undefined` becomes "", otherwise one leading
      "<name> " is removed and the rest trimmed. */
  function CleanResponse(name: string, text: Option<string>): (r: string)
    ensures IsTrimmed(r)
    ensures text.None? ==> r == ""
    ensures text.Some? ==> exists lo :: OccursAt(text.value, r, lo)
    ensures text.Some? && !(name + " " <= text.value) ==> r == Trim(text.value)
    ensures text.Some? && name + " " <= text.value ==> r == Trim(text.value[|name| + 1..])
  {
    match text
    case None => ""
    case Some(t) =>
      var prefix := name + " ";
      if prefix <= t then
        var rest := t[|prefix|..];
        TrimOccurs(rest);
        OccursAfterPrefix(t, |prefix|, Trim(rest), LeadingWhitespace(rest));
        Trim(rest)
      else
        TrimOccurs(t);
        Trim(t)
  }

  /** A reply that starts with the agent's name and a space loses them:
      what is left is the trimmed rest. */
  lemma CleanNamedReply(name: string, rest: string)
    ensures CleanResponse(name, Some(name + " " + rest)) == Trim(rest)
  {
    var t := name + " " + rest;
    assert name + " " <= t;
    assert t[|name| + 1..] == rest;
  }

  /** Text that is already trimmed and does not start with the name and a
      space is left as it is. */
  lemma CleanKeepsCleanText(name: string, t: string)
    requires IsTrimmed(t) && !(name + " " <= t)
    ensures CleanResponse(name, Some(t)) == t
  {
  }

  /** What occurs in the suffix `t[k..]` occurs in `t`, `k` further on. */
  lemma OccursAfterPrefix(t: string, k: nat, pat: string, lo: int)
    requires k <= |t| && OccursAt(t[k..], pat, lo)
    ensures OccursAt(t, pat, k + lo)
  {
    assert t[k + lo..k + lo + |pat|] == t[k..][lo..lo + |pat|];
  }

  const ReactMarker := "REACT:"
  const SayMarker := "SAY:"
  const GoodbyeMarker := "GOODBYE:"

  /** `rawOutput.split(marker).pop()`: the text after the last marker. */
  function AfterLast(raw: string, marker: string): (r: string)
    requires marker != []
    ensures !Contains(r, marker)
    ensures !Contains(raw, marker) ==> r == raw
  {
    SplitLast(raw, marker);
    var parts := Split(raw, marker);
    parts[|parts| - 1]
  }

  /** The text after the last marker holds no marker, and the reply is some
      text, the marker, then that text. */
  lemma AfterLastMarker(raw: string, marker: string)
    requires marker != [] && Contains(raw, marker)
    ensures !Contains(AfterLast(raw, marker), marker)
    ensures exists before :: raw == before + marker + AfterLast(raw, marker)
  {
    SplitLast(raw, marker);
    var parts := Split(raw, marker);
    assert raw == Join(parts[..|parts| - 1], marker) + marker + AfterLast(raw, marker);
  }

  /** What `_call` makes of a reply: the output, the `continue_dialogue`
      flag, and the memory it records, if any. */
  datatype Reaction = Reaction(output: string, continueDialogue: bool, memory: Option<string>)

  /** The marker branches of `_call`, tested in the order `REACT:`,
      `SAY:`, `GOODBYE:`. */
  function Classify(name: string, observation: string, rawOutput: string): (r: Reaction)
    ensures r.continueDialogue <==> !Contains(rawOutput, ReactMarker) && Contains(rawOutput, SayMarker)
    ensures r.memory.None? <==>
      !Contains(rawOutput, ReactMarker) && !Contains(rawOutput, SayMarker) && !Contains(rawOutput, GoodbyeMarker)
    ensures r.memory.None? ==> r.output == rawOutput
    ensures Contains(rawOutput, ReactMarker) ==>
      var reaction := CleanResponse(name, Some(AfterLast(rawOutput, ReactMarker)));
      r.output == reaction && r.memory == Some(name + " observed " + observation + " and reacted by " + reaction)
    ensures !Contains(rawOutput, ReactMarker) && Contains(rawOutput, SayMarker) ==>
      var saidValue := CleanResponse(name, Some(AfterLast(rawOutput, SayMarker)));
      r.output == name + " said " + saidValue
      && r.memory == Some(name + " observed " + observation + " and said " + saidValue)
    ensures !Contains(rawOutput, ReactMarker) && !Contains(rawOutput, SayMarker) && Contains(rawOutput, GoodbyeMarker) ==>
      var farewell := CleanResponse(name, Some(AfterLast(rawOutput, GoodbyeMarker)));
      r.output == name + " said " + farewell
      && r.memory == Some(name + " observed " + observation + " and said " + farewell)
  {
    if Contains(rawOutput, ReactMarker) then
      var reaction := CleanResponse(name, Some(AfterLast(rawOutput, ReactMarker)));
      Reaction(reaction, false, Some(name + " observed " + observation + " and reacted by " + reaction))
    else if Contains(rawOutput, SayMarker) then
      var saidValue := CleanResponse(name, Some(AfterLast(rawOutput, SayMarker)));
      Reaction(name + " said " + saidValue, true, Some(name + " observed " + observation + " and said " + saidValue))
    else if Contains(rawOutput, GoodbyeMarker) then
      var farewell := CleanResponse(name, Some(AfterLast(rawOutput, GoodbyeMarker)));
      Reaction(name + " said " + farewell, false, Some(name + " observed " + observation + " and said " + farewell))
    else Reaction(rawOutput, false, None)
  }

  /** A `REACT:` marker wins over any other: the output is the cleaned
      text after the last `REACT:`, which holds no `REACT:` of its own. */
  lemma ReactTakesPrecedence(name: string, observation: string, rawOutput: string)
    requires Contains(rawOutput, ReactMarker)
    ensures var r := Classify(name, observation, rawOutput);
      && !r.continueDialogue
      && r.output == CleanResponse(name, Some(AfterLast(rawOutput, ReactMarker)))
      && !Contains(AfterLast(rawOutput, ReactMarker), ReactMarker)
      && r.memory == Some(name + " observed " + observation + " and reacted by " + r.output)
  {
    AfterLastMarker(rawOutput, ReactMarker);
  }

  /** Without `REACT:`, a `SAY:` reply, or failing that a `GOODBYE:` one,
      is reported as what the agent said: the cleaned text after the last
      marker of its kind, which holds no such marker. The memory records
      the same words, and only `SAY:` keeps the dialogue going. */
  lemma SpokenReply(name: string, observation: string, rawOutput: string, marker: string)
    requires !Contains(rawOutput, ReactMarker)
    requires || (marker == SayMarker && Contains(rawOutput, SayMarker))
             || (marker == GoodbyeMarker && !Contains(rawOutput, SayMarker) && Contains(rawOutput, GoodbyeMarker))
    ensures var r := Classify(name, observation, rawOutput);
      var said := CleanResponse(name, Some(AfterLast(rawOutput, marker)));
      && !Contains(AfterLast(rawOutput, marker), marker)
      && IsTrimmed(said)
      && r.output == name + " said " + said
      && r.memory == Some(name + " observed " + observation + " and " + r.output[|name| + 1..])
      && (r.continueDialogue <==> marker == SayMarker)
  {
    AfterLastMarker(rawOutput, marker);
    var r := Classify(name, observation, rawOutput);
    var said := CleanResponse(name, Some(AfterLast(rawOutput, marker)));
    SaidWords(name, observation, said);
    if marker == SayMarker {
      assert r == Reaction(name + " said " + said, true, Some(name + " observed " + observation + " and said " + said));
    } else {
      assert r == Reaction(name + " said " + said, false, Some(name + " observed " + observation + " and said " + said));
    }
  }

  /** The memory of a spoken reply repeats the output after the name. */
  lemma SaidWords(name: string, observation: string, said: string)
    ensures name + " observed " + observation + " and " + (name + " said " + said)[|name| + 1..]
            == name + " observed " + observation + " and said " + said
  {
    assert (name + " said " + said)[|name| + 1..] == "said " + said;
    assert " and " + ("said " + said) == " and said " + said;
  }

  // ---------------------------------------------------------------------
  // The summary cache

  /** `summary` and `lastRefreshed` (milliseconds), as a value. */
  datatype SummaryCache = SummaryCache(summary: string, lastRefreshed: int)

  /** The condition under which `getSummary` regenerates: no summary yet,
      at least `summaryRefreshSeconds` whole seconds since the last
      refresh, or a forced refresh. */
  function NeedsRefresh(cache: SummaryCache, summaryRefreshSeconds: int, now: int, forceRefresh: bool): (b: bool)
    ensures cache.summary == "" || forceRefresh ==> b
    ensures cache.summary != "" && !forceRefresh ==>
      (b <==> now - cache.lastRefreshed >= summaryRefreshSeconds * 1000)
  {
    WholeSeconds(now - cache.lastRefreshed, summaryRefreshSeconds);
    cache.summary == "" || (now - cache.lastRefreshed) / 1000 >= summaryRefreshSeconds || forceRefresh
  }

  /** Whole seconds, rounded down, reach `s` exactly when the milliseconds
      reach `s * 1000`. */
  lemma WholeSeconds(ms: int, s: int)
    ensures ms / 1000 >= s <==> ms >= s * 1000
  {
    assert ms == 1000 * (ms / 1000) + ms % 1000;
  }

  /** The cache after one `getSummary`, given the text the summary chain
      would write (`computeAgentSummary` trims it). */
  function Refreshed(cache: SummaryCache, summaryRefreshSeconds: int, now: int, forceRefresh: bool,
                     generated: string): (next: SummaryCache)
    ensures NeedsRefresh(cache, summaryRefreshSeconds, now, forceRefresh) ==>
      next == SummaryCache(Trim(generated), now)
    ensures !NeedsRefresh(cache, summaryRefreshSeconds, now, forceRefresh) ==> next == cache
  {
    if NeedsRefresh(cache, summaryRefreshSeconds, now, forceRefresh)
    then SummaryCache(Trim(generated), now)
    else cache
  }

  /** Within the refresh period, a non-empty summary is kept: of two
      consecutive unforced calls (the second starts after the first
      returns) less than `summaryRefreshSeconds` seconds apart, at most
      one regenerates. */
  lemma AtMostOneRefreshInPeriod(cache: SummaryCache, summaryRefreshSeconds: int,
                                 t1: int, gen1: string, t2: int, gen2: string)
    requires 0 <= t2 - t1 < summaryRefreshSeconds * 1000
    requires Trim(gen1) != ""
    requires NeedsRefresh(cache, summaryRefreshSeconds, t1, false)
    ensures var c1 := Refreshed(cache, summaryRefreshSeconds, t1, false, gen1);
      !NeedsRefresh(c1, summaryRefreshSeconds, t2, false)
      && Refreshed(c1, summaryRefreshSeconds, t2, false, gen2) == c1
  {
    assert (t2 - t1) / 1000 < summaryRefreshSeconds;
  }

  /** The age as the header prints it: "N/A" when absent or 0 (falsy). */
  function AgeText(age: Option<int>): (t: string)
    ensures t == "N/A" <==> age.None? || age.value == 0
    ensures age.Some? && age.value != 0 ==> t == IntToString(age.value)
  {
    if age.Some? && age.value != 0 then IntToString(age.value) else "N/A"
  }

  /** The header `getSummary` returns: the name and age, the innate traits,
      then the summary as the last line. */
  function SummaryHeader(name: string, age: Option<int>, traits: string, summary: string): (h: string)
    ensures "Name: " + name + " (age: " + AgeText(age) + ")" <= h
    ensures |h| >= |summary| && h[|h| - |summary|..] == summary
  {
    "Name: " + name + " (age: " + AgeText(age) + ")\nInnate traits: " + traits + "\n" + summary
  }

  /** A memory handed to the agent's memory store. */
  datatype Memory = Memory(content: string, now: Option<int>)

  class GenerativeAgent {
    const name: string
    const age: Option<int>
    const traits: string
    const status: string
    const summaryRefreshSeconds: int
    var summary: string
    var lastRefreshed: int
    /** The memories this agent has added to its store, oldest first. */
    var memories: seq<Memory>

    /** `new GenerativeAgent(llm, memory, config)` at time `now`: an empty
        summary, refreshed every hour unless configured otherwise. */
    constructor(name: string, age: Option<int>, traits: string, status: string,
                summaryRefreshSeconds: Option<int>, now: int)
      ensures this.name == name && this.age == age && this.traits == traits && this.status == status
      ensures this.summaryRefreshSeconds == summaryRefreshSeconds.GetOr(3600)
      ensures summary == "" && lastRefreshed == now && memories == []
    {
      this.name := name;
      this.age := age;
      this.traits := traits;
      this.status := status;
      this.summaryRefreshSeconds := summaryRefreshSeconds.GetOr(3600);
      summary := "";
      lastRefreshed := now;
      memories := [];
    }

    /** `getSummary({now, forceRefresh})`: regenerates the summary from
        `generated` when it is due, then returns the header. */
    method GetSummary(now: int, forceRefresh: bool, generated: string) returns (header: string)
      modifies this`summary, this`lastRefreshed
      ensures SummaryCache(summary, lastRefreshed)
              == Refreshed(old(SummaryCache(summary, lastRefreshed)), summaryRefreshSeconds, now, forceRefresh, generated)
      ensures header == SummaryHeader(name, age, traits, summary)
    {
      var sinceRefresh := (now - lastRefreshed) / 1000;
      if summary == "" || sinceRefresh >= summaryRefreshSeconds || forceRefresh {
        summary := Trim(generated);
        lastRefreshed := now;
      }
      var ageText;
      if age.Some? && age.value != 0 {
        ageText := IntToString(age.value);
      } else {
        ageText := "N/A";
      }
      header := "Name: " + name + " (age: " + ageText + ")\nInnate traits: " + traits + "\n" + summary;
    }

    /** The reply handling of `_call`: classify the model's reply and add
        the memory its branch records. */
    method React(observation: string, now: Option<int>, rawOutput: string)
      returns (output: string, continueDialogue: bool)
      modifies this`memories
      ensures var r := Classify(name, observation, rawOutput);
        && output == r.output && continueDialogue == r.continueDialogue
        && memories == old(memories) + (if r.memory.Some? then [Memory(r.memory.value, now)] else [])
    {
      output := rawOutput;
      continueDialogue := false;
      if Contains(rawOutput, ReactMarker) {
        var reaction := CleanResponse(name, Some(AfterLast(rawOutput, ReactMarker)));
        memories := memories + [Memory(name + " observed " + observation + " and reacted by " + reaction, now)];
        output := reaction;
        continueDialogue := false;
      } else if Contains(rawOutput, SayMarker) {
        var saidValue := CleanResponse(name, Some(AfterLast(rawOutput, SayMarker)));
        memories := memories + [Memory(name + " observed " + observation + " and said " + saidValue, now)];
        output := name + " said " + saidValue;
        continueDialogue := true;
      } else if Contains(rawOutput, GoodbyeMarker) {
        var farewell := CleanResponse(name, Some(AfterLast(rawOutput, GoodbyeMarker)));
        memories := memories + [Memory(name + " observed " + observation + " and said " + farewell, now)];
        output := name + " said " + farewell;
        continueDialogue := false;
      }
    }
  }
}
