/** `RegexParser` (`langchain/src/output_parsers/regex.ts`): the capture
    groups of a regular-expression match become the values of the output
    keys. The regular-expression engine is a function handed in by the
    caller. */
module RegexOutput {
  import opened Wrappers

  /** A compiled regular expression: its source and its flags. */
  datatype Regex = Regex(pattern: string, flags: string)

  /** The ways a regular expression can be given to the constructor: a
      pattern string, a `RegExp` object, or `{pattern, flags}`. */
  datatype RegexArg =
    | PatternString(pattern: string)
    | RegExpObject(source: string, objectFlags: string)
    | RegExpFields(pattern: string, flags: Option<string>)

  /** `RegexParserFields` */
  datatype RegexParserFields = RegexParserFields(regex: RegexArg, outputKeys: seq<string>, defaultOutputKey: Option<string>)

  /** The parser as constructed. */
  datatype RegexParser = RegexParser(regex: Regex, outputKeys: seq<string>, defaultOutputKey: Option<string>)

  /** The regular expression the constructor builds from each form: a
      `RegExp` object goes through `{pattern: source, flags}`; absent flags
      are none. */
  function Compile(arg: RegexArg): (r: Regex)
    ensures arg.PatternString? ==> r == Regex(arg.pattern, "")
    ensures arg.RegExpObject? ==> r == Regex(arg.source, arg.objectFlags)
    ensures arg.RegExpFields? ==> r == Regex(arg.pattern, arg.flags.GetOr(""))
  {
    match arg
    case PatternString(p) => Regex(p, "")
    case RegExpObject(source, flags) => Regex(source, flags)
    case RegExpFields(p, flags) => Regex(p, flags.GetOr(""))
  }

  /** `new RegexParser(fields)` */
  function FromFields(fields: RegexParserFields): (p: RegexParser)
    ensures p.outputKeys == fields.outputKeys && p.defaultOutputKey == fields.defaultOutputKey
    ensures p.regex == Compile(fields.regex)
  {
    RegexParser(Compile(fields.regex), fields.outputKeys, fields.defaultOutputKey)
  }

  /** `new RegexParser(regex, outputKeys, defaultOutputKey)`, where `regex`
      is a string or a `RegExp` object: the arguments are first gathered
      into the fields form. */
  function FromPositional(regex: RegexArg, outputKeys: seq<string>, defaultOutputKey: Option<string>): (p: RegexParser)
    requires !regex.RegExpFields?
    ensures p == FromFields(RegexParserFields(regex, outputKeys, defaultOutputKey))
  {
    FromFields(RegexParserFields(regex, outputKeys, defaultOutputKey))
  }

  /** Both constructor forms give the same keys, default key and regular
      expression for the same arguments, and a `RegExp` object behaves as
      its `{pattern, flags}`. */
  lemma ConstructorFormsAgree(regex: RegexArg, outputKeys: seq<string>, defaultOutputKey: Option<string>)
    requires regex.RegExpObject?
    ensures FromPositional(regex, outputKeys, defaultOutputKey)
            == FromFields(RegexParserFields(RegExpFields(regex.source, Some(regex.objectFlags)), outputKeys, defaultOutputKey))
  {
  }

  /** `text.match(regex)`: the match array (the whole match, then one entry
      per group, `undefined` for a group that did not take part), or no
      match. */
  type Matcher = (Regex, string) -> Option<seq<Option<string>>>

  /** `match[i]`, `undefined` past the end. */
  function GroupAt(groups: seq<Option<string>>, i: nat): Option<string> {
    if i < |groups| then groups[i] else None
  }

  /** A key whose later copies do not follow position `i`. */
  predicate LastAt(keys: seq<string>, i: nat)
    requires i < |keys|
  {
    forall j :: i < j < |keys| ==> keys[j] != keys[i]
  }

  /** The `reduce` over the output keys after a match: key `i` takes group
      `i + 1`; when a key is repeated, its last position wins. */
  function FromGroups(keys: seq<string>, groups: seq<Option<string>>): (record: map<string, Option<string>>)
    ensures record.Keys == set k | k in keys
    decreases |keys|
  {
    if keys == [] then map[]
    else
      var n := |keys| - 1;
      var prev := FromGroups(keys[..n], groups);
      assert forall k :: k in keys <==> k in keys[..n] || k == keys[n];
      prev[keys[n] := GroupAt(groups, n + 1)]
  }

  /** After a match, each key holds the group after its last position. */
  lemma {:induction false} FromGroupsValues(keys: seq<string>, groups: seq<Option<string>>, i: nat)
    requires i < |keys| && LastAt(keys, i)
    ensures FromGroups(keys, groups)[keys[i]] == GroupAt(groups, i + 1)
    decreases |keys|
  {
    var n := |keys| - 1;
    if i < n {
      assert keys[..n][i] == keys[i];
      assert LastAt(keys[..n], i);
      FromGroupsValues(keys[..n], groups, i);
    }
  }

  /** The `reduce` without a match: the default key gets the whole text,
      every other key the empty string. */
  function WithDefault(keys: seq<string>, defaultKey: string, text: string): (record: map<string, Option<string>>)
    ensures record.Keys == set k | k in keys
    ensures forall k :: k in record ==> record[k] == Some(if k == defaultKey then text else "")
    decreases |keys|
  {
    if keys == [] then map[]
    else
      var n := |keys| - 1;
      var prev := WithDefault(keys[..n], defaultKey, text);
      assert forall k :: k in keys <==> k in keys[..n] || k == keys[n];
      prev[keys[n] := Some(if keys[n] == defaultKey then text else "")]
  }

  /** `OutputParserException(message, output)` */
  datatype OutputParserException = OutputParserException(message: string, output: string)

  /** `parse(text)` */
  function Parse(p: RegexParser, matcher: Matcher, text: string): (r: Result<map<string, Option<string>>, OutputParserException>)
    ensures r.Err? <==> matcher(p.regex, text).None? && p.defaultOutputKey.None?
    ensures r.Err? ==> r.error == OutputParserException("Could not parse output: " + text, text)
    ensures r.Ok? ==> r.value.Keys == set k | k in p.outputKeys
    ensures r.Ok? && matcher(p.regex, text).Some? ==> r.value == FromGroups(p.outputKeys, matcher(p.regex, text).value)
    ensures r.Ok? && matcher(p.regex, text).None? ==>
      forall k :: k in r.value ==> r.value[k] == Some(if k == p.defaultOutputKey.value then text else "")
  {
    match matcher(p.regex, text)
    case Some(groups) => Ok(FromGroups(p.outputKeys, groups))
    case None =>
      if p.defaultOutputKey.None? then Err(OutputParserException("Could not parse output: " + text, text))
      else Ok(WithDefault(p.outputKeys, p.defaultOutputKey.value, text))
  }

  /** After a match, the result holds exactly the output keys, and key `i`
      holds capture group `i + 1`; with distinct output keys that is every
      key. */
  lemma DistinctKeysTakeTheirGroups(p: RegexParser, matcher: Matcher, text: string, i: nat)
    requires forall a, b :: 0 <= a < b < |p.outputKeys| ==> p.outputKeys[a] != p.outputKeys[b]
    requires matcher(p.regex, text).Some?
    requires i < |p.outputKeys|
    ensures Parse(p, matcher, text).Ok?
    ensures Parse(p, matcher, text).value.Keys == set k | k in p.outputKeys
    ensures Parse(p, matcher, text).value[p.outputKeys[i]] == GroupAt(matcher(p.regex, text).value, i + 1)
  {
    assert LastAt(p.outputKeys, i);
    FromGroupsValues(p.outputKeys, matcher(p.regex, text).value, i);
  }
}
