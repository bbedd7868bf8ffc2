/** The JSON inspection tools (`langchain/src/tools/json.ts`): `JsonSpec`
    with `getKeys` and `getValue`, and the two tool wrappers that turn every
    error into text. JSON pointers follow RFC 6901. */
module JsonTools {
  import opened Wrappers
  import opened Strings
  import opened Json

  // ---------------------------------------------------------------------
  // Escaping of keys (RFC 6901, sections 3 and 4)

  /** How `getKeys` writes a key: every `~` becomes `~0`, then every `/`
      becomes `~1`. */
  function EscapeKey(key: string): (r: string)
    ensures r == EscapeChars(key)
    ensures '/' !in r
  {
    EscapeKeyEscapesEachChar(key);
    EscapeCharsLacksSlash(key);
    ReplaceAll(ReplaceAll(key, "~", "~0"), "/", "~1")
  }

  /** The decoding of a reference token in RFC 6901 section 4: first `~1`
      becomes `/`, then `~0` becomes `~`. */
  function UnescapeToken(token: string): string {
    ReplaceAll(ReplaceAll(token, "~1", "/"), "~0", "~")
  }

  function EscapeOne(c: char): string {
    if c == '~' then "~0" else if c == '/' then "~1" else [c]
  }

  /** Reference definition: each character escaped on its own, as the
      grammar of RFC 6901 section 3 reads. */
  function EscapeChars(key: string): string {
    if key == [] then "" else EscapeOne(key[0]) + EscapeChars(key[1..])
  }

  /** The two `replaceAll` passes, in this order, escape each character on
      its own: no `~0` written by the first pass is touched by the second. */
  lemma {:induction false} EscapeKeyEscapesEachChar(key: string)
    ensures ReplaceAll(ReplaceAll(key, "~", "~0"), "/", "~1") == EscapeChars(key)
    decreases |key|
  {
    if key != [] {
      var h, t := key[0], key[1..];
      assert key == [h] + t;
      var tildes := ReplaceAll(t, "~", "~0");
      EscapeKeyEscapesEachChar(t);
      if h == '~' {
        ReplaceAllHit(t, "~", "~0");
        assert "~0" + tildes == ['~'] + (['0'] + tildes);
        ReplaceAllSkip('~', ['0'] + tildes, "/", "~1");
        ReplaceAllSkip('0', tildes, "/", "~1");
      } else if h == '/' {
        ReplaceAllSkip('/', t, "~", "~0");
        ReplaceAllHit(tildes, "/", "~1");
      } else {
        ReplaceAllSkip(h, t, "~", "~0");
        ReplaceAllSkip(h, tildes, "/", "~1");
      }
    }
  }

  /** What the first decoding pass leaves: only the `~0` escapes. */
  function TildesEscaped(key: string): string {
    if key == [] then "" else (if key[0] == '~' then "~0" else [key[0]]) + TildesEscaped(key[1..])
  }

  lemma {:induction false} FirstDecodingPass(key: string)
    ensures ReplaceAll(EscapeChars(key), "~1", "/") == TildesEscaped(key)
    decreases |key|
  {
    if key != [] {
      var h, t := key[0], key[1..];
      var e := EscapeChars(t);
      FirstDecodingPass(t);
      if h == '~' {
        var s := "~0" + e;
        assert s[..2] != "~1" && s[1..] == ['0'] + e;
        ReplaceAllSkip('0', e, "~1", "/");
      } else if h == '/' {
        ReplaceAllHit(e, "~1", "/");
      } else {
        ReplaceAllSkip(h, e, "~1", "/");
      }
    }
  }

  lemma {:induction false} SecondDecodingPass(key: string)
    ensures ReplaceAll(TildesEscaped(key), "~0", "~") == key
    decreases |key|
  {
    if key != [] {
      var h, t := key[0], key[1..];
      var e := TildesEscaped(t);
      SecondDecodingPass(t);
      assert key == [h] + t;
      if h == '~' {
        assert TildesEscaped(key) == "~0" + e;
        ReplaceAllHit(e, "~0", "~");
      } else {
        assert TildesEscaped(key) == [h] + e;
        ReplaceAllSkip(h, e, "~0", "~");
      }
    }
  }

  /** Decoding an escaped key gives back the key. */
  lemma UnescapeEscapeKey(key: string)
    ensures UnescapeToken(EscapeKey(key)) == key
  {
    EscapeKeyEscapesEachChar(key);
    FirstDecodingPass(key);
    SecondDecodingPass(key);
  }

  /** Distinct keys are listed as distinct escaped keys. */
  lemma EscapeKeyInjective(a: string, b: string)
    requires EscapeKey(a) == EscapeKey(b)
    ensures a == b
  {
    UnescapeEscapeKey(a);
    UnescapeEscapeKey(b);
  }

  lemma {:induction false} EscapeCharsLacksSlash(key: string)
    ensures '/' !in EscapeChars(key)
    decreases |key|
  {
    if key != [] {
      EscapeCharsLacksSlash(key[1..]);
    }
  }

  /** An escaped key contains no `/`, so it is read back as a single
      reference token. */
  lemma EscapeKeyLacksSlash(key: string)
    ensures '/' !in EscapeKey(key)
  {
    EscapeKeyEscapesEachChar(key);
    EscapeCharsLacksSlash(key);
  }

  // ---------------------------------------------------------------------
  // Pointers

  const InvalidPointerMessage := "Invalid JSON pointer."

  function DecodeTokens(raw: seq<string>): (tokens: seq<string>)
    ensures |tokens| == |raw|
    ensures forall i :: 0 <= i < |raw| ==> tokens[i] == UnescapeToken(raw[i])
  {
    seq(|raw|, i requires 0 <= i < |raw| => UnescapeToken(raw[i]))
  }

  /** A pointer read as its reference tokens: the empty pointer names the
      whole document; any other pointer starts with `/`, and the text after
      each `/` is one decoded token. */
  function ParsePointer(pointer: string): (r: Result<seq<string>, string>)
    ensures r.Err? <==> pointer != "" && pointer[0] != '/'
    ensures r.Err? ==> r.error == InvalidPointerMessage
    ensures r.Ok? && pointer != "" ==> |r.value| == |Split(pointer[1..], "/")|
  {
    if pointer == "" then Ok([])
    else if pointer[0] != '/' then Err(InvalidPointerMessage)
    else Ok(DecodeTokens(Split(pointer[1..], "/")))
  }

  /** Appending `/` and an escaped key to a pointer appends that key, as
      one token, to the pointer's tokens. */
  lemma ParseAppendedKey(pointer: string, key: string)
    requires ParsePointer(pointer).Ok?
    ensures ParsePointer(pointer + "/" + EscapeKey(key)) == Ok(ParsePointer(pointer).value + [key])
  {
    var e := EscapeKey(key);
    var p := pointer + "/" + e;
    EscapeKeyLacksSlash(key);
    UnescapeEscapeKey(key);
    if pointer == "" {
      assert p[0] == '/' && p[1..] == e;
      SplitWithoutSlash(e);
      var tokens := DecodeTokens([e]);
      assert tokens[0] == key;
      assert ParsePointer(p) == Ok(tokens);
      assert tokens == ParsePointer(pointer).value + [key];
    } else {
      assert p[1..] == pointer[1..] + ['/'] + e;
      SplitAppendChar(pointer[1..], '/', e);
      var raw := Split(pointer[1..], "/");
      assert DecodeTokens(raw + [e]) == DecodeTokens(raw) + [key];
    }
  }

  lemma SplitWithoutSlash(s: string)
    requires '/' !in s
    ensures Split(s, "/") == [s]
  {
    ContainsChar(s, '/');
  }

  /** Following the tokens one property access at a time; `undefined`
      (None) as soon as a step finds nothing. */
  function Resolve(v: Json, tokens: seq<string>): Option<Json>
    decreases |tokens|
  {
    if tokens == [] then Some(v)
    else match Child(v, tokens[0])
      case None => None
      case Some(c) => Resolve(c, tokens[1..])
  }

  lemma {:induction false} ResolveAppend(v: Json, tokens: seq<string>, token: string)
    ensures Resolve(v, tokens + [token])
            == match Resolve(v, tokens) case None => None case Some(c) => Child(c, token)
    decreases |tokens|
  {
    if tokens != [] {
      assert (tokens + [token])[1..] == tokens[1..] + [token];
      match Child(v, tokens[0])
      case None =>
      case Some(c) => ResolveAppend(c, tokens[1..], token);
    }
  }

  // ---------------------------------------------------------------------
  // JsonSpec

  /** A JSON document (an object) and the length above which values are
      shortened. */
  datatype JsonSpec = JsonSpec(obj: seq<Member>, maxValueLength: int)

  /** `new JsonSpec(obj, max_value_length = 4000)` */
  function NewJsonSpec(obj: seq<Member>, maxValueLength: int := 4000): (spec: JsonSpec)
    ensures spec.obj == obj && spec.maxValueLength == maxValueLength
  {
    JsonSpec(obj, maxValueLength)
  }

  /** The value the pointer `input` designates, or the pointer's error. */
  function Lookup(spec: JsonSpec, input: string): (r: Result<Option<Json>, string>)
    ensures r.Err? <==> input != "" && input[0] != '/'
    ensures r.Err? ==> r.error == InvalidPointerMessage
    ensures input == "" ==> r == Ok(Some(JObject(spec.obj)))
    ensures r.Ok? ==> r.value == Resolve(JObject(spec.obj), ParsePointer(input).value)
  {
    match ParsePointer(input)
    case Err(e) => Err(e)
    case Ok(tokens) => Ok(Resolve(JObject(spec.obj), tokens))
  }

  function EscapedKeys(members: seq<Member>): (keys: seq<string>)
    ensures |keys| == |members|
    ensures forall i :: 0 <= i < |members| ==> keys[i] == EscapeKey(members[i].key)
  {
    seq(|members|, i requires 0 <= i < |members| => EscapeKey(members[i].key))
  }

  function NotDictionaryMessage(input: string): string {
    "Value at " + input + " is not a dictionary, get the value directly instead."
  }

  /** `getKeys`: the escaped keys of the object at `input`, in order, joined
      by ", "; any other value is an error. */
  function GetKeys(spec: JsonSpec, input: string): (r: Result<string, string>)
    ensures r.Ok? <==> Lookup(spec, input).Ok? && Lookup(spec, input).value.Some?
                       && Lookup(spec, input).value.value.JObject?
    ensures r.Ok? ==> r.value == Join(EscapedKeys(Lookup(spec, input).value.value.members), ", ")
    ensures Lookup(spec, input).Err? ==> r == Err(InvalidPointerMessage)
    ensures Lookup(spec, input).Ok? && !r.Ok? ==> r == Err(NotDictionaryMessage(input))
  {
    match Lookup(spec, input)
    case Err(e) => Err(e)
    case Ok(found) =>
      if found.Some? && found.value.JObject?
      then Ok(Join(EscapedKeys(found.value.members), ", "))
      else Err(NotDictionaryMessage(input))
  }

  /** Each listed key, decoded, is the object's key in the same position, so
      the listing has one entry per key, in key order. */
  lemma ListedKeysDecode(members: seq<Member>)
    ensures |EscapedKeys(members)| == |members|
    ensures forall i :: 0 <= i < |members| ==> UnescapeToken(EscapedKeys(members)[i]) == members[i].key
  {
    forall i | 0 <= i < |members|
      ensures UnescapeToken(EscapedKeys(members)[i]) == members[i].key
    {
      UnescapeEscapeKey(members[i].key);
    }
  }

  /** Appending an escaped key to a pointer takes one more step from the
      value the pointer designates. */
  lemma LookupAppendedKey(spec: JsonSpec, input: string, key: string)
    requires ParsePointer(input).Ok?
    ensures Lookup(spec, input + "/" + EscapeKey(key))
            == Ok(match Lookup(spec, input).value case None => None case Some(c) => Child(c, key))
  {
    ParseAppendedKey(input, key);
    ResolveAppend(JObject(spec.obj), ParsePointer(input).value, key);
  }

  /** A key listed by `getKeys` at `input`, appended to `input`, points at
      that key's value. */
  lemma ListedKeyAddressesMember(spec: JsonSpec, input: string, members: seq<Member>, i: nat)
    requires Lookup(spec, input) == Ok(Some(JObject(members)))
    requires i < |members|
    ensures Get(members, members[i].key).Some?
    ensures Lookup(spec, input + "/" + EscapedKeys(members)[i]) == Ok(Get(members, members[i].key))
  {
    var key := members[i].key;
    assert Keys(members)[i] == key;
    assert EscapedKeys(members)[i] == EscapeKey(key);
    assert Child(JObject(members), key) == Get(members, key);
    LookupAppendedKey(spec, input, key);
  }

  const LargeDictionaryMessage := "Value is a large dictionary, should explore its keys directly."

  function NullOrUndefinedMessage(input: string): string {
    "Value at " + input + " is null or undefined."
  }

  /** `v.toString()` for a primitive value. */
  function PrimitiveText(v: Json): string {
    match v
    case JString(s) => s
    case JNumber(n) => IntToString(n)
    case JBool(b) => if b then "true" else "false"
    case _ => "null"
  }

  /** The text `getValue` starts from: JSON for arrays and objects, the
      value's own text otherwise. */
  function Rendered(v: Json): string {
    if v.JArray? || v.JObject? then Stringify(v) else PrimitiveText(v)
  }

  /** `s.slice(0, end)`: a negative end counts from the back. */
  function SliceTo(s: string, end: int): (r: string)
    ensures r <= s
    ensures 0 <= end <= |s| ==> |r| == end
  {
    if end < 0 then (if |s| + end <= 0 then "" else s[..|s| + end])
    else if end >= |s| then s
    else s[..end]
  }

  /** `getValue`: the text of the value at `input`, shortened when longer
      than `maxValueLength`. */
  function GetValue(spec: JsonSpec, input: string): (r: Result<string, string>)
    ensures Lookup(spec, input).Err? ==> r == Err(InvalidPointerMessage)
    ensures Lookup(spec, input).Ok? ==>
      var found := Lookup(spec, input).value;
      && (r.Err? <==> found.None? || found.value.JNull?)
      && (r.Err? ==> r.error == NullOrUndefinedMessage(input))
      && (r.Ok? ==>
            var str := Rendered(found.value);
            && (|str| <= spec.maxValueLength ==> r.value == str)
            && (|str| > spec.maxValueLength && found.value.JObject? ==> r.value == LargeDictionaryMessage)
            && (|str| > spec.maxValueLength >= 0 && !found.value.JObject? ==>
                  |r.value| == spec.maxValueLength + 3
                  && r.value[..spec.maxValueLength] == str[..spec.maxValueLength]
                  && r.value[spec.maxValueLength..] == "..."))
    ensures r.Ok? && spec.maxValueLength >= 0 ==>
      |r.value| <= spec.maxValueLength + 3 || r.value == LargeDictionaryMessage
  {
    match Lookup(spec, input)
    case Err(e) => Err(e)
    case Ok(found) =>
      if found.None? || found.value.JNull? then Err(NullOrUndefinedMessage(input))
      else
        var v := found.value;
        var str := Rendered(v);
        if v.JObject? && |str| > spec.maxValueLength then Ok(LargeDictionaryMessage)
        else if |str| > spec.maxValueLength then Ok(SliceTo(str, spec.maxValueLength) + "...")
        else Ok(str)
  }

  /** `new JsonSpec(obj)` shortens values longer than 4000 characters. */
  lemma DefaultMaxValueLength(obj: seq<Member>)
    ensures NewJsonSpec(obj).maxValueLength == 4000
  {
  }

  lemma PointerExamples()
    ensures ParsePointer("/a/b") == Ok(["a", "b"])
    ensures ParsePointer("/a") == Ok(["a"])
  {
    SplitAppendChar("a", '/', "b");
    assert "/a/b"[1..] == "a" + ['/'] + "b";
    assert "/a"[1..] == "a";
    SplitWithoutSlash("a");
    assert Split("a/b", "/") == ["a", "b"];
    assert UnescapeToken("a") == "a";
    assert UnescapeToken("b") == "b";
    var ab := DecodeTokens(["a", "b"]);
    assert ab[0] == "a" && ab[1] == "b";
    assert ab == ["a", "b"];
    assert "/a/b" != "" && "/a/b"[0] == '/';
    assert ParsePointer("/a/b") == Ok(ab);
    var a := DecodeTokens(["a"]);
    assert a[0] == "a";
    assert a == ["a"];
    assert "/a" != "" && "/a"[0] == '/';
  }

  /** For `{"a": {"b": "x"}}`, the pointer `/a/b` gives `x`, and with a
      limit of 1 the pointer `/a` gives the large-dictionary advice. */
  lemma GetValueExamples()
    ensures var doc := [Member("a", JObject([Member("b", JString("x"))]))];
      && GetValue(NewJsonSpec(doc), "/a/b") == Ok("x")
      && GetValue(NewJsonSpec(doc, 1), "/a") == Ok(LargeDictionaryMessage)
  {
    var inner := JObject([Member("b", JString("x"))]);
    var doc := [Member("a", inner)];
    PointerExamples();
    assert Resolve(JObject(doc), ["a"]) == Some(inner);
    assert Resolve(JObject(doc), ["a", "b"]) == Some(JString("x"));
    assert |Rendered(inner)| >= 2;
  }

  // ---------------------------------------------------------------------
  // Tool wrappers

  /** `${error}` for an `Error` with this message. */
  function ErrorText(message: string): string {
    "Error: " + message
  }

  /** `JsonListKeysTool._call`: the keys, or the error as text. */
  function ListKeysTool(spec: JsonSpec, input: string): (out: string)
    ensures GetKeys(spec, input).Ok? ==> out == GetKeys(spec, input).value
    ensures GetKeys(spec, input).Err? ==> out == ErrorText(GetKeys(spec, input).error)
  {
    match GetKeys(spec, input)
    case Ok(keys) => keys
    case Err(message) => ErrorText(message)
  }

  /** `JsonGetValueTool._call`: the value's text, or the error as text. */
  function GetValueTool(spec: JsonSpec, input: string): (out: string)
    ensures GetValue(spec, input).Ok? ==> out == GetValue(spec, input).value
    ensures GetValue(spec, input).Err? ==> out == ErrorText(GetValue(spec, input).error)
  {
    match GetValue(spec, input)
    case Ok(text) => text
    case Err(message) => ErrorText(message)
  }

  /** Asking for the keys of something that is not an object reports, as
      text, that it is not a dictionary. */
  lemma ListKeysToolOnNonObject(spec: JsonSpec, input: string)
    requires ParsePointer(input).Ok?
    requires var found := Lookup(spec, input).value; found.None? || !found.value.JObject?
    ensures ListKeysTool(spec, input)
            == "Error: Value at " + input + " is not a dictionary, get the value directly instead."
  {
  }
}
