/** JSON values as JavaScript holds them, with the two operations the core
    applies to them: property access `v[key]` and `JSON.stringify`. */
module Json {
  import opened Wrappers
  import opened Strings

  /** A JSON value. Numbers are integers here; an object keeps its members
      in the order `Object.keys` enumerates them. */
  datatype Json =
    | JNull
    | JBool(b: bool)
    | JNumber(n: int)
    | JString(s: string)
    | JArray(items: seq<Json>)
    | JObject(members: seq<Member>)

  datatype Member = Member(key: string, value: Json)

  /** `Object.keys(o)` */
  function Keys(members: seq<Member>): (ks: seq<string>)
    ensures |ks| == |members|
    ensures forall i :: 0 <= i < |members| ==> ks[i] == members[i].key
  {
    if members == [] then [] else [members[0].key] + Keys(members[1..])
  }

  /** `o[key]` on an object: the value of the member named `key`, or
      `undefined` (None) when there is none. */
  function Get(members: seq<Member>, key: string): (r: Option<Json>)
    ensures r.Some? <==> key in Keys(members)
    ensures r.Some? ==> Member(key, r.value) in members
  {
    if members == [] then None
    else if members[0].key == key then Some(members[0].value)
    else
      assert Keys(members) == [members[0].key] + Keys(members[1..]);
      Get(members[1..], key)
  }

  lemma GetCons(m: Member, rest: seq<Member>, key: string)
    ensures Get([m] + rest, key) == if m.key == key then Some(m.value) else Get(rest, key)
  {
    assert ([m] + rest)[1..] == rest;
  }

  /** `o[key] = value` on an object: an existing member keeps its place and
      takes the new value; otherwise the member is added at the end. */
  function Put(members: seq<Member>, key: string, value: Json): (r: seq<Member>)
    ensures Get(r, key) == Some(value)
    ensures forall k :: k != key ==> Get(r, k) == Get(members, k)
  {
    if members == [] then [Member(key, value)]
    else
      var m := members[0];
      var rest := members[1..];
      assert members == [m] + rest;
      var r := if m.key == key then [Member(key, value)] + rest else [m] + Put(rest, key, value);
      GetCons(r[0], r[1..], key);
      forall k | k != key
        ensures Get(r, k) == Get(members, k)
      {
        GetCons(r[0], r[1..], k);
        GetCons(m, rest, k);
      }
      r
  }

  /** Assignment keeps the key order: an existing key stays where it was, a
      new key goes last. */
  lemma {:induction false} PutKeys(members: seq<Member>, key: string, value: Json)
    ensures Keys(Put(members, key, value))
            == if key in Keys(members) then Keys(members) else Keys(members) + [key]
    decreases |members|
  {
    if members != [] {
      var m := members[0];
      var rest := members[1..];
      assert Keys(members) == [m.key] + Keys(rest);
      if m.key == key {
        assert Put(members, key, value) == [Member(key, value)] + rest;
        KeysCons(Member(key, value), rest);
      } else {
        var tail := Put(rest, key, value);
        assert Put(members, key, value) == [m] + tail;
        KeysCons(m, tail);
        PutKeys(rest, key, value);
        assert key in Keys(members) <==> key in Keys(rest);
      }
    }
  }

  lemma KeysCons(m: Member, rest: seq<Member>)
    ensures Keys([m] + rest) == [m.key] + Keys(rest)
  {
    assert ([m] + rest)[1..] == rest;
  }

  /** The canonical decimal form of an array index: digits, and no leading
      zero except in "0" itself. */
  predicate IsArrayIndex(token: string) {
    |token| >= 1 && AllDigits(token) && (token[0] != '0' || |token| == 1)
  }

  /** `v[token]` on an object or an array; `undefined` (None) on anything
      else and on a missing member or index. */
  function Child(v: Json, token: string): Option<Json> {
    match v
    case JObject(members) => Get(members, token)
    case JArray(items) =>
      if IsArrayIndex(token) && DigitsValue(token) < |items|
      then Some(items[DigitsValue(token)]) else None
    case _ => None
  }

  /** An array element is reached by its printed index. */
  lemma ArrayChildAtIndex(items: seq<Json>, i: nat)
    requires i < |items|
    ensures Child(JArray(items), NatToString(i)) == Some(items[i])
  {
    DigitsValueOfNatToString(i);
  }

  /** Four lower-case hexadecimal digits of a code unit below 0x10000. */
  function Hex4(n: nat): (r: string)
    requires n < 0x1_0000
    ensures |r| == 4
  {
    var digits := "0123456789abcdef";
    [digits[n / 0x1000], digits[(n / 0x100) % 16], digits[(n / 16) % 16], digits[n % 16]]
  }

  /** The escape `JSON.stringify` writes for one character of a string. */
  function EscapeChar(c: char): (r: string)
    ensures |r| >= 1
  {
    if c == '"' then "\\\""
    else if c == '\\' then "\\\\"
    else if c == '\U{8}' then "\\b"
    else if c == '\t' then "\\t"
    else if c == '\n' then "\\n"
    else if c == '\U{C}' then "\\f"
    else if c == '\r' then "\\r"
    else if (c as int) < 0x20 then "\\u" + Hex4(c as int)
    else [c]
  }

  function EscapeString(s: string): string {
    if s == [] then "" else EscapeChar(s[0]) + EscapeString(s[1..])
  }

  /** A string literal as `JSON.stringify` writes it. */
  function Quote(s: string): (r: string)
    ensures |r| >= 2 && r[0] == '"' && r[|r| - 1] == '"'
  {
    "\"" + EscapeString(s) + "\""
  }

  /** `JSON.stringify(v)` without indentation. */
  function Stringify(v: Json): (r: string)
    ensures |r| >= 1
    ensures v.JObject? ==> |r| >= 2 && r[0] == '{' && r[|r| - 1] == '}'
    ensures v.JArray? ==> |r| >= 2 && r[0] == '[' && r[|r| - 1] == ']'
    decreases v
  {
    match v
    case JNull => "null"
    case JBool(b) => if b then "true" else "false"
    case JNumber(n) => IntToString(n)
    case JString(s) => Quote(s)
    case JArray(items) =>
      "[" + Join(seq(|items|, i requires 0 <= i < |items| => Stringify(items[i])), ",") + "]"
    case JObject(members) =>
      "{" + Join(seq(|members|, i requires 0 <= i < |members| =>
                       assert members[i] < v;
                       Quote(members[i].key) + ":" + Stringify(members[i].value)), ",") + "}"
  }
}
