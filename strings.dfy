/** The JavaScript string operations the core relies on (`indexOf`,
    `includes`, `split`, `join`, `replaceAll`, `trim`, number printing),
    written over Dafny's `string` (a sequence of characters). */
module Strings {
  import opened Wrappers

  /** `pat` occurs in `s` starting at index `i`. */
  predicate OccursAt(s: string, pat: string, i: int) {
    0 <= i && i + |pat| <= |s| && s[i..i + |pat|] == pat
  }

  /** `s.indexOf(pat, from)`: the first occurrence at or after `from`. */
  function IndexOf(s: string, pat: string, from: nat := 0): (r: Option<nat>)
    ensures r.Some? ==> from <= r.value && OccursAt(s, pat, r.value)
    ensures r.Some? ==> forall j :: from <= j < r.value ==> !OccursAt(s, pat, j)
    ensures r.None? ==> forall j :: from <= j ==> !OccursAt(s, pat, j)
    decreases |s| - from
  {
    if from + |pat| > |s| then None
    else if s[from..from + |pat|] == pat then Some(from)
    else
      assert |pat| > 0;
      IndexOf(s, pat, from + 1)
  }

  /** `s.includes(pat)` */
  predicate Contains(s: string, pat: string)
    ensures Contains(s, pat) <==> exists j :: OccursAt(s, pat, j)
  {
    IndexOf(s, pat).Some?
  }

  lemma ContainsChar(s: string, c: char)
    ensures Contains(s, [c]) <==> c in s
  {
    if c in s {
      var j :| 0 <= j < |s| && s[j] == c;
      assert OccursAt(s, [c], j);
    }
    if Contains(s, [c]) {
      var j :| OccursAt(s, [c], j);
      assert s[j..j + 1][0] == s[j];
    }
  }

  /** `parts.join(sep)` */
  function Join(parts: seq<string>, sep: string): string {
    if |parts| == 0 then ""
    else if |parts| == 1 then parts[0]
    else parts[0] + sep + Join(parts[1..], sep)
  }

  lemma {:induction false} JoinAppend(parts: seq<string>, last: string, sep: string)
    requires |parts| >= 1
    ensures Join(parts + [last], sep) == Join(parts, sep) + sep + last
    decreases |parts|
  {
    if |parts| > 1 {
      assert (parts + [last])[1..] == parts[1..] + [last];
      JoinAppend(parts[1..], last, sep);
    }
  }

  /** `s.split(sep)` for a non-empty separator: the pieces between the
      occurrences of `sep`, found left to right without overlapping. */
  function Split(s: string, sep: string): (parts: seq<string>)
    requires sep != []
    ensures |parts| >= 1
    decreases |s|
  {
    match IndexOf(s, sep)
    case None => [s]
    case Some(i) => [s[..i]] + Split(s[i + |sep|..], sep)
  }

  /** One step of `Split`: the piece before the first occurrence, then the
      split of the rest. */
  lemma SplitStep(s: string, sep: string, i: nat)
    requires sep != [] && IndexOf(s, sep) == Some(i)
    ensures i + |sep| <= |s|
    ensures Split(s, sep) == [s[..i]] + Split(s[i + |sep|..], sep)
    ensures s == s[..i] + sep + s[i + |sep|..]
  {
    assert OccursAt(s, sep, i);
    assert s == s[..i] + s[i..i + |sep|] + s[i + |sep|..];
  }

  /** Joining the pieces again with the separator gives back the string. */
  lemma {:induction false} JoinSplit(s: string, sep: string)
    requires sep != []
    ensures Join(Split(s, sep), sep) == s
    decreases |s|
  {
    var r := IndexOf(s, sep);
    if r.Some? {
      var i := r.value;
      var rest := s[i + |sep|..];
      SplitStep(s, sep, i);
      JoinSplit(rest, sep);
      var tail := Split(rest, sep);
      var parts := [s[..i]] + tail;
      assert parts[1..] == tail;
      assert Join(parts, sep) == s[..i] + sep + Join(tail, sep);
    }
  }

  /** No piece of a split contains the separator. */
  lemma {:induction false} SplitPiecesLackSeparator(s: string, sep: string)
    requires sep != []
    ensures forall k :: 0 <= k < |Split(s, sep)| ==> !Contains(Split(s, sep)[k], sep)
    decreases |s|
  {
    var r := IndexOf(s, sep);
    if r.Some? {
      var i := r.value;
      var rest := s[i + |sep|..];
      SplitStep(s, sep, i);
      SplitPiecesLackSeparator(rest, sep);
      PrefixBeforeFirstLacks(s, sep, i);
    }
  }

  /** The text before the first occurrence of `sep` does not contain it. */
  lemma PrefixBeforeFirstLacks(s: string, sep: string, i: nat)
    requires sep != [] && i <= |s|
    requires forall j :: 0 <= j < i ==> !OccursAt(s, sep, j)
    ensures !Contains(s[..i], sep)
  {
    if Contains(s[..i], sep) {
      var j :| OccursAt(s[..i], sep, j);
      assert s[..i][j..j + |sep|] == s[j..j + |sep|];
      assert OccursAt(s, sep, j);
    }
  }

  /** The first piece of a split (`s.split(sep)[0]`) is the text before
      the first occurrence of `sep`, or all of `s` when there is none. */
  lemma SplitFirst(s: string, sep: string)
    requires sep != []
    ensures var first := Split(s, sep)[0];
      && first <= s
      && !Contains(first, sep)
      && (forall j :: 0 <= j < |first| ==> !OccursAt(s, sep, j))
      && (Contains(s, sep) ==> OccursAt(s, sep, |first|))
      && (!Contains(s, sep) ==> first == s)
  {
    var r := IndexOf(s, sep);
    if r.Some? {
      SplitStep(s, sep, r.value);
      PrefixBeforeFirstLacks(s, sep, r.value);
    }
  }

  /** What occurs in a prefix occurs in the whole string. */
  lemma OccursInExtension(t: string, s: string, pat: string, j: int)
    requires t <= s && OccursAt(t, pat, j)
    ensures OccursAt(s, pat, j)
  {
    assert s[j..j + |pat|] == t[j..j + |pat|];
  }

  /** Within a prefix, the prefix and the whole string agree on where
      `pat` occurs. */
  lemma OccursWithin(t: string, s: string, pat: string, j: int)
    requires t <= s && 0 <= j && j + |pat| <= |t|
    ensures OccursAt(s, pat, j) <==> OccursAt(t, pat, j)
  {
    assert s[j..j + |pat|] == t[j..j + |pat|];
  }

  /** A prefix of a string without `pat` has no `pat` either. */
  lemma PrefixLacks(t: string, s: string, pat: string)
    requires t <= s && !Contains(s, pat)
    ensures !Contains(t, pat)
  {
    if Contains(t, pat) {
      var j :| OccursAt(t, pat, j);
      OccursInExtension(t, s, pat, j);
    }
  }

  /** The last piece of a split (`s.split(sep).pop()`) is the text after
      the final separator split off: `s` is the earlier pieces, then `sep`,
      then the last piece, which contains no `sep`. With no occurrence of
      `sep`, the only piece is `s` itself. */
  lemma SplitLast(s: string, sep: string)
    requires sep != []
    ensures var parts := Split(s, sep); var last := parts[|parts| - 1];
      && !Contains(last, sep)
      && (|parts| == 1 <==> !Contains(s, sep))
      && (|parts| == 1 ==> last == s)
      && (|parts| > 1 ==> s == Join(parts[..|parts| - 1], sep) + sep + last)
  {
    SplitPiecesLackSeparator(s, sep);
    SplitSingle(s, sep);
    if |Split(s, sep)| > 1 {
      SplitLastJoin(s, sep);
    }
  }

  lemma SplitLastJoin(s: string, sep: string)
    requires sep != [] && |Split(s, sep)| > 1
    ensures var parts := Split(s, sep);
      s == Join(parts[..|parts| - 1], sep) + sep + parts[|parts| - 1]
  {
    JoinSplit(s, sep);
    JoinLast(Split(s, sep), sep);
  }

  /** A join of several pieces ends with the separator and the last piece. */
  lemma JoinLast(parts: seq<string>, sep: string)
    requires |parts| > 1
    ensures var n := |parts|;
      Join(parts, sep) == Join(parts[..n - 1], sep) + sep + parts[n - 1]
  {
    var n := |parts|;
    assert parts[..n - 1] + [parts[n - 1]] == parts;
    JoinAppend(parts[..n - 1], parts[n - 1], sep);
  }

  /** A split has a single piece, the string itself, exactly when the
      separator does not occur. */
  lemma SplitSingle(s: string, sep: string)
    requires sep != []
    ensures |Split(s, sep)| == 1 <==> !Contains(s, sep)
    ensures !Contains(s, sep) ==> Split(s, sep) == [s]
  {
    var r := IndexOf(s, sep);
    if r.Some? {
      SplitStep(s, sep, r.value);
    }
  }

  /** Splitting at a one-character separator undoes joining with it, as long
      as no piece contains that character. */
  lemma {:induction false} SplitJoinChar(parts: seq<string>, c: char)
    requires |parts| >= 1
    requires forall k :: 0 <= k < |parts| ==> c !in parts[k]
    ensures Split(Join(parts, [c]), [c]) == parts
    decreases |parts|
  {
    var s := Join(parts, [c]);
    var p := parts[0];
    ContainsChar(p, c);
    if |parts| == 1 {
      assert !Contains(s, [c]);
    } else {
      var rest := Join(parts[1..], [c]);
      assert s == p + [c] + rest;
      assert OccursAt(s, [c], |p|);
      forall j | 0 <= j < |p|
        ensures !OccursAt(s, [c], j)
      {
        assert s[j..j + 1] == [p[j]];
      }
      assert IndexOf(s, [c]) == Some(|p|);
      assert s[..|p|] == p;
      assert s[|p| + 1..] == rest;
      SplitJoinChar(parts[1..], c);
    }
  }

  /** Appending one more piece after a one-character separator appends one
      more piece to the split. */
  lemma SplitAppendChar(s: string, c: char, last: string)
    requires c !in last
    ensures Split(s + [c] + last, [c]) == Split(s, [c]) + [last]
  {
    var parts := Split(s, [c]);
    JoinSplit(s, [c]);
    SplitPiecesLackSeparator(s, [c]);
    forall k | 0 <= k < |parts|
      ensures c !in parts[k]
    {
      ContainsChar(parts[k], c);
    }
    JoinAppend(parts, last, [c]);
    SplitJoinChar(parts + [last], c);
  }

  /** `s.replaceAll(pat, rep)` for a non-empty string pattern: occurrences
      are replaced left to right, without overlapping. */
  function ReplaceAll(s: string, pat: string, rep: string): string
    requires pat != []
    decreases |s|
  {
    if |s| < |pat| then s
    else if s[..|pat|] == pat then rep + ReplaceAll(s[|pat|..], pat, rep)
    else [s[0]] + ReplaceAll(s[1..], pat, rep)
  }

  /** A leading character that cannot start the pattern is kept as it is. */
  lemma ReplaceAllSkip(c: char, s: string, pat: string, rep: string)
    requires pat != [] && pat[0] != c
    ensures ReplaceAll([c] + s, pat, rep) == [c] + ReplaceAll(s, pat, rep)
  {
    var t := [c] + s;
    assert t[1..] == s;
    if |t| >= |pat| {
      assert t[..|pat|][0] == c;
    }
  }

  /** A string that starts with the pattern has that occurrence replaced. */
  lemma ReplaceAllHit(s: string, pat: string, rep: string)
    requires pat != []
    ensures ReplaceAll(pat + s, pat, rep) == rep + ReplaceAll(s, pat, rep)
  {
    var t := pat + s;
    assert t[..|pat|] == pat;
    assert t[|pat|..] == s;
  }

  /** The characters `String.prototype.trim` removes: ECMAScript's
      WhiteSpace and LineTerminator code points. */
  predicate IsWhitespace(c: char) {
    c in Whitespace
  }

  const Whitespace: set<char> := {
    ' ', '\t', '\n', '\r', '\U{B}', '\U{C}', '\U{A0}', '\U{FEFF}', '\U{1680}',
    '\U{2000}', '\U{2001}', '\U{2002}', '\U{2003}', '\U{2004}', '\U{2005}',
    '\U{2006}', '\U{2007}', '\U{2008}', '\U{2009}', '\U{200A}',
    '\U{2028}', '\U{2029}', '\U{202F}', '\U{205F}', '\U{3000}'
  }

  predicate AllWhitespace(s: string) {
    forall i :: 0 <= i < |s| ==> IsWhitespace(s[i])
  }

  /** Neither end of `s` is whitespace. */
  predicate IsTrimmed(s: string) {
    s == [] || (!IsWhitespace(s[0]) && !IsWhitespace(s[|s| - 1]))
  }

  /** How many whitespace characters `s` starts with. */
  function LeadingWhitespace(s: string): (k: nat)
    ensures k <= |s| && AllWhitespace(s[..k])
    ensures k < |s| ==> !IsWhitespace(s[k])
  {
    if s != [] && IsWhitespace(s[0]) then
      var k := 1 + LeadingWhitespace(s[1..]);
      assert s[..k] == [s[0]] + s[1..][..k - 1];
      k
    else 0
  }

  /** How many whitespace characters `s` ends with. */
  function TrailingWhitespace(s: string): (k: nat)
    ensures k <= |s| && AllWhitespace(s[|s| - k..])
    ensures k < |s| ==> !IsWhitespace(s[|s| - k - 1])
  {
    if s != [] && IsWhitespace(s[|s| - 1]) then
      var k := 1 + TrailingWhitespace(s[..|s| - 1]);
      assert s[|s| - k..] == s[..|s| - 1][|s| - k..] + [s[|s| - 1]];
      k
    else 0
  }

  /** `s.trimStart()`: `s` after its leading whitespace. */
  function TrimStart(s: string): (r: string)
    ensures r == [] || !IsWhitespace(r[0])
  {
    s[LeadingWhitespace(s)..]
  }

  /** `s.trimEnd()`: `s` before its trailing whitespace. */
  function TrimEnd(s: string): (r: string)
    ensures r == [] || !IsWhitespace(r[|r| - 1])
  {
    s[..|s| - TrailingWhitespace(s)]
  }

  /** `s.trim()`: the text of `s` without its leading and trailing
      whitespace (`TrimOccurs` and `TrimSurroundings` place it in `s`). */
  function Trim(s: string): (r: string)
    ensures IsTrimmed(r)
    ensures IsTrimmed(s) ==> r == s
  {
    TrimmedEnds(TrimStart(s), TrimEnd(TrimStart(s)));
    TrimmedUnchanged(s);
    TrimEnd(TrimStart(s))
  }

  lemma TrimmedEnds(t: string, r: string)
    requires t == [] || !IsWhitespace(t[0])
    requires |r| <= |t| && r == t[..|r|]
    requires r == [] || !IsWhitespace(r[|r| - 1])
    ensures IsTrimmed(r)
  {
    if r != [] {
      assert r[0] == t[0];
    }
  }

  lemma TrimmedUnchanged(s: string)
    ensures IsTrimmed(s) ==> TrimStart(s) == s && TrimEnd(s) == s
  {
    if IsTrimmed(s) && s != [] {
      assert LeadingWhitespace(s) == 0;
      assert TrailingWhitespace(s) == 0;
    }
  }

  /** The trimmed text starts where the leading whitespace ends. */
  lemma TrimOccurs(s: string)
    ensures OccursAt(s, Trim(s), LeadingWhitespace(s))
  {
    var lo := LeadingWhitespace(s);
    var t := s[lo..];
    var r := t[..|t| - TrailingWhitespace(t)];
    assert s[lo..lo + |r|] == r;
  }

  /** Only whitespace surrounds the trimmed text. */
  lemma TrimSurroundings(s: string)
    ensures var lo := LeadingWhitespace(s);
      AllWhitespace(s[..lo]) && AllWhitespace(s[lo + |Trim(s)|..])
  {
    var lo := LeadingWhitespace(s);
    var t := s[lo..];
    var b := TrailingWhitespace(t);
    assert s[lo + |t| - b..] == t[|t| - b..];
  }

  predicate IsDigit(c: char) {
    '0' <= c <= '9'
  }

  predicate AllDigits(s: string) {
    forall i :: 0 <= i < |s| ==> IsDigit(s[i])
  }

  function DigitChar(d: nat): (c: char)
    requires d < 10
    ensures IsDigit(c) && (c as int) - ('0' as int) == d
  {
    ((('0' as int) + d) as char)
  }

  /** The decimal numeral of `n`, as `n.toString()` prints it. */
  function NatToString(n: nat): (r: string)
    ensures |r| >= 1 && AllDigits(r)
    ensures r[0] == '0' ==> n == 0
    decreases n
  {
    if n < 10 then [DigitChar(n)]
    else
      var r := NatToString(n / 10) + [DigitChar(n % 10)];
      assert r[0] == NatToString(n / 10)[0];
      r
  }

  /** The number a string of decimal digits denotes. */
  function DigitsValue(s: string): nat
    requires AllDigits(s)
  {
    if s == [] then 0
    else DigitsValue(s[..|s| - 1]) * 10 + ((s[|s| - 1] as int) - ('0' as int))
  }

  /** Reading back a printed number gives the number. */
  lemma {:induction false} DigitsValueOfNatToString(n: nat)
    ensures DigitsValue(NatToString(n)) == n
    decreases n
  {
    if n >= 10 {
      DigitsValueOfNatToString(n / 10);
      var r := NatToString(n);
      assert r[..|r| - 1] == NatToString(n / 10);
    }
  }

  /** `i.toString()` for an integer. */
  function IntToString(i: int): (r: string)
    ensures |r| >= 1
    ensures (i < 0) <==> r[0] == '-'
  {
    if i < 0 then "-" + NatToString(-i) else NatToString(i)
  }
}
