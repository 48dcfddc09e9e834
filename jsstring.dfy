/** The `String.prototype` operations the connector's parsers use, with the
    JavaScript semantics they rely on: -1 for "not found", clamping and
    swapping in `substring`, empty pieces in `split`, and a `replace` with a
    string pattern that replaces only the first occurrence. */
module JsString {

  /** `s.indexOf(c)`: the first position of `c` in `s`, or -1 when there is none. */
  function IndexOf(s: string, c: char): (i: int)
    ensures -1 <= i < |s|
    ensures i == -1 <==> c !in s
    ensures 0 <= i ==> s[i] == c && c !in s[..i]
  {
    if s == [] then -1
    else if s[0] == c then 0
    else
      var j := IndexOf(s[1..], c);
      if j == -1 then -1
      else
        assert s[..j + 1] == [s[0]] + s[1..][..j];
        j + 1
  }

  /** `s.lastIndexOf(c)`: the last position of `c` in `s`, or -1 when there is none. */
  function LastIndexOf(s: string, c: char): (i: int)
    ensures -1 <= i < |s|
    ensures i == -1 <==> c !in s
    ensures 0 <= i ==> s[i] == c && c !in s[i + 1..]
  {
    if s == [] then -1
    else if s[|s| - 1] == c then |s| - 1
    else
      var i := LastIndexOf(s[..|s| - 1], c);
      assert s == s[..|s| - 1] + [s[|s| - 1]];
      assert 0 <= i ==> s[i + 1..] == s[..|s| - 1][i + 1..] + [s[|s| - 1]];
      i
  }

  /** How `substring` clamps an integer argument into `[0, len]`. */
  function Clamp(n: int, len: nat): nat {
    if n < 0 then 0 else if n > len then len else n
  }

  /** `s.substring(start, end)`: both arguments are clamped into `[0, |s|]`
      and, when the first is the larger, the two are swapped. */
  function Substring(s: string, start: int, end: int): (r: string)
    ensures |r| <= |s|
    ensures 0 <= start <= end <= |s| ==> r == s[start..end]
    ensures start < 0 && 0 <= end <= |s| ==> r == s[..end]
  {
    var a, b := Clamp(start, |s|), Clamp(end, |s|);
    if a <= b then s[a..b] else s[b..a]
  }

  /** The rest of `substring`'s clamping: the bounds are swapped when the
      start is the larger, and an end past the text counts as its length. */
  lemma SubstringSwapsBounds(s: string, start: int, end: int)
    ensures 0 <= end <= start <= |s| ==> Substring(s, start, end) == s[end..start]
    ensures 0 <= start <= |s| < end ==> Substring(s, start, end) == s[start..]
  {
  }

  /** `s.split(sep)` for a one-character separator: the pieces between the
      occurrences of `sep`, empty pieces included; never an empty array. */
  function Split(s: string, sep: char): (parts: seq<string>)
    ensures |parts| >= 1
    decreases |s|
  {
    var i := IndexOf(s, sep);
    if i == -1 then [s] else [s[..i]] + Split(s[i + 1..], sep)
  }

  /** `parts.join(sep)`: the inverse of `Split`. */
  function Join(parts: seq<string>, sep: char): string
    requires |parts| >= 1
    decreases |parts|
  {
    if |parts| == 1 then parts[0] else parts[0] + [sep] + Join(parts[1..], sep)
  }

  /** Joining the pieces of a split gives back the original text. */
  lemma {:induction false} JoinSplit(s: string, sep: char)
    ensures Join(Split(s, sep), sep) == s
    decreases |s|
  {
    var i := IndexOf(s, sep);
    if i != -1 {
      var rest := s[i + 1..];
      assert s == s[..i] + [sep] + rest;
      var parts := Split(s, sep);
      assert parts == [s[..i]] + Split(rest, sep);
      assert parts[1..] == Split(rest, sep);
      JoinSplit(rest, sep);
      assert Join(parts, sep) == s[..i] + [sep] + rest;
    }
  }

  /** No piece of a split contains the separator. */
  lemma {:induction false} SplitPiecesFree(s: string, sep: char)
    ensures forall k :: 0 <= k < |Split(s, sep)| ==> sep !in Split(s, sep)[k]
    decreases |s|
  {
    var i := IndexOf(s, sep);
    if i == -1 {
      assert Split(s, sep) == [s];
    } else {
      var head, rest := s[..i], Split(s[i + 1..], sep);
      assert Split(s, sep) == [head] + rest;
      assert sep !in head;
      SplitPiecesFree(s[i + 1..], sep);
      forall k | 0 <= k < |Split(s, sep)|
        ensures sep !in Split(s, sep)[k]
      {
        if k > 0 {
          assert Split(s, sep)[k] == rest[k - 1];
        }
      }
    }
  }

  /** A text whose first separator follows `x` splits into `x` and the pieces of the rest. */
  lemma SplitAfterFirst(x: string, sep: char, y: string)
    requires sep !in x
    ensures Split(x + [sep] + y, sep) == [x] + Split(y, sep)
  {
    var s := x + [sep] + y;
    assert s[|x|] == sep;
    assert s[..|x|] == x;
    assert IndexOf(s, sep) == |x|;
    assert s[|x| + 1..] == y;
  }

  /** Splitting the join of separator-free pieces gives back the pieces. */
  lemma {:induction false} SplitJoin(parts: seq<string>, sep: char)
    requires |parts| >= 1
    requires forall k :: 0 <= k < |parts| ==> sep !in parts[k]
    ensures Split(Join(parts, sep), sep) == parts
    decreases |parts|
  {
    if |parts| == 1 {
      assert IndexOf(parts[0], sep) == -1;
    } else {
      var tail := parts[1..];
      assert forall k :: 0 <= k < |tail| ==> tail[k] == parts[k + 1];
      SplitJoin(tail, sep);
      var rest := Join(tail, sep);
      assert Join(parts, sep) == parts[0] + [sep] + rest;
      SplitAfterFirst(parts[0], sep, rest);
      assert parts == [parts[0]] + tail;
    }
  }

  /** The characters `String.prototype.trim` removes: ECMAScript WhiteSpace
      (tab, vertical tab, form feed, space, no-break space, byte order mark and
      the Unicode space separators) and LineTerminator (LF, CR, LS, PS). */
  predicate IsWhitespace(c: char) {
    || c == '\t' || c == '\n' || c == '\U{0B}' || c == '\U{0C}' || c == '\r' || c == ' '
    || c == '\U{A0}' || c == '\U{1680}' || ('\U{2000}' <= c <= '\U{200A}')
    || c == '\U{2028}' || c == '\U{2029}' || c == '\U{202F}' || c == '\U{205F}'
    || c == '\U{3000}' || c == '\U{FEFF}'
  }

  /** Drops the leading whitespace: the result is a suffix of `s`, everything
      cut off is whitespace, and the result does not start with whitespace. */
  function TrimStart(s: string): (r: string)
    ensures |r| <= |s| && r == s[|s| - |r|..]
    ensures forall k :: 0 <= k < |s| - |r| ==> IsWhitespace(s[k])
    ensures r != [] ==> !IsWhitespace(r[0])
  {
    if s != [] && IsWhitespace(s[0]) then
      var r := TrimStart(s[1..]);
      LeadingStep(s, s[1..], r);
      r
    else s
  }

  /** What is cut from `rest`, which is `s` without its first character, is
      cut from `s` too, together with that character. */
  lemma LeadingStep(s: string, rest: string, r: string)
    requires s != [] && IsWhitespace(s[0]) && rest == s[1..]
    requires |r| <= |rest| && r == rest[|rest| - |r|..]
    requires forall k :: 0 <= k < |rest| - |r| ==> IsWhitespace(rest[k])
    ensures r == s[|s| - |r|..]
    ensures forall k :: 0 <= k < |s| - |r| ==> IsWhitespace(s[k])
  {
    forall k | 0 < k < |s| - |r|
      ensures IsWhitespace(s[k])
    {
      assert s[k] == rest[k - 1];
    }
  }

  /** Drops the trailing whitespace: the result is a prefix of `s`, everything
      cut off is whitespace, and the result does not end with whitespace. */
  function TrimEnd(s: string): (r: string)
    ensures |r| <= |s| && r == s[..|r|]
    ensures forall k :: |r| <= k < |s| ==> IsWhitespace(s[k])
    ensures r != [] ==> !IsWhitespace(r[|r| - 1])
  {
    if s != [] && IsWhitespace(s[|s| - 1]) then
      var r := TrimEnd(s[..|s| - 1]);
      TrailingStep(s, s[..|s| - 1], r);
      r
    else s
  }

  /** What is cut from `rest`, which is `s` without its last character, is
      cut from `s` too, before that character. */
  lemma TrailingStep(s: string, rest: string, r: string)
    requires s != [] && IsWhitespace(s[|s| - 1]) && rest == s[..|s| - 1]
    requires |r| <= |rest| && r == rest[..|r|]
    requires forall k :: |r| <= k < |rest| ==> IsWhitespace(rest[k])
    ensures r == s[..|r|]
    ensures forall k :: |r| <= k < |s| ==> IsWhitespace(s[k])
  {
    forall k | |r| <= k < |rest|
      ensures IsWhitespace(s[k])
    {
      assert s[k] == rest[k];
    }
  }

  /** `s.trim()`: the slice of `s` that starts at its first character that is
      not whitespace and ends at its last one; everything cut off at either
      end is whitespace, and a text of whitespace only trims to "". */
  function Trim(s: string): (r: string)
    ensures var m := |TrimEnd(s)|;
      && |r| <= m <= |s| && r == s[m - |r|..m]
      && (forall k :: 0 <= k < m - |r| ==> IsWhitespace(s[k]))
      && (forall k :: m <= k < |s| ==> IsWhitespace(s[k]))
    ensures r != [] ==> !IsWhitespace(r[0]) && !IsWhitespace(r[|r| - 1])
  {
    var u := TrimEnd(s);
    var r := TrimStart(u);
    TrimSlice(s, u, r);
    r
  }

  /** Trimming the start `r` of the trimmed end `u` of `s` leaves a slice of
      `s` with only whitespace before and after it; the slice starts where `r`
      does and ends on `u`'s last character. */
  lemma TrimSlice(s: string, u: string, r: string)
    requires |u| <= |s| && u == s[..|u|]
    requires forall k :: |u| <= k < |s| ==> IsWhitespace(s[k])
    requires u != [] ==> !IsWhitespace(u[|u| - 1])
    requires |r| <= |u| && r == u[|u| - |r|..]
    requires forall k :: 0 <= k < |u| - |r| ==> IsWhitespace(u[k])
    requires r != [] ==> !IsWhitespace(r[0])
    ensures var m := |u|;
      && |r| <= m <= |s| && r == s[m - |r|..m]
      && (forall k :: 0 <= k < m - |r| ==> IsWhitespace(s[k]))
      && (forall k :: m <= k < |s| ==> IsWhitespace(s[k]))
    ensures r != [] ==> !IsWhitespace(r[0]) && !IsWhitespace(r[|r| - 1])
  {
    var m := |u|;
    assert s[..m][m - |r|..] == s[m - |r|..m];
    forall k | 0 <= k < m - |r|
      ensures IsWhitespace(s[k])
    {
      assert s[k] == u[k];
    }
    if r != [] {
      assert r[|r| - 1] == u[m - 1];
    }
  }

  /** `s.replace(c, '')` with a one-character string pattern: removes the first
      occurrence of `c` only; every later occurrence is kept. */
  function RemoveFirst(s: string, c: char): (r: string)
    ensures c !in s ==> r == s
    ensures c in s ==> r == s[..IndexOf(s, c)] + s[IndexOf(s, c) + 1..]
  {
    if s == [] then []
    else if s[0] == c then s[1..]
    else
      var rest := RemoveFirst(s[1..], c);
      RemoveFirstStep(s, c, rest);
      [s[0]] + rest
  }

  /** Removing the first `c` after a first character that is not `c`: the
      character stays in front of what removal leaves of the rest. */
  lemma RemoveFirstStep(s: string, c: char, rest: string)
    requires s != [] && s[0] != c
    requires c !in s[1..] ==> rest == s[1..]
    requires c in s[1..] ==> rest == s[1..][..IndexOf(s[1..], c)] + s[1..][IndexOf(s[1..], c) + 1..]
    ensures c !in s ==> [s[0]] + rest == s
    ensures c in s ==> [s[0]] + rest == s[..IndexOf(s, c)] + s[IndexOf(s, c) + 1..]
  {
    assert s == [s[0]] + s[1..];
    var k := IndexOf(s[1..], c);
    if k != -1 {
      assert IndexOf(s, c) == k + 1;
      assert s[..k + 1] == [s[0]] + s[1..][..k];
      assert s[k + 2..] == s[1..][k + 1..];
    }
  }

  /** `replace` removes exactly one occurrence of the pattern character: a
      text with several `+` signs keeps all but the first. */
  lemma {:induction false} RemoveFirstCount(s: string, c: char)
    requires c in s
    ensures multiset(RemoveFirst(s, c))[c] == multiset(s)[c] - 1
    decreases |s|
  {
    assert s == [s[0]] + s[1..];
    if s[0] != c {
      RemoveFirstCount(s[1..], c);
      assert RemoveFirst(s, c) == [s[0]] + RemoveFirst(s[1..], c);
    }
  }
}
