/**
 * The handful of Python `str` operations and `re` character classes that the
 * builder relies on, over strings of Unicode code points (as Python's `str`).
 */
module Strings {

  /** `str.isspace()`; the `re` class `\s` on a `str` pattern is the same set. */
  predicate IsSpace(c: char) {
    c == ' ' || ('\t' <= c <= '\r') || ('\U{1c}' <= c <= '\U{1f}') || c == '\U{85}' || c == '\U{a0}'
    || c == '\U{1680}' || ('\U{2000}' <= c <= '\U{200a}') || c == '\U{2028}' || c == '\U{2029}'
    || c == '\U{202f}' || c == '\U{205f}' || c == '\U{3000}'
  }

  /** The `re` class `\d` on a `str` pattern: every Unicode decimal digit (category Nd, Unicode 15.0). */
  predicate IsDecimalDigit(c: char) {
    var n := c as int;
    (0x30 <= n <= 0x39) || (0x660 <= n <= 0x669) || (0x6F0 <= n <= 0x6F9) || (0x7C0 <= n <= 0x7C9)
    || (0x966 <= n <= 0x96F) || (0x9E6 <= n <= 0x9EF) || (0xA66 <= n <= 0xA6F) || (0xAE6 <= n <= 0xAEF)
    || (0xB66 <= n <= 0xB6F) || (0xBE6 <= n <= 0xBEF) || (0xC66 <= n <= 0xC6F) || (0xCE6 <= n <= 0xCEF)
    || (0xD66 <= n <= 0xD6F) || (0xDE6 <= n <= 0xDEF) || (0xE50 <= n <= 0xE59) || (0xED0 <= n <= 0xED9)
    || (0xF20 <= n <= 0xF29) || (0x1040 <= n <= 0x1049) || (0x1090 <= n <= 0x1099) || (0x17E0 <= n <= 0x17E9)
    || (0x1810 <= n <= 0x1819) || (0x1946 <= n <= 0x194F) || (0x19D0 <= n <= 0x19D9) || (0x1A80 <= n <= 0x1A89)
    || (0x1A90 <= n <= 0x1A99) || (0x1B50 <= n <= 0x1B59) || (0x1BB0 <= n <= 0x1BB9) || (0x1C40 <= n <= 0x1C49)
    || (0x1C50 <= n <= 0x1C59) || (0xA620 <= n <= 0xA629) || (0xA8D0 <= n <= 0xA8D9) || (0xA900 <= n <= 0xA909)
    || (0xA9D0 <= n <= 0xA9D9) || (0xA9F0 <= n <= 0xA9F9) || (0xAA50 <= n <= 0xAA59) || (0xABF0 <= n <= 0xABF9)
    || (0xFF10 <= n <= 0xFF19) || (0x104A0 <= n <= 0x104A9) || (0x10D30 <= n <= 0x10D39) || (0x11066 <= n <= 0x1106F)
    || (0x110F0 <= n <= 0x110F9) || (0x11136 <= n <= 0x1113F) || (0x111D0 <= n <= 0x111D9) || (0x112F0 <= n <= 0x112F9)
    || (0x11450 <= n <= 0x11459) || (0x114D0 <= n <= 0x114D9) || (0x11650 <= n <= 0x11659) || (0x116C0 <= n <= 0x116C9)
    || (0x11730 <= n <= 0x11739) || (0x118E0 <= n <= 0x118E9) || (0x11950 <= n <= 0x11959) || (0x11C50 <= n <= 0x11C59)
    || (0x11D50 <= n <= 0x11D59) || (0x11DA0 <= n <= 0x11DA9) || (0x11F50 <= n <= 0x11F59) || (0x16A60 <= n <= 0x16A69)
    || (0x16AC0 <= n <= 0x16AC9) || (0x16B50 <= n <= 0x16B59) || (0x1D7CE <= n <= 0x1D7FF) || (0x1E140 <= n <= 0x1E149)
    || (0x1E2F0 <= n <= 0x1E2F9) || (0x1E4F0 <= n <= 0x1E4F9) || (0x1E950 <= n <= 0x1E959) || (0x1FBF0 <= n <= 0x1FBF9)
  }

  predicate NoSpace(s: string) {
    forall i :: 0 <= i < |s| ==> !IsSpace(s[i])
  }

  predicate AllSpace(s: string) {
    forall i :: 0 <= i < |s| ==> IsSpace(s[i])
  }

  /** Neither starts nor ends with whitespace. */
  predicate Trimmed(s: string) {
    s == [] || (!IsSpace(s[0]) && !IsSpace(s[|s| - 1]))
  }

  /** `s.startswith(p)` */
  predicate StartsWith(s: string, p: string) {
    |p| <= |s| && s[..|p|] == p
  }

  /** `s.endswith(p)` */
  predicate EndsWith(s: string, p: string) {
    |p| <= |s| && s[|s| - |p|..] == p
  }

  /** `w` occurs in `s` starting at index `i`. */
  predicate OccursAt(s: string, w: string, i: nat) {
    i + |w| <= |s| && s[i..i + |w|] == w
  }

  /** `w in s` for strings: `w` occurs as a contiguous piece of `s`. */
  predicate Contains(s: string, w: string) {
    exists i: nat | i <= |s| :: OccursAt(s, w, i)
  }

  /** `s[n:]` for a non-negative `n`: past the end it is empty, as in Python. */
  function Drop(s: string, n: nat): (r: string)
    ensures n <= |s| ==> s == s[..n] + r
    ensures n >= |s| ==> r == []
  {
    if n <= |s| then s[n..] else []
  }

  /** `s[:n]` for a non-negative `n`: past the end it is the whole string, as in Python. */
  function Take(s: string, n: nat): (r: string)
    ensures StartsWith(s, r)
    ensures |r| == if n <= |s| then n else |s|
  {
    if n <= |s| then s[..n] else s
  }

  /** `str.lstrip()` with no argument. */
  function StripStart(s: string): (r: string)
    ensures |r| <= |s| && r == s[|s| - |r|..]
    ensures AllSpace(s[..|s| - |r|])
    ensures r == [] || !IsSpace(r[0])
  {
    if s != [] && IsSpace(s[0]) then
      var r := StripStart(s[1..]);
      assert s[1..][..|s| - 1 - |r|] == s[1..|s| - |r|];
      r
    else s
  }

  /** `str.rstrip()` with no argument. */
  function StripEnd(s: string): (r: string)
    ensures |r| <= |s| && r == s[..|r|]
    ensures AllSpace(s[|r|..])
    ensures r == [] || !IsSpace(r[|r| - 1])
  {
    if s != [] && IsSpace(s[|s| - 1]) then
      var r := StripEnd(s[..|s| - 1]);
      assert s[..|s| - 1][|r|..] == s[|r|..|s| - 1];
      assert forall i :: |r| <= i < |s| - 1 ==> s[i] == s[..|s| - 1][|r|..][i - |r|];
      r
    else s
  }

  /**
   * `str.strip()` with no argument: the longest piece of `s` that neither
   * starts nor ends with whitespace, once only whitespace is cut away.
   */
  function Strip(s: string): (r: string)
    ensures |r| <= |s|
    ensures r == [] <==> AllSpace(s)
    ensures s != [] && !IsSpace(s[0]) && !IsSpace(s[|s| - 1]) ==> r == s
    ensures Trimmed(r)
  {
    var t := StripStart(s);
    var r := StripEnd(t);
    r
  }

  /** Leading whitespace is exactly what `lstrip` removes. */
  lemma {:induction false} StripStartOfSpaces(a: string, y: string)
    requires AllSpace(a) && (y == [] || !IsSpace(y[0]))
    ensures StripStart(a + y) == y
  {
    if a != [] {
      assert (a + y)[1..] == a[1..] + y;
      StripStartOfSpaces(a[1..], y);
    }
  }

  /** Trailing whitespace is exactly what `rstrip` removes. */
  lemma {:induction false} StripEndOfSpaces(y: string, b: string)
    requires AllSpace(b) && (y == [] || !IsSpace(y[|y| - 1]))
    ensures StripEnd(y + b) == y
  {
    if b != [] {
      var c := b[..|b| - 1];
      assert (y + b)[..|y + b| - 1] == y + c;
      StripEndOfSpaces(y, c);
    }
  }

  /** `strip` returns the text between leading and trailing whitespace. */
  lemma StripOfPadded(a: string, x: string, b: string)
    requires AllSpace(a) && AllSpace(b)
    requires x != [] && !IsSpace(x[0]) && !IsSpace(x[|x| - 1])
    ensures Strip(a + x + b) == x
  {
    assert a + x + b == a + (x + b);
    StripStartOfSpaces(a, x + b);
    StripEndOfSpaces(x, b);
  }

  /** The first index of `c` in `s`, or `|s|` when there is none. */
  function IndexOf(s: string, c: char): (i: nat)
    ensures i <= |s|
    ensures i < |s| ==> s[i] == c
    ensures forall j :: 0 <= j < i ==> s[j] != c
  {
    if s == [] then 0
    else if s[0] == c then 0
    else 1 + IndexOf(s[1..], c)
  }

  /** `s.find(w)`: the lowest index at which `w` occurs in `s`, or -1. */
  function Find(s: string, w: string): (r: int)
    ensures r == -1 <==> !Contains(s, w)
    ensures r != -1 ==> 0 <= r && OccursAt(s, w, r)
    ensures r != -1 ==> forall j: nat :: j < r ==> !OccursAt(s, w, j)
  {
    if |s| < |w| then -1
    else if s[..|w|] == w then
      assert OccursAt(s, w, 0);
      0
    else
      var k := Find(s[1..], w);
      forall j: nat | j + |w| <= |s| ensures OccursAt(s, w, j) <==> (j > 0 && OccursAt(s[1..], w, j - 1)) {
        if j > 0 { assert s[j..j + |w|] == s[1..][j - 1..j - 1 + |w|]; }
      }
      if k == -1 then -1 else assert OccursAt(s, w, k + 1); k + 1
  }

  /** Lower-case one character: `A`-`Z`, and U+212A KELVIN SIGN, which Python lower-cases to `k`. */
  function LowerChar(c: char): (d: char)
    ensures 'A' <= c <= 'Z' ==> d as int == c as int + 32
    ensures !('A' <= c <= 'Z') && c != '\U{212a}' ==> d == c
  {
    if 'A' <= c <= 'Z' then (c as int + 32) as char
    else if c == '\U{212a}' then 'k'
    else c
  }

  /** `str.lower()`, as far as it can turn a string into one made of ASCII letters. */
  function Lower(s: string): (r: string)
    ensures |r| == |s|
    ensures forall i :: 0 <= i < |s| ==> r[i] == LowerChar(s[i])
  {
    if s == [] then [] else [LowerChar(s[0])] + Lower(s[1..])
  }

  /** The number of occurrences of `c` in `s`. */
  function Count(s: string, c: char): nat {
    if s == [] then 0 else (if s[0] == c then 1 else 0) + Count(s[1..], c)
  }

  /** `s.split(c)` for a one-character separator: every piece, empty ones included. */
  function Split(s: string, c: char): (r: seq<string>)
    ensures |r| == Count(s, c) + 1
    ensures forall k :: 0 <= k < |r| ==> c !in r[k]
    decreases |s|
  {
    var i := IndexOf(s, c);
    if i == |s| then
      CountAbsent(s, c);
      [s]
    else
      CountSplit(s, c, i);
      [s[..i]] + Split(s[i + 1..], c)
  }

  /** `s.split(c, maxsplit)`: at most `maxsplit` splits, from the left. */
  function SplitMax(s: string, c: char, maxsplit: nat): (r: seq<string>)
    ensures 1 <= |r| <= maxsplit + 1
    ensures |r| == if Count(s, c) < maxsplit then Count(s, c) + 1 else maxsplit + 1
    ensures forall k :: 0 <= k < |r| - 1 ==> c !in r[k]
    decreases maxsplit
  {
    var i := IndexOf(s, c);
    if i == |s| then
      CountAbsent(s, c);
      [s]
    else if maxsplit == 0 then
      CountSplit(s, c, i);
      [s]
    else
      CountSplit(s, c, i);
      [s[..i]] + SplitMax(s[i + 1..], c, maxsplit - 1)
  }

  /** `"".join(parts)`: the parts one after another. */
  function Concat(parts: seq<string>): (s: string)
    ensures |parts| == 1 ==> s == parts[0]
  {
    if parts == [] then [] else parts[0] + Concat(parts[1..])
  }

  /** An empty part and the first `n` characters, then parts that make up the rest, make up the text. */
  lemma ConcatAfterCut(s: string, n: nat, t: seq<string>)
    requires n <= |s| && Concat(t) == s[n..]
    ensures Concat(["", s[..n]] + t) == s
  {
    assert (["", s[..n]] + t)[1..] == [s[..n]] + t;
    assert ([s[..n]] + t)[1..] == t;
    assert s == s[..n] + s[n..];
  }

  /** The first character put in front of the first part of the rest makes up the text. */
  lemma ConcatAfterHead(s: string, t: seq<string>)
    requires s != [] && t != [] && Concat(t) == s[1..]
    ensures Concat([[s[0]] + t[0]] + t[1..]) == s
  {
    assert ([[s[0]] + t[0]] + t[1..])[1..] == t[1..];
    assert s == [s[0]] + s[1..];
  }

  /** `c.join(parts)`: the parts with one `c` between neighbours. */
  function Join(parts: seq<string>, c: char): (s: string)
    ensures parts != [] ==> StartsWith(s, parts[0])
  {
    if parts == [] then []
    else if |parts| == 1 then parts[0]
    else parts[0] + [c] + Join(parts[1..], c)
  }

  /** Splitting the joined parts gives the parts back when none holds the separator. */
  lemma {:induction false} SplitOfJoin(parts: seq<string>, c: char)
    requires parts != [] && forall k :: 0 <= k < |parts| ==> c !in parts[k]
    ensures Split(Join(parts, c), c) == parts
  {
    var s := Join(parts, c);
    if |parts| == 1 {
      IndexOfAbsent(s, c);
    } else {
      var head := parts[0];
      var tail := Join(parts[1..], c);
      assert s == head + [c] + tail;
      IndexOfFirst(head, c, tail);
      assert s[..|head|] == head;
      assert s[|head| + 1..] == tail;
      SplitOfJoin(parts[1..], c);
      assert parts == [head] + parts[1..];
    }
  }

  lemma {:induction false} IndexOfAbsent(s: string, c: char)
    requires c !in s
    ensures IndexOf(s, c) == |s|
  {
    if s != [] {
      IndexOfAbsent(s[1..], c);
    }
  }

  lemma {:induction false} IndexOfFirst(a: string, c: char, b: string)
    requires c !in a
    ensures IndexOf(a + [c] + b, c) == |a|
  {
    if a != [] {
      assert (a + [c] + b)[1..] == a[1..] + [c] + b;
      IndexOfFirst(a[1..], c, b);
    }
  }

  /** Joining the pieces of a split gives the string back. */
  lemma {:induction false} JoinOfSplit(s: string, c: char)
    ensures Join(Split(s, c), c) == s
    decreases |s|
  {
    var i := IndexOf(s, c);
    if i < |s| {
      var rest := Split(s[i + 1..], c);
      JoinOfSplit(s[i + 1..], c);
      var parts := [s[..i]] + rest;
      assert Split(s, c) == parts;
      assert parts[0] == s[..i] && parts[1..] == rest && |parts| >= 2;
      assert Join(parts, c) == s[..i] + [c] + Join(rest, c);
      assert s == s[..i] + [c] + s[i + 1..];
    }
  }

  /** Splitting around separators the pieces do not hold gives the pieces back, up to `maxsplit` splits. */
  lemma SplitMaxOfOne(a: string, c: char, maxsplit: nat)
    requires c !in a
    ensures SplitMax(a, c, maxsplit) == [a]
  {
    IndexOfAbsent(a, c);
  }

  lemma SplitMaxOfTwo(a: string, b: string, c: char, maxsplit: nat)
    requires c !in a && c !in b && maxsplit >= 1
    ensures SplitMax(a + [c] + b, c, maxsplit) == [a, b]
  {
    IndexOfFirst(a, c, b);
    assert (a + [c] + b)[..|a|] == a;
    assert (a + [c] + b)[|a| + 1..] == b;
    SplitMaxOfOne(b, c, maxsplit - 1);
  }

  lemma SplitMaxOfThree(a: string, b: string, d: string, c: char, maxsplit: nat)
    requires c !in a && c !in b && c !in d && maxsplit >= 2
    ensures SplitMax(a + [c] + b + [c] + d, c, maxsplit) == [a, b, d]
  {
    var s := a + [c] + b + [c] + d;
    assert s == a + [c] + (b + [c] + d);
    IndexOfFirst(a, c, b + [c] + d);
    assert s[..|a|] == a;
    assert s[|a| + 1..] == b + [c] + d;
    SplitMaxOfTwo(b, d, c, maxsplit - 1);
  }

  lemma {:induction false} CountAbsent(s: string, c: char)
    requires c !in s
    ensures Count(s, c) == 0
  {
    if s != [] { CountAbsent(s[1..], c); }
  }

  lemma {:induction false} CountSplit(s: string, c: char, i: nat)
    requires i < |s| && s[i] == c && c !in s[..i]
    ensures Count(s, c) == 1 + Count(s[i + 1..], c)
  {
    if i > 0 {
      assert s[1..][..i - 1] == s[1..i];
      assert s[1..][i..] == s[i + 1..];
      CountSplit(s[1..], c, i - 1);
    }
  }

  /** The last element of `a + b` and what precedes it, for non-empty `b`. */
  lemma AppendLast<T>(a: seq<T>, b: seq<T>)
    requires b != []
    ensures (a + b)[..|a + b| - 1] == a + b[..|b| - 1]
    ensures (a + b)[|a + b| - 1] == b[|b| - 1]
  {
  }
}
