/** String primitives shared by the whole model: the subset of
    JavaScript's `String.prototype` and regular-expression character
    classes that the application relies on. Strings are `seq<char>`. */
module Strings {
  import opened Wrappers

  /** The characters matched by `\s` and removed by `trim()` (ASCII part). */
  predicate IsSpace(c: char) {
    c == ' ' || c == '\t' || c == '\n' || c == '\r' || c == '\U{000B}' || c == '\U{000C}'
  }

  /** The characters matched by `\w`. */
  predicate IsWordChar(c: char) {
    ('a' <= c <= 'z') || ('A' <= c <= 'Z') || ('0' <= c <= '9') || c == '_'
  }

  /** The characters matched by `[a-f0-9]` under the `i` flag. */
  predicate IsHexDigit(c: char) {
    ('0' <= c <= '9') || ('a' <= c <= 'f') || ('A' <= c <= 'F')
  }

  predicate IsDigit(c: char) {
    '0' <= c <= '9'
  }

  predicate AllSpace(s: string) {
    forall k :: 0 <= k < |s| ==> IsSpace(s[k])
  }

  predicate StartsWith(s: string, p: string) {
    |p| <= |s| && s[..|p|] == p
  }

  predicate EndsWith(s: string, p: string) {
    |p| <= |s| && s[|s| - |p|..] == p
  }

  /** `p` occurs in `s` starting at index `i`. */
  predicate OccursAt(s: string, p: string, i: nat) {
    i + |p| <= |s| && s[i..i + |p|] == p
  }

  /** `s.includes(p)` */
  predicate Contains(s: string, p: string) {
    exists i: nat | i <= |s| :: OccursAt(s, p, i)
  }

  /** The index of the first occurrence of `p` in `s` at or after `from`. */
  function FindFrom(s: string, p: string, from: nat): (r: Option<nat>)
    ensures r.Some? ==> from <= r.value && OccursAt(s, p, r.value)
    ensures r.Some? ==> forall j :: from <= j < r.value ==> !OccursAt(s, p, j)
    ensures r.None? ==> forall j :: from <= j ==> !OccursAt(s, p, j)
    decreases |s| - from
  {
    if from + |p| > |s| then None
    else if OccursAt(s, p, from) then Some(from)
    else FindFrom(s, p, from + 1)
  }

  /** `s.replace(p, rep)` with a string pattern: only the first occurrence
      is replaced; `s` is returned unchanged when `p` does not occur. */
  function ReplaceFirst(s: string, p: string, rep: string): (r: string)
  {
    match FindFrom(s, p, 0)
    case None => s
    case Some(i) => s[..i] + rep + s[i + |p|..]
  }

  function Clamp(x: int, n: nat): (r: nat)
    ensures r <= n
  {
    if x < 0 then 0 else if x > n then n else x
  }

  /** `s.substring(a, b)`: both bounds are clamped to the text and swapped
      when the first is the larger. */
  function Substring(s: string, a: int, b: int): string {
    var x, y := Clamp(a, |s|), Clamp(b, |s|);
    if x <= y then s[x..y] else s[y..x]
  }

  /** A string that may be `undefined`/`null` is truthy when present and
      not empty. */
  predicate Truthy(s: Option<string>) {
    s.Some? && s.value != ""
  }

  /** `s.trimStart()` */
  function TrimStart(s: string): (r: string)
    ensures |r| <= |s|
  {
    if |s| > 0 && IsSpace(s[0]) then TrimStart(s[1..]) else s
  }

  /** `trimStart` removes a prefix of whitespace, and only that: what is
      left is a suffix of `s` that does not start with whitespace. */
  lemma {:induction false} TrimStartSpec(s: string)
    ensures var r := TrimStart(s);
      r == s[|s| - |r|..] && (r == [] || !IsSpace(r[0])) && AllSpace(s[..|s| - |r|])
  {
    if |s| > 0 && IsSpace(s[0]) {
      TrimStartSpec(s[1..]);
      var r := TrimStart(s[1..]);
      assert s[1..][..|s| - 1 - |r|] == s[1..|s| - |r|];
    }
  }

  /** `s.trimEnd()` */
  function TrimEnd(s: string): (r: string)
    ensures |r| <= |s|
  {
    if |s| > 0 && IsSpace(s[|s| - 1]) then TrimEnd(s[..|s| - 1]) else s
  }

  /** `trimEnd` removes a suffix of whitespace, and only that. */
  lemma {:induction false} TrimEndSpec(s: string)
    ensures var r := TrimEnd(s);
      r == s[..|r|] && (r == [] || !IsSpace(r[|r| - 1])) && AllSpace(s[|r|..])
  {
    if |s| > 0 && IsSpace(s[|s| - 1]) {
      TrimEndSpec(s[..|s| - 1]);
      var r := TrimEnd(s[..|s| - 1]);
      assert s[..|s| - 1][|r|..] + [s[|s| - 1]] == s[|r|..];
    }
  }

  /** `s.trim()` */
  function Trim(s: string): (r: string)
    ensures |r| <= |s|
  {
    TrimEnd(TrimStart(s))
  }

  /** What `trim` leaves neither starts nor ends with whitespace. */
  lemma TrimEnds(s: string)
    ensures var r := Trim(s); r == [] || (!IsSpace(r[0]) && !IsSpace(r[|r| - 1]))
  {
    var t := TrimStart(s);
    TrimStartSpec(s);
    TrimEndSpec(t);
  }

  /** `!s.trim()`: the string is empty or only whitespace. */
  lemma TrimEmptyIffBlank(s: string)
    ensures Trim(s) == [] <==> AllSpace(s)
  {
    var t := TrimStart(s);
    TrimStartSpec(s);
    TrimEndSpec(t);
    assert s == s[..|s| - |t|] + t;
    if Trim(s) == [] {
      assert AllSpace(t[0..]);
    }
  }

  function LowerChar(c: char): char {
    if 'A' <= c <= 'Z' then (c as int - 'A' as int + 'a' as int) as char else c
  }

  /** `s.toLowerCase()` (ASCII letters). */
  function Lower(s: string): (r: string)
    ensures |r| == |s| && forall k :: 0 <= k < |s| ==> r[k] == LowerChar(s[k])
  {
    seq(|s|, k requires 0 <= k < |s| => LowerChar(s[k]))
  }

  /** Text without capital letters is its own lower case. */
  lemma LowerOfLowerCase(s: string)
    requires forall k :: 0 <= k < |s| ==> !('A' <= s[k] <= 'Z')
    ensures Lower(s) == s
  {
  }

  /** The index of the first `c` in `s` at or after `from`, `-1` when
      there is none. */
  function IndexOfCharFrom(s: string, c: char, from: nat): (r: int)
    requires from <= |s|
    ensures r == -1 <==> forall k :: from <= k < |s| ==> s[k] != c
    ensures r != -1 ==> from <= r < |s| && s[r] == c && forall k :: from <= k < r ==> s[k] != c
    decreases |s| - from
  {
    if from == |s| then -1
    else if s[from] == c then from
    else IndexOfCharFrom(s, c, from + 1)
  }

  /** `s.indexOf(c)`, `-1` when absent. */
  function IndexOfChar(s: string, c: char): (r: int)
    ensures r == -1 <==> c !in s
    ensures r != -1 ==> 0 <= r < |s| && s[r] == c && forall k :: 0 <= k < r ==> s[k] != c
  {
    IndexOfCharFrom(s, c, 0)
  }

  /** `s.split(c)` for a one-character separator; `"".split(c)` is `[""]`. */
  function Split(s: string, c: char): (parts: seq<string>)
    ensures |parts| >= 1
    decreases |s|
  {
    var i := IndexOfChar(s, c);
    if i == -1 then [s] else [s[..i]] + Split(s[i + 1..], c)
  }

  /** `parts.join(c)` */
  function Join(parts: seq<string>, c: char): string {
    if |parts| == 0 then []
    else if |parts| == 1 then parts[0]
    else parts[0] + [c] + Join(parts[1..], c)
  }

  /** Splitting and joining again on the same separator gives back the input. */
  lemma {:induction false} JoinSplit(s: string, c: char)
    ensures Join(Split(s, c), c) == s
    decreases |s|
  {
    var i := IndexOfChar(s, c);
    if i != -1 {
      var rest := Split(s[i + 1..], c);
      SplitTail(s, c, i);
      JoinSplit(s[i + 1..], c);
      assert Join([s[..i]] + rest, c) == s[..i] + [c] + Join(rest, c) by {
        DropHead(s[..i], rest);
      }
      assert s == s[..i] + [c] + s[i + 1..];
    }
  }

  /** The first separator of `a + [c] + e` is the first one of `a`, if `a`
      holds one. */
  lemma FirstSeparator(a: string, c: char, e: string)
    ensures c in a ==> IndexOfChar(a + [c] + e, c) == IndexOfChar(a, c)
    ensures c !in a ==> IndexOfChar(a + [c] + e, c) == |a|
  {
    var s := a + [c] + e;
    var i := IndexOfChar(s, c);
    if c in a {
      var j := IndexOfChar(a, c);
      assert s[j] == c && s[..j] == a[..j];
    } else {
      assert s[|a|] == c && s[..|a|] == a;
    }
  }

  /** After the first separator come the parts of the rest. */
  lemma SplitTail(s: string, c: char, i: int)
    requires 0 <= i && i == IndexOfChar(s, c)
    ensures Split(s, c) == [s[..i]] + Split(s[i + 1..], c)
  {
  }

  lemma SliceAfter(a: string, c: char, e: string, j: nat)
    requires j < |a|
    ensures (a + [c] + e)[j + 1..] == a[j + 1..] + [c] + e
  {
  }

  lemma DropHead<T>(x: T, ys: seq<T>)
    ensures ([x] + ys)[1..] == ys
  {
  }

  /** The parts of `a`, a separator and `e`, after the first one, when the
      first separator lies inside `a`. */
  lemma SplitTailInside(a: string, c: char, e: string)
    requires c in a
    ensures Split(a + [c] + e, c)[1..] == Split(a[IndexOfChar(a, c) + 1..] + [c] + e, c)
  {
    var s, j := a + [c] + e, IndexOfChar(a, c);
    assert 0 <= j < |a|;
    FirstSeparator(a, c, e);
    assert j == IndexOfChar(s, c);
    SplitTail(s, c, j);
    SliceAfter(a, c, e, j);
    DropHead(s[..j], Split(s[j + 1..], c));
  }

  lemma {:induction false} SplitLast(a: string, c: char, e: string)
    requires c !in e
    ensures var parts := Split(a + [c] + e, c); parts[|parts| - 1] == e
    decreases |a|
  {
    var s := a + [c] + e;
    if c in a {
      var a' := a[IndexOfChar(a, c) + 1..];
      var parts, rest := Split(s, c), Split(a' + [c] + e, c);
      SplitTailInside(a, c, e);
      SplitLast(a', c, e);
      assert parts[|parts| - 1] == parts[1..][|parts| - 2];
    } else {
      FirstSeparator(a, c, e);
      assert Split(s, c) == [a, e] by {
        assert s[..|a|] == a && s[|a| + 1..] == e;
        assert Split(e, c) == [e];
      }
    }
  }



  /** The parts after the first one, joined back, are the text after the
      first separator. */
  lemma TailOfSplit(s: string, c: char)
    requires c in s
    ensures Join(Split(s, c)[1..], c) == s[IndexOfChar(s, c) + 1..]
  {
    var i := IndexOfChar(s, c);
    var rest := Split(s[i + 1..], c);
    assert Split(s, c) == [s[..i]] + rest;
    assert Split(s, c)[1..] == rest;
    JoinSplit(s[i + 1..], c);
  }

  // ---------------------------------------------------------------- numbers

  /** `Math.max(a, b)` */
  function Max(a: nat, b: nat): (m: nat)
    ensures m >= a && m >= b && (m == a || m == b)
  {
    if a >= b then a else b
  }

  function DigitChar(d: nat): (c: char)
    requires d < 10
    ensures IsDigit(c)
  {
    (d + '0' as int) as char
  }

  function DigitValue(c: char): nat
    requires IsDigit(c)
  {
    c as int - '0' as int
  }

  predicate AllDigits(s: string) {
    forall k :: 0 <= k < |s| ==> IsDigit(s[k])
  }

  /** `n.toString()` for a non-negative integer. */
  function NatToString(n: nat): (s: string)
    ensures |s| >= 1 && AllDigits(s)
    ensures n < 10 <==> |s| == 1
    decreases n
  {
    if n < 10 then [DigitChar(n)] else NatToString(n / 10) + [DigitChar(n % 10)]
  }

  /** Decimal reading of a digit string; the empty string reads as 0. */
  function ParseNat(s: string): nat
    requires AllDigits(s)
    decreases |s|
  {
    if |s| == 0 then 0 else ParseNat(s[..|s| - 1]) * 10 + DigitValue(s[|s| - 1])
  }

  lemma {:induction false} ParseNatToString(n: nat)
    ensures ParseNat(NatToString(n)) == n
    decreases n
  {
    var s := NatToString(n);
    if n >= 10 {
      ParseNatToString(n / 10);
      assert s[..|s| - 1] == NatToString(n / 10);
    } else {
      assert s[..0] == [];
    }
  }

  /** A leading zero does not change the value read. */
  lemma {:induction false} ParseNatLeadingZero(s: string)
    requires AllDigits(s)
    ensures AllDigits("0" + s) && ParseNat("0" + s) == ParseNat(s)
    decreases |s|
  {
    if |s| > 0 {
      ParseNatLeadingZero(s[..|s| - 1]);
      assert ("0" + s)[..|s|] == "0" + s[..|s| - 1];
    } else {
      assert ("0" + s)[..0] == [];
    }
  }

  /** `String(n).padStart(2, "0")` */
  function PadTwo(n: nat): (s: string)
    ensures AllDigits(s) && |s| >= 2
    ensures |s| == 2 <==> n < 100
  {
    var t := NatToString(n);
    if |t| < 2 then "0" + t
    else (assert n >= 10; NatToString10(n); t)
  }

  lemma {:induction false} NatToString10(n: nat)
    ensures |NatToString(n)| == 2 <==> 10 <= n < 100
    decreases n
  {
    if n >= 10 { NatToString10(n / 10); }
  }

  lemma PadTwoReads(n: nat)
    ensures ParseNat(PadTwo(n)) == n
  {
    ParseNatToString(n);
    if |NatToString(n)| < 2 { ParseNatLeadingZero(NatToString(n)); }
  }

  /** `String(n)` for any integer: a minus sign before the digits of a
      negative number. */
  function IntToString(n: int): (s: string)
    ensures |s| >= 1 && (n < 0 <==> s[0] == '-')
    ensures forall k :: 0 <= k < |s| ==> IsDigit(s[k]) || s[k] == '-'
  {
    if n < 0 then "-" + NatToString(-n) else NatToString(n)
  }

  /** Digits, with an optional leading minus sign. */
  predicate IsNumeral(s: string) {
    AllDigits(s) || (|s| > 0 && s[0] == '-' && AllDigits(s[1..]))
  }

  /** Decimal reading of a numeral. */
  function ParseInt(s: string): int
    requires IsNumeral(s)
  {
    if AllDigits(s) then ParseNat(s) as int else -(ParseNat(s[1..]) as int)
  }

  lemma ParseIntToString(n: int)
    ensures IsNumeral(IntToString(n)) && ParseInt(IntToString(n)) == n
  {
    var s := IntToString(n);
    if n < 0 {
      assert !IsDigit(s[0]);
      assert s[1..] == NatToString(-n);
      ParseNatToString(-n);
    } else {
      ParseNatToString(n);
    }
  }

  /** The number of digits just before position `e`. */
  function DigitsBefore(s: string, e: nat): (k: nat)
    requires e <= |s|
    ensures k <= e && AllDigits(s[e - k..e])
    ensures k < e ==> !IsDigit(s[e - k - 1])
  {
    if e == 0 || !IsDigit(s[e - 1]) then 0
    else
      var k := DigitsBefore(s, e - 1);
      assert s[e - (k + 1)..e] == s[e - 1 - k..e - 1] + [s[e - 1]];
      k + 1
  }

  lemma {:induction false} DigitRun(s: string, x: nat, e: nat)
    requires 0 < x <= e <= |s| && AllDigits(s[x..e]) && !IsDigit(s[x - 1])
    ensures DigitsBefore(s, e) == e - x
    decreases e - x
  {
    if e > x {
      assert IsDigit(s[x..e][e - 1 - x]);
      assert s[x..e - 1] == s[x..e][..e - 1 - x];
      DigitRun(s, x, e - 1);
    }
  }

  /** A number after a space and before a tail reads back from the text
      `j` laid out that way. */
  lemma CountBeforeTail(head: string, n: nat, tail: string, j: string)
    requires |head| > 0 && head[|head| - 1] == ' ' && j == head + NatToString(n) + tail
    ensures |j| > |tail| && j[0] == head[0] && j[|j| - |tail|..] == tail
    ensures var e := |j| - |tail|; var k := DigitsBefore(j, e);
      0 < k < e && j[e - k - 1] == ' ' && ParseNat(j[e - k..e]) == n
  {
    var d := NatToString(n);
    DigitsBetween(head, d, tail);
    ParseNatToString(n);
  }

  /** The digits between a space and a tail are found by counting back
      from the tail. */
  lemma DigitsBetween(head: string, d: string, tail: string)
    requires |head| > 0 && head[|head| - 1] == ' ' && |d| > 0 && AllDigits(d)
    ensures var j := head + d + tail;
      var e := |j| - |tail|;
      e == |head| + |d| && j[0] == head[0] && j[e..] == tail &&
      DigitsBefore(j, e) == |d| && j[e - |d|..e] == d && j[e - |d| - 1] == ' '
  {
    var j := head + d + tail;
    var e := |head| + |d|;
    assert j[e..] == tail;
    assert j[|head|..e] == d;
    assert j[|head| - 1] == ' ';
    DigitRun(j, |head|, e);
  }

  // ------------------------------------------------------ code-unit order

  /** The order `Array.prototype.sort()` uses by default: lexicographic
      comparison of the characters, a proper prefix first. */
  predicate LessEq(a: string, b: string)
    decreases |a|
  {
    |a| == 0 || (|b| > 0 && (a[0] < b[0] || (a[0] == b[0] && LessEq(a[1..], b[1..]))))
  }

  lemma {:induction false} LessEqReflexive(a: string)
    ensures LessEq(a, a)
    decreases |a|
  {
    if |a| > 0 { LessEqReflexive(a[1..]); }
  }

  lemma {:induction false} LessEqTotal(a: string, b: string)
    ensures LessEq(a, b) || LessEq(b, a)
    decreases |a|
  {
    if |a| > 0 && |b| > 0 && a[0] == b[0] { LessEqTotal(a[1..], b[1..]); }
  }

  lemma {:induction false} LessEqTransitive(a: string, b: string, c: string)
    requires LessEq(a, b) && LessEq(b, c)
    ensures LessEq(a, c)
    decreases |a|
  {
    if |a| > 0 && a[0] == b[0] && b[0] == c[0] { LessEqTransitive(a[1..], b[1..], c[1..]); }
  }

  lemma {:induction false} LessEqAntisymmetric(a: string, b: string)
    requires LessEq(a, b) && LessEq(b, a)
    ensures a == b
    decreases |a|
  {
    if |a| > 0 {
      LessEqAntisymmetric(a[1..], b[1..]);
      assert a == [a[0]] + a[1..] && b == [b[0]] + b[1..];
    }
  }

  /** `[...names].sort()[0]` for a non-empty list: the least name. */
  function Smallest(names: seq<string>): (r: string)
    requires |names| > 0
    ensures r in names
    ensures forall n :: n in names ==> LessEq(r, n)
  {
    LessEqReflexive(names[0]);
    if |names| == 1 then names[0]
    else
      var m := Smallest(names[1..]);
      LessEqTotal(names[0], m);
      if LessEq(names[0], m) then (BelowAll(names[0], m, names[1..]); names[0]) else m
  }

  lemma BelowAll(a: string, m: string, rest: seq<string>)
    requires LessEq(a, m) && forall n :: n in rest ==> LessEq(m, n)
    ensures forall n :: n in rest ==> LessEq(a, n)
  {
    forall n | n in rest ensures LessEq(a, n) { LessEqTransitive(a, m, n); }
  }

  /** The least element is unique: any element below all others is it. */
  lemma SmallestUnique(names: seq<string>, x: string)
    requires |names| > 0 && x in names
    requires forall n :: n in names ==> LessEq(x, n)
    ensures Smallest(names) == x
  {
    LessEqAntisymmetric(x, Smallest(names));
  }
}
