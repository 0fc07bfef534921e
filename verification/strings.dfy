/** String helpers from Rust's standard library that the model relies on:
    the ordering `Vec<String>::sort` uses, the sort itself, `str::replace`,
    `join` and ASCII case-insensitive comparison. */
module Strings {

  /** `a <= b` in Rust's `String` order: lexicographic over UTF-8 bytes, which
      for valid UTF-8 is the same as lexicographic over code points. */
  predicate LexLe(a: string, b: string)
    decreases |a|
  {
    |a| == 0 || (|b| > 0 && (a[0] < b[0] || (a[0] == b[0] && LexLe(a[1..], b[1..]))))
  }

  lemma {:induction false} LexLeTotal(a: string, b: string)
    ensures LexLe(a, b) || LexLe(b, a)
    decreases |a|
  {
    if |a| > 0 && |b| > 0 && a[0] == b[0] {
      LexLeTotal(a[1..], b[1..]);
    }
  }

  lemma {:induction false} LexLeReflexive(a: string)
    ensures LexLe(a, a)
    decreases |a|
  {
    if |a| > 0 {
      LexLeReflexive(a[1..]);
    }
  }

  lemma {:induction false} LexLeTransitive(a: string, b: string, c: string)
    requires LexLe(a, b) && LexLe(b, c)
    ensures LexLe(a, c)
    decreases |a|
  {
    if |a| > 0 && a[0] == b[0] && b[0] == c[0] {
      LexLeTransitive(a[1..], b[1..], c[1..]);
    }
  }

  lemma {:induction false} LexLeAntisymmetric(a: string, b: string)
    requires LexLe(a, b) && LexLe(b, a)
    ensures a == b
    decreases |a|
  {
    if |a| > 0 {
      LexLeAntisymmetric(a[1..], b[1..]);
      assert a == [a[0]] + a[1..];
      assert b == [b[0]] + b[1..];
    }
  }

  predicate Sorted(xs: seq<string>) {
    forall i, j :: 0 <= i < j < |xs| ==> LexLe(xs[i], xs[j])
  }

  /** Inserts `x` into the sorted `xs` before the first element greater than it. */
  function Insert(x: string, xs: seq<string>): (r: seq<string>)
    requires Sorted(xs)
    ensures Sorted(r)
    ensures multiset(r) == multiset(xs) + multiset{x}
  {
    if |xs| == 0 then [x]
    else if LexLe(x, xs[0]) then
      LexLeTransitiveAll(x, xs);
      [x] + xs
    else
      LexLeTotal(x, xs[0]);
      var rest := Insert(x, xs[1..]);
      assert xs == [xs[0]] + xs[1..];
      InsertHead(xs[0], rest, x, xs[1..]);
      [xs[0]] + rest
  }

  lemma LexLeTransitiveAll(x: string, xs: seq<string>)
    requires Sorted(xs) && |xs| > 0 && LexLe(x, xs[0])
    ensures forall j :: 0 <= j < |xs| ==> LexLe(x, xs[j])
  {
    forall j | 0 <= j < |xs|
      ensures LexLe(x, xs[j])
    {
      if j > 0 {
        LexLeTransitive(x, xs[0], xs[j]);
      }
    }
  }

  /** `h` may head `rest`, the insertion of `x` into `tail`, when it is below `x` and all of `tail`. */
  lemma InsertHead(h: string, rest: seq<string>, x: string, tail: seq<string>)
    requires Sorted(rest) && Sorted([h] + tail)
    requires multiset(rest) == multiset(tail) + multiset{x}
    requires LexLe(h, x)
    ensures Sorted([h] + rest)
  {
    forall j | 0 <= j < |rest|
      ensures LexLe(h, rest[j])
    {
      assert rest[j] in multiset(rest);
      if rest[j] != x {
        assert rest[j] in multiset(tail);
        var k :| 0 <= k < |tail| && tail[k] == rest[j];
        assert ([h] + tail)[0] == h && ([h] + tail)[k + 1] == tail[k];
        assert LexLe(([h] + tail)[0], ([h] + tail)[k + 1]);
      }
    }
  }

  /** `Vec<String>::sort`: the elements of `xs`, in ascending order. */
  function Sort(xs: seq<string>): (r: seq<string>)
    ensures Sorted(r)
    ensures multiset(r) == multiset(xs)
  {
    if |xs| == 0 then []
    else
      assert xs == [xs[0]] + xs[1..];
      Insert(xs[0], Sort(xs[1..]))
  }

  /** A sorted sequence is determined by its elements: sorting is unique. */
  lemma {:induction false} SortedUnique(a: seq<string>, b: seq<string>)
    requires Sorted(a) && Sorted(b) && multiset(a) == multiset(b)
    ensures a == b
    decreases |a|
  {
    if |a| == 0 {
      assert |b| == |multiset(b)| == 0;
    } else {
      SortedSameHead(a, b);
      DropHead(a);
      DropHead(b);
      SortedUnique(a[1..], b[1..]);
      assert a == [a[0]] + a[1..];
      assert b == [b[0]] + b[1..];
    }
  }

  /** Sorted orderings of the same strings start with the same string. */
  lemma SortedSameHead(a: seq<string>, b: seq<string>)
    requires Sorted(a) && Sorted(b) && multiset(a) == multiset(b) && |a| > 0
    ensures |b| > 0 && a[0] == b[0]
  {
    assert |b| == |multiset(b)| == |a|;
    assert a[0] in multiset(b);
    assert b[0] in multiset(a);
    var i :| 0 <= i < |b| && b[i] == a[0];
    var j :| 0 <= j < |a| && a[j] == b[0];
    assert LexLe(b[0], a[0]) by {
      if i > 0 { assert LexLe(b[0], b[i]); } else { LexLeReflexive(a[0]); }
    }
    assert LexLe(a[0], b[0]) by {
      if j > 0 { assert LexLe(a[0], a[j]); } else { LexLeReflexive(b[0]); }
    }
    LexLeAntisymmetric(a[0], b[0]);
  }

  lemma DropHead(a: seq<string>)
    requires |a| > 0
    ensures multiset(a[1..]) == multiset(a) - multiset{a[0]}
  {
    assert a == [a[0]] + a[1..];
  }

  predicate StartsWith(s: string, p: string) {
    |p| <= |s| && s[..|p|] == p
  }

  /** True when `p` occurs in `s` starting at index `i`. */
  predicate OccursAt(s: string, p: string, i: int) {
    0 <= i && i + |p| <= |s| && s[i..i + |p|] == p
  }

  /** True when `p` occurs in `s` at some position. */
  ghost predicate Contains(s: string, p: string) {
    exists i :: OccursAt(s, p, i)
  }

  /** A suffix cut twice. */
  lemma SuffixSplit(s: string, i: int, j: int, k: int)
    requires 0 <= i <= j <= k <= |s|
    ensures s[i..] == s[i..j] + s[j..k] + s[k..]
  {
  }

  /** `s.replace(from, to)` for a non-empty `from`: every non-overlapping
      occurrence, found left to right, is replaced. */
  function ReplaceNonEmpty(s: string, from: string, to: string): string
    requires |from| > 0
    decreases |s|
  {
    if |s| < |from| then s
    else if s[..|from|] == from then to + ReplaceNonEmpty(s[|from|..], from, to)
    else [s[0]] + ReplaceNonEmpty(s[1..], from, to)
  }

  /** `s.replace("", to)`: the empty pattern matches at every character
      boundary, so `to` goes before every character and once at the end. */
  function ReplaceEmpty(s: string, to: string): (r: string)
    ensures |r| == |s| + (|s| + 1) * |to|
  {
    if |s| == 0 then to else to + [s[0]] + ReplaceEmpty(s[1..], to)
  }

  /** Rust's `str::replace`. */
  function ReplaceAll(s: string, from: string, to: string): string {
    if |from| == 0 then ReplaceEmpty(s, to) else ReplaceNonEmpty(s, from, to)
  }

  /** Text without an occurrence of the pattern comes back unchanged. */
  lemma {:induction false} ReplaceAbsent(s: string, from: string, to: string)
    requires |from| > 0 && !Contains(s, from)
    ensures ReplaceAll(s, from, to) == s
    decreases |s|
  {
    if |s| >= |from| {
      assert s[0..|from|] == s[..|from|];
      assert !OccursAt(s, from, 0);
      forall i | 0 <= i && i + |from| <= |s[1..]|
        ensures !OccursAt(s[1..], from, i)
      {
        assert s[1..][i..i + |from|] == s[i + 1..i + 1 + |from|];
        assert !OccursAt(s, from, i + 1);
      }
      ReplaceAbsent(s[1..], from, to);
      assert s == [s[0]] + s[1..];
    }
  }

  /** Replacing a pattern by itself changes nothing. */
  lemma {:induction false} ReplaceBySelf(s: string, from: string)
    ensures ReplaceAll(s, from, from) == s
    decreases |s|
  {
    if |from| == 0 {
      ReplaceEmptyNothing(s);
    } else if |s| >= |from| {
      if s[..|from|] == from {
        ReplaceBySelf(s[|from|..], from);
        assert s == s[..|from|] + s[|from|..];
      } else {
        ReplaceBySelf(s[1..], from);
        assert s == [s[0]] + s[1..];
      }
    }
  }

  lemma {:induction false} ReplaceEmptyNothing(s: string)
    ensures ReplaceEmpty(s, "") == s
    decreases |s|
  {
    if |s| > 0 {
      ReplaceEmptyNothing(s[1..]);
      assert s == [s[0]] + s[1..];
    }
  }

  /** An occurrence at the very start is replaced and scanning resumes after it. */
  lemma ReplaceAtStart(from: string, to: string, rest: string)
    requires |from| > 0
    ensures ReplaceAll(from + rest, from, to) == to + ReplaceAll(rest, from, to)
  {
    var s := from + rest;
    assert s[..|from|] == from;
    assert s[|from|..] == rest;
  }

  /** A character that cannot start an occurrence passes through untouched. */
  lemma ReplaceSkipsChar(c: char, from: string, to: string, rest: string)
    requires |from| > 0 && c != from[0]
    ensures ReplaceAll([c] + rest, from, to) == [c] + ReplaceAll(rest, from, to)
  {
    var s := [c] + rest;
    assert s[1..] == rest;
    if |s| >= |from| {
      assert s[..|from|][0] == c;
    } else {
      assert ReplaceNonEmpty(rest, from, to) == rest;
    }
  }

  /** Where no occurrence starts at the front, the first character is kept
      and scanning moves on by one. */
  lemma ReplaceStep(s: string, from: string, to: string)
    requires |from| > 0 && |s| > 0 && !OccursAt(s, from, 0)
    ensures ReplaceAll(s, from, to) == [s[0]] + ReplaceAll(s[1..], from, to)
  {
    if |s| >= |from| {
      assert s[..|from|] == s[0..|from|];
    } else {
      assert ReplaceNonEmpty(s[1..], from, to) == s[1..];
      assert s == [s[0]] + s[1..];
    }
  }

  lemma OccursAtTail(s: string, p: string, j: int)
    requires |s| > 0 && 0 <= j
    ensures OccursAt(s[1..], p, j) == OccursAt(s, p, j + 1)
  {
    if j + |p| <= |s| - 1 {
      assert s[1..][j..j + |p|] == s[j + 1..j + 1 + |p|];
    }
  }

  /** Text at which no occurrence starts is copied verbatim, and replacement
      carries on after it. */
  lemma {:induction false} ReplaceSkipsPrefix(x: string, from: string, to: string, rest: string)
    requires |from| > 0 && forall j | 0 <= j < |x| :: !OccursAt(x + rest, from, j)
    ensures ReplaceAll(x + rest, from, to) == x + ReplaceAll(rest, from, to)
    decreases |x|
  {
    if |x| > 0 {
      var s := x + rest;
      var tail := x[1..] + rest;
      assert ReplaceAll(s, from, to) == [x[0]] + ReplaceAll(tail, from, to) by {
        assert s[1..] == tail && s[0] == x[0];
        assert !OccursAt(s, from, 0);
        ReplaceStep(s, from, to);
      }
      assert ReplaceAll(tail, from, to) == x[1..] + ReplaceAll(rest, from, to) by {
        forall j | 0 <= j < |x[1..]| ensures !OccursAt(tail, from, j) {
          assert s[1..] == tail;
          OccursAtTail(s, from, j);
        }
        ReplaceSkipsPrefix(x[1..], from, to, rest);
      }
      assert x == [x[0]] + x[1..];
    } else {
      assert x + rest == rest;
    }
  }

  /** The leftmost occurrence is replaced, the text before it is kept, and
      scanning resumes right after it. */
  lemma ReplaceAtFirst(s: string, from: string, to: string, i: int)
    requires |from| > 0 && OccursAt(s, from, i)
    requires forall j | 0 <= j < i :: !OccursAt(s, from, j)
    ensures ReplaceAll(s, from, to) == s[..i] + to + ReplaceAll(s[i + |from|..], from, to)
  {
    assert s[..i] + s[i..] == s;
    ReplaceSkipsPrefix(s[..i], from, to, s[i..]);
    assert s[i..] == from + s[i + |from|..];
    ReplaceAtStart(from, to, s[i + |from|..]);
  }

  /** A pattern whose first character is missing from `x` starts nowhere in `x`. */
  lemma FirstCharAbsent(x: string, rest: string, p: string)
    requires |p| > 0 && p[0] !in x
    ensures forall j | 0 <= j < |x| :: !OccursAt(x + rest, p, j)
  {
    forall j | 0 <= j < |x| ensures !OccursAt(x + rest, p, j) {
      assert (x + rest)[j] == x[j] != p[0];
    }
  }

  /** Replacing in a join by the pattern gives the parts joined by the
      replacement, provided scanning from each part finds the separator
      after it first, that is, no occurrence starts inside a part. */
  lemma {:induction false} ReplaceJoin(parts: seq<string>, from: string, to: string)
    requires |from| > 0
    requires forall k, j | 0 <= k < |parts| && 0 <= j < |parts[k]| :: !OccursAt(Join(parts[k..], from), from, j)
    ensures ReplaceAll(Join(parts, from), from, to) == Join(parts, to)
    decreases |parts|
  {
    assert parts[0..] == parts;
    if |parts| == 1 {
      assert parts[0] + "" == parts[0] == Join(parts, from);
      ReplaceSkipsPrefix(parts[0], from, to, "");
    } else if |parts| > 1 {
      var tail := parts[1..];
      forall k, j | 0 <= k < |tail| && 0 <= j < |tail[k]| ensures !OccursAt(Join(tail[k..], from), from, j) {
        assert tail[k..] == parts[k + 1..];
      }
      ReplaceJoin(tail, from, to);
      var rest := Join(tail, from);
      assert Join(parts, from) == parts[0] + (from + rest);
      ReplaceSkipsPrefix(parts[0], from, to, from + rest);
      ReplaceAtStart(from, to, rest);
      assert Join(parts, to) == parts[0] + (to + Join(tail, to));
    }
  }

  /** `v.join(sep)`. */
  function Join(parts: seq<string>, sep: string): (r: string)
    ensures |parts| == 1 ==> r == parts[0]
  {
    if |parts| == 0 then ""
    else if |parts| == 1 then parts[0]
    else parts[0] + sep + Join(parts[1..], sep)
  }

  /** `char::to_ascii_lowercase`. */
  function AsciiLower(c: char): char {
    if 'A' <= c <= 'Z' then (c as int + 32) as char else c
  }

  /** `str::eq_ignore_ascii_case`. */
  predicate EqIgnoreAsciiCase(a: string, b: string) {
    |a| == |b| && forall i :: 0 <= i < |a| ==> AsciiLower(a[i]) == AsciiLower(b[i])
  }

  predicate IsDigit(c: char) {
    '0' <= c <= '9'
  }

  predicate AllDigits(s: string) {
    forall i :: 0 <= i < |s| ==> IsDigit(s[i])
  }

  // ---- Decimal numerals ----

  /** The decimal digits of `n`, without leading zeros ("0" for zero). */
  function Digits(n: nat): (s: string)
    ensures |s| >= 1 && AllDigits(s)
    ensures n < 10 ==> |s| == 1
    ensures n < 100 ==> |s| <= 2
    ensures n < 10000 ==> |s| <= 4
  {
    if n < 10 then [('0' as int + n) as char]
    else Digits(n / 10) + [('0' as int + n % 10) as char]
  }

  function Zeros(k: nat): (s: string)
    ensures |s| == k && AllDigits(s)
  {
    if k == 0 then "" else "0" + Zeros(k - 1)
  }

  /** `n` zero-padded to at least `width` digits. */
  function Padded(n: nat, width: nat): (s: string)
    ensures AllDigits(s) && |s| >= width
    ensures |Digits(n)| <= width ==> |s| == width
  {
    var d := Digits(n);
    if |d| >= width then d else Zeros(width - |d|) + d
  }

  function DigitValue(c: char): int {
    c as int - '0' as int
  }

  /** The number a string of decimal digits denotes. */
  function DecimalValue(s: string): (n: nat)
    requires AllDigits(s)
  {
    if |s| == 0 then 0 else DecimalValue(s[..|s| - 1]) * 10 + DigitValue(s[|s| - 1])
  }

  /** Reading the digits of `n` back gives `n`. */
  lemma {:induction false} DigitsRoundTrip(n: nat)
    ensures DecimalValue(Digits(n)) == n
  {
    var s := Digits(n);
    if n >= 10 {
      DigitsRoundTrip(n / 10);
      assert s[..|s| - 1] == Digits(n / 10);
    }
  }


  /** Leading zeros do not change the value of a numeral. */
  lemma {:induction false} LeadingZerosValue(k: nat, s: string)
    requires AllDigits(s)
    ensures DecimalValue(Zeros(k) + s) == DecimalValue(s)
    decreases |s|, k
  {
    var t := Zeros(k) + s;
    if |s| > 0 {
      assert t[..|t| - 1] == Zeros(k) + s[..|s| - 1];
      LeadingZerosValue(k, s[..|s| - 1]);
    } else if k > 0 {
      ZerosShift(k);
      assert t == Zeros(k - 1) + "0";
      assert t[..|t| - 1] == Zeros(k - 1) + "";
      LeadingZerosValue(k - 1, "");
    } else {
      assert t == "";
    }
  }

  lemma {:induction false} ZerosShift(k: nat)
    requires k > 0
    ensures Zeros(k) == Zeros(k - 1) + "0"
    decreases k
  {
    if k > 1 {
      ZerosShift(k - 1);
      assert Zeros(k) == "0" + (Zeros(k - 2) + "0");
    }
  }

  /** A zero-padded numeral reads back as its number. */
  lemma PaddedRoundTrip(n: nat, width: nat)
    ensures DecimalValue(Padded(n, width)) == n
  {
    DigitsRoundTrip(n);
    if |Digits(n)| < width {
      LeadingZerosValue(width - |Digits(n)|, Digits(n));
    }
  }

}
