// Shared vocabulary: options, the ASCII part of Python's character classes and
// string methods, order-preserving de-duplication and insertion-ordered grouping
// (the "dict of lists filled in a loop" idiom used throughout the pipelines).
module Common {

  datatype Option<T> = None | Some(value: T)

  // ---------------------------------------------------------------------------
  // Characters (ASCII subset of Python's \s, \d, \w, str.upper and str.lower)
  // ---------------------------------------------------------------------------

  /** Python's ASCII whitespace: space, \t, \n, \v, \f, \r and the separators \x1c to \x1f. */
  predicate IsSpace(c: char) {
    c == ' ' || ('\t' <= c <= '\r') || (28 as char <= c <= 31 as char)
  }
  predicate IsDigit(c: char) { '0' <= c <= '9' }
  predicate IsUpper(c: char) { 'A' <= c <= 'Z' }
  predicate IsLower(c: char) { 'a' <= c <= 'z' }
  predicate IsAlpha(c: char) { IsUpper(c) || IsLower(c) }
  predicate IsWordChar(c: char) { IsAlpha(c) || IsDigit(c) || c == '_' }

  function ToUpper(c: char): char { if IsLower(c) then (c as int - 32) as char else c }
  function ToLower(c: char): char { if IsUpper(c) then (c as int + 32) as char else c }

  function Upper(s: string): (r: string)
    ensures |r| == |s| && forall i {:trigger r[i]} :: 0 <= i < |s| ==> r[i] == ToUpper(s[i])
  {
    seq(|s|, i requires 0 <= i < |s| => ToUpper(s[i]))
  }

  function Lower(s: string): (r: string)
    ensures |r| == |s| && forall i {:trigger r[i]} :: 0 <= i < |s| ==> r[i] == ToLower(s[i])
  {
    seq(|s|, i requires 0 <= i < |s| => ToLower(s[i]))
  }

  predicate AllDigits(s: string) { forall i :: 0 <= i < |s| ==> IsDigit(s[i]) }
  predicate AllUpper(s: string) { forall i :: 0 <= i < |s| ==> IsUpper(s[i]) }
  predicate NoSpace(s: string) { forall i :: 0 <= i < |s| ==> !IsSpace(s[i]) }

  // ---------------------------------------------------------------------------
  // str.strip / str.split / str.join / `in` / startswith / endswith
  // ---------------------------------------------------------------------------

  function StripLeft(s: string): (r: string)
    ensures |r| <= |s| && r == s[|s| - |r|..]
    ensures r == [] || !IsSpace(r[0])
    ensures forall i :: 0 <= i < |s| - |r| ==> IsSpace(s[i])
  {
    if |s| > 0 && IsSpace(s[0]) then StripLeft(s[1..]) else s
  }

  function StripRight(s: string): (r: string)
    ensures |r| <= |s| && r == s[..|r|]
    ensures r == [] || !IsSpace(r[|r| - 1])
    ensures forall i :: |r| <= i < |s| ==> IsSpace(s[i])
  {
    if |s| > 0 && IsSpace(s[|s| - 1]) then StripRight(s[..|s| - 1]) else s
  }

  /** Python's `str.strip()` with no argument. */
  function Strip(s: string): string { StripRight(StripLeft(s)) }

  /** No whitespace at either end. */
  predicate Trimmed(r: string) {
    r == [] || (!IsSpace(r[0]) && !IsSpace(r[|r| - 1]))
  }

  /** A stripped string has no whitespace at either end. */
  lemma StripTrimmed(s: string)
    ensures Trimmed(Strip(s))
  {
    var l := StripLeft(s);
    var r := StripRight(l);
    assert r == [] || r[0] == l[0];
  }

  /** Stripping keeps a string free of adjacent whitespace. */
  lemma StripSingleSpaced(s: string)
    requires SingleSpaced(s)
    ensures SingleSpaced(Strip(s))
  {
    StripLeftSingleSpaced(s);
    StripRightSingleSpaced(StripLeft(s));
  }

  lemma {:induction false} StripLeftSingleSpaced(s: string)
    requires SingleSpaced(s)
    ensures SingleSpaced(StripLeft(s))
    decreases |s|
  {
    if |s| > 0 && IsSpace(s[0]) {
      SingleSpacedSlice(s, 1, |s|);
      assert s[1..|s|] == s[1..];
      StripLeftSingleSpaced(s[1..]);
    }
  }

  lemma {:induction false} StripRightSingleSpaced(s: string)
    requires SingleSpaced(s)
    ensures SingleSpaced(StripRight(s))
    decreases |s|
  {
    if |s| > 0 && IsSpace(s[|s| - 1]) {
      SingleSpacedSlice(s, 0, |s| - 1);
      assert s[0..|s| - 1] == s[..|s| - 1];
      StripRightSingleSpaced(s[..|s| - 1]);
    }
  }

  /** A contiguous part of a string free of adjacent whitespace is free of it too. */
  lemma SingleSpacedSlice(s: string, a: nat, b: nat)
    requires a <= b <= |s| && SingleSpaced(s)
    ensures SingleSpaced(s[a..b])
  {
    var t := s[a..b];
    forall i, j | 0 <= i < |t| && 0 <= j < |t| && j == i + 1 ensures !(IsSpace(t[i]) && IsSpace(t[j])) {
      assert t[i] == s[a + i] && t[j] == s[a + j];
    }
  }

  /** A string without surrounding whitespace is its own strip. */
  lemma StripUnchanged(s: string)
    requires s != [] ==> !IsSpace(s[0]) && !IsSpace(s[|s| - 1])
    ensures Strip(s) == s
  {
  }

  /** A string without lower-case letters is its own upper-case form. */
  lemma UpperUnchanged(s: string)
    requires forall i :: 0 <= i < |s| ==> !IsLower(s[i])
    ensures Upper(s) == s
  {
  }

  predicate IsBlank(s: string) { Strip(s) == [] }

  /** Number of leading non-whitespace characters. */
  function TokenLen(s: string): (n: nat)
    ensures n <= |s|
    ensures forall i :: 0 <= i < n ==> !IsSpace(s[i])
    ensures n < |s| ==> IsSpace(s[n])
  {
    if |s| > 0 && !IsSpace(s[0]) then 1 + TokenLen(s[1..]) else 0
  }

  /** A non-empty run of non-whitespace characters. */
  predicate IsWord(w: string) { w != [] && NoSpace(w) }

  /** Python's `str.split()` with no argument: the maximal runs of non-whitespace. */
  function Words(s: string): (r: seq<string>)
    ensures forall w :: w in r ==> IsWord(w)
    decreases |s|
  {
    var t := StripLeft(s);
    if t == [] then [] else
      var n := TokenLen(t);
      var w := t[..n];
      assert IsWord(w);
      var rest := Words(t[n..]);
      [w] + rest
  }

  function WordCount(s: string): nat { |Words(s)| }

  /** Length of the longest prefix whose characters all satisfy `p`. */
  function SpanLen(s: string, p: char -> bool): (n: nat)
    ensures n <= |s|
    ensures forall i :: 0 <= i < n ==> p(s[i])
    ensures n < |s| ==> !p(s[n])
  {
    if |s| > 0 && p(s[0]) then 1 + SpanLen(s[1..], p) else 0
  }

  /** The span is `n` when the first `n` characters satisfy `p` and the next one does not. */
  lemma {:induction false} SpanLenExact(s: string, p: char -> bool, n: nat)
    requires n <= |s| && (forall i :: 0 <= i < n ==> p(s[i])) && (n < |s| ==> !p(s[n]))
    ensures SpanLen(s, p) == n
  {
    if n > 0 {
      SpanLenExact(s[1..], p, n - 1);
    }
  }

  /** No two whitespace characters are adjacent. */
  predicate SingleSpaced(s: string) {
    forall i, j :: 0 <= i < |s| && 0 <= j < |s| && j == i + 1 ==> !(IsSpace(s[i]) && IsSpace(s[j]))
  }

  /** `re.sub(r"\s+", " ", s)`: every run of whitespace becomes one space. */
  function CollapseSpaces(s: string): (r: string)
    ensures |r| <= |s|
    ensures forall i :: 0 <= i < |r| && IsSpace(r[i]) ==> r[i] == ' '
    ensures SingleSpaced(r)
    ensures (r != [] && IsSpace(r[0])) <==> (s != [] && IsSpace(s[0]))
    ensures r == [] <==> s == []
    decreases |s|
  {
    if |s| == 0 then []
    else if IsSpace(s[0]) then
      var n := SpanLen(s, IsSpace);
      var rest := CollapseSpaces(s[n..]);
      [' '] + rest
    else [s[0]] + CollapseSpaces(s[1..])
  }

  function Join(sep: string, xs: seq<string>): string {
    if |xs| == 0 then []
    else if |xs| == 1 then xs[0]
    else xs[0] + sep + Join(sep, xs[1..])
  }

  predicate StartsWith(s: string, p: string) { |p| <= |s| && s[..|p|] == p }
  predicate EndsWith(s: string, p: string) { |p| <= |s| && s[|s| - |p|..] == p }

  /** Python's `sub in s`. */
  predicate Contains(s: string, sub: string)
    decreases |s|
  {
    StartsWith(s, sub) || (|s| > 0 && Contains(s[1..], sub))
  }

  /** A string without whitespace has nothing to collapse. */
  lemma {:induction false} CollapseNoSpace(s: string)
    requires NoSpace(s)
    ensures CollapseSpaces(s) == s
  {
    if |s| > 0 {
      CollapseNoSpace(s[1..]);
    }
  }

  // ---------------------------------------------------------------------------
  // str.split(sep) and str.replace(old, new)
  // ---------------------------------------------------------------------------

  /** Python's `s.split(sep)` for a non-empty separator: occurrences are taken left to right. */
  function SplitOn(s: string, sep: string): (r: seq<string>)
    requires sep != []
    ensures |r| >= 1
    decreases |s|
  {
    if |s| < |sep| then [s]
    else if s[..|sep|] == sep then [[]] + SplitOn(s[|sep|..], sep)
    else
      var rest := SplitOn(s[1..], sep);
      [[s[0]] + rest[0]] + rest[1..]
  }

  /** Putting a character in front of the first piece puts it in front of the joined string. */
  lemma JoinConsFirst(sep: string, c: char, xs: seq<string>)
    requires |xs| >= 1
    ensures Join(sep, [[c] + xs[0]] + xs[1..]) == [c] + Join(sep, xs)
  {
  }

  /** Splitting and joining back with the same separator gives the string again. */
  lemma {:induction false} JoinSplit(s: string, sep: string)
    requires sep != []
    ensures Join(sep, SplitOn(s, sep)) == s
    decreases |s|
  {
    if |s| < |sep| {
    } else if s[..|sep|] == sep {
      var tail := s[|sep|..];
      var rest := SplitOn(tail, sep);
      JoinSplit(tail, sep);
      assert SplitOn(s, sep) == [[]] + rest;
      JoinEmptyFirst(sep, rest);
      assert s == sep + tail;
    } else {
      var tail := s[1..];
      var rest := SplitOn(tail, sep);
      JoinSplit(tail, sep);
      assert SplitOn(s, sep) == [[s[0]] + rest[0]] + rest[1..];
      JoinConsFirst(sep, s[0], rest);
      assert s == [s[0]] + tail;
    }
  }

  /** An empty first piece contributes only the separator after it. */
  lemma JoinEmptyFirst(sep: string, xs: seq<string>)
    requires |xs| >= 1
    ensures Join(sep, [[]] + xs) == sep + Join(sep, xs)
  {
    assert ([[]] + xs)[1..] == xs;
  }

  /** Python's `s.replace(old, new)` for a non-empty `old`, scanning left to right. */
  function ReplaceAll(s: string, pat: string, rep: string): (r: string)
    requires pat != []
    decreases |s|
  {
    if |s| < |pat| then s
    else if s[..|pat|] == pat then rep + ReplaceAll(s[|pat|..], pat, rep)
    else [s[0]] + ReplaceAll(s[1..], pat, rep)
  }

  /** `s.replace(old, new)` is `new.join(s.split(old))`. */
  lemma {:induction false} ReplaceIsSplitJoin(s: string, pat: string, rep: string)
    requires pat != []
    ensures ReplaceAll(s, pat, rep) == Join(rep, SplitOn(s, pat))
    decreases |s|
  {
    if |s| < |pat| {
    } else if s[..|pat|] == pat {
      ReplaceIsSplitJoin(s[|pat|..], pat, rep);
      var rest := SplitOn(s[|pat|..], pat);
      assert SplitOn(s, pat) == [[]] + rest;
    } else {
      ReplaceIsSplitJoin(s[1..], pat, rep);
      JoinConsFirst(rep, s[0], SplitOn(s[1..], pat));
    }
  }

  // ---------------------------------------------------------------------------
  // Python's string ordering (code point by code point)
  // ---------------------------------------------------------------------------

  predicate LexLe(a: string, b: string) {
    if |a| == 0 then true
    else if |b| == 0 then false
    else if a[0] != b[0] then a[0] < b[0]
    else LexLe(a[1..], b[1..])
  }

  lemma LexLeRefl(a: string)
    ensures LexLe(a, a)
  {
  }

  lemma LexLeTotal(a: string, b: string)
    ensures LexLe(a, b) || LexLe(b, a)
  {
  }

  lemma LexLeTrans(a: string, b: string, c: string)
    requires LexLe(a, b) && LexLe(b, c)
    ensures LexLe(a, c)
  {
  }

  lemma LexLeAntisym(a: string, b: string)
    requires LexLe(a, b) && LexLe(b, a)
    ensures a == b
  {
  }

  /** `min(xs)` (equivalently `sorted(xs)[0]`) for a non-empty list of strings. */
  function MinOf(xs: seq<string>): (m: string)
    requires |xs| > 0
    ensures m in xs
    ensures forall x :: x in xs ==> LexLe(m, x)
  {
    if |xs| == 1 then (LexLeRefl(xs[0]); xs[0])
    else
      var m := MinOf(xs[1..]);
      LexLeRefl(xs[0]);
      LexLeTotal(xs[0], m);
      if LexLe(xs[0], m) then
        assert forall x :: x in xs[1..] ==> LexLe(xs[0], x) by {
          forall x | x in xs[1..] ensures LexLe(xs[0], x) { LexLeTrans(xs[0], m, x); }
        }
        xs[0]
      else m
  }

  // ---------------------------------------------------------------------------
  // Decimal digits
  // ---------------------------------------------------------------------------

  function DigitValue(c: char): nat requires IsDigit(c) { c as int - '0' as int }

  /** Python's `int(s)` on a non-empty run of ASCII digits. */
  function DigitsValue(s: string): nat
    requires AllDigits(s)
  {
    if |s| == 0 then 0 else DigitsValue(s[..|s| - 1]) * 10 + DigitValue(s[|s| - 1])
  }

  /** Python's `str(n)` on a natural number. */
  function NatToString(n: nat): (r: string)
    ensures r != [] && AllDigits(r)
  {
    if n < 10 then [('0' as int + n) as char]
    else NatToString(n / 10) + [('0' as int + n % 10) as char]
  }

  /** Python's `str(i)` on an integer. */
  function IntToString(i: int): string {
    if i < 0 then "-" + NatToString(-i) else NatToString(i)
  }

  /** The digits of `s`, in order (`re.sub(r"\D", "", s)`). */
  function DigitsOf(s: string): (r: string)
    ensures AllDigits(r) && |r| <= |s|
  {
    if |s| == 0 then [] else DigitsOf(s[..|s| - 1]) + (if IsDigit(s[|s| - 1]) then [s[|s| - 1]] else [])
  }

  /** Removing the non-digits of a digit string changes nothing. */
  lemma {:induction false} DigitsOfDigits(s: string)
    requires AllDigits(s)
    ensures DigitsOf(s) == s
  {
    if |s| > 0 {
      DigitsOfDigits(s[..|s| - 1]);
    }
  }

  lemma {:induction false} DigitsOfEmpty(s: string)
    ensures DigitsOf(s) == [] <==> forall i :: 0 <= i < |s| ==> !IsDigit(s[i])
  {
    if |s| > 0 {
      DigitsOfEmpty(s[..|s| - 1]);
      assert forall i :: 0 <= i < |s| - 1 ==> s[..|s| - 1][i] == s[i];
    }
  }

  // ---------------------------------------------------------------------------
  // Sums and counts
  // ---------------------------------------------------------------------------

  function Sum(xs: seq<int>): int {
    if |xs| == 0 then 0 else Sum(xs[..|xs| - 1]) + xs[|xs| - 1]
  }

  function SumReal(xs: seq<real>): real {
    if |xs| == 0 then 0.0 else SumReal(xs[..|xs| - 1]) + xs[|xs| - 1]
  }

  /** Arithmetic mean, or 0.0 for an empty list (`sum(xs) / len(xs) if xs else 0.0`). */
  function Mean(xs: seq<real>): real {
    if |xs| == 0 then 0.0 else SumReal(xs) / (|xs| as real)
  }

  lemma {:induction false} MeanBounds(xs: seq<real>, lo: real, hi: real)
    requires |xs| > 0
    requires forall i :: 0 <= i < |xs| ==> lo <= xs[i] <= hi
    ensures lo <= Mean(xs) <= hi
  {
    SumBounds(xs, lo, hi);
  }

  lemma {:induction false} SumBounds(xs: seq<real>, lo: real, hi: real)
    requires forall i :: 0 <= i < |xs| ==> lo <= xs[i] <= hi
    ensures lo * (|xs| as real) <= SumReal(xs) <= hi * (|xs| as real)
  {
    if |xs| > 0 {
      SumBounds(xs[..|xs| - 1], lo, hi);
    }
  }

  // ---------------------------------------------------------------------------
  // List comprehensions with a condition
  // ---------------------------------------------------------------------------

  /** `[x for x in xs if p(x)]`. */
  function Filter<T(!new)>(xs: seq<T>, p: T -> bool): (r: seq<T>)
    ensures |r| <= |xs|
    ensures forall x :: x in r <==> x in xs && p(x)
  {
    if |xs| == 0 then []
    else
      var r := Filter(xs[..|xs| - 1], p);
      assert xs == xs[..|xs| - 1] + [xs[|xs| - 1]];
      r + (if p(xs[|xs| - 1]) then [xs[|xs| - 1]] else [])
  }

  /** A filter every element passes keeps the list. */
  lemma {:induction false} FilterAll<T(!new)>(xs: seq<T>, p: T -> bool)
    requires forall i :: 0 <= i < |xs| ==> p(xs[i])
    ensures Filter(xs, p) == xs
  {
    if |xs| > 0 {
      FilterAll(xs[..|xs| - 1], p);
    }
  }

  /** A condition and its negation split a list: the two sizes add up. */
  lemma {:induction false} FilterSplit<T(!new)>(xs: seq<T>, p: T -> bool, q: T -> bool)
    requires forall x :: q(x) == !p(x)
    ensures |Filter(xs, p)| + |Filter(xs, q)| == |xs|
  {
    if |xs| > 0 {
      FilterSplit(xs[..|xs| - 1], p, q);
    }
  }

  /** A condition and its negation split a list into two parts that hold its elements between them. */
  lemma {:induction false} FilterPartition<T(!new)>(xs: seq<T>, p: T -> bool, q: T -> bool)
    requires forall i :: 0 <= i < |xs| ==> q(xs[i]) == !p(xs[i])
    ensures multiset(Filter(xs, p)) + multiset(Filter(xs, q)) == multiset(xs)
  {
    if |xs| > 0 {
      var init, x := xs[..|xs| - 1], xs[|xs| - 1];
      FilterPartition(init, p, q);
      var a, b := Filter(init, p), Filter(init, q);
      assert xs == init + [x];
      assert Filter(xs, p) == a + (if p(x) then [x] else []) by {
        FilterSnoc(init, x, p);
      }
      assert Filter(xs, q) == b + (if p(x) then [] else [x]) by {
        FilterSnoc(init, x, q);
      }
      MultisetSnocSplit(a, b, init, x, p(x));
    }
  }

  lemma MultisetSnocSplit<T>(a: seq<T>, b: seq<T>, init: seq<T>, x: T, left: bool)
    requires multiset(a) + multiset(b) == multiset(init)
    ensures multiset(a + (if left then [x] else [])) + multiset(b + (if left then [] else [x])) == multiset(init + [x])
  {
  }

  /** A filter no element passes keeps nothing. */
  lemma {:induction false} FilterNone<T(!new)>(xs: seq<T>, p: T -> bool)
    requires forall i :: 0 <= i < |xs| ==> !p(xs[i])
    ensures Filter(xs, p) == []
  {
    if |xs| > 0 {
      FilterNone(xs[..|xs| - 1], p);
    }
  }

  /** Filtering a concatenation filters each part. */
  lemma {:induction false} FilterAppend<T(!new)>(xs: seq<T>, ys: seq<T>, p: T -> bool)
    ensures Filter(xs + ys, p) == Filter(xs, p) + Filter(ys, p)
    decreases |ys|
  {
    if |ys| == 0 {
      assert xs + ys == xs;
    } else {
      var zs, y := ys[..|ys| - 1], ys[|ys| - 1];
      var t := if p(y) then [y] else [];
      assert Filter(xs + ys, p) == Filter(xs + zs, p) + t by {
        assert xs + ys == (xs + zs) + [y];
        FilterSnoc(xs + zs, y, p);
      }
      assert Filter(ys, p) == Filter(zs, p) + t by {
        assert ys == zs + [y];
        FilterSnoc(zs, y, p);
      }
      FilterAppend(xs, zs, p);
      assert Filter(xs, p) + Filter(zs, p) + t == Filter(xs, p) + (Filter(zs, p) + t);
    }
  }

  /** Filtering a list extended by one element. */
  lemma FilterSnoc<T(!new)>(xs: seq<T>, x: T, p: T -> bool)
    ensures Filter(xs + [x], p) == Filter(xs, p) + (if p(x) then [x] else [])
  {
    assert (xs + [x])[..|xs|] == xs;
  }

  /** Filtering a list given by its first element and the rest. */
  lemma FilterCons<T(!new)>(x: T, xs: seq<T>, p: T -> bool)
    ensures Filter([x] + xs, p) == (if p(x) then [x] else []) + Filter(xs, p)
  {
    FilterAppend([x], xs, p);
    FilterSnoc([], x, p);
    assert [] + [x] == [x];
  }

  /** Filtering by a conjunction is filtering twice, order included. */
  lemma {:induction false} FilterBoth<T(!new)>(xs: seq<T>, p: T -> bool, q: T -> bool, pq: T -> bool)
    requires forall x :: pq(x) == (p(x) && q(x))
    ensures Filter(xs, pq) == Filter(Filter(xs, p), q)
  {
    if |xs| > 0 {
      var ys, y := xs[..|xs| - 1], xs[|xs| - 1];
      assert xs == ys + [y];
      FilterBoth(ys, p, q, pq);
      FilterSnoc(ys, y, p);
      FilterSnoc(ys, y, pq);
      FilterSnoc(Filter(ys, p), y, q);
      if p(y) {
        assert Filter(xs, p) == Filter(ys, p) + [y];
      } else {
        assert Filter(xs, p) == Filter(ys, p);
      }
    }
  }

  /** `[f(x) for x in xs]`. */
  function MapSeq<T, U>(xs: seq<T>, f: T -> U): (r: seq<U>)
    ensures |r| == |xs| && forall i :: 0 <= i < |xs| ==> r[i] == f(xs[i])
  {
    if |xs| == 0 then [] else MapSeq(xs[..|xs| - 1], f) + [f(xs[|xs| - 1])]
  }

  /** Mapping a list given by its first element and the rest. */
  lemma MapSeqCons<T, U>(xs: seq<T>, f: T -> U)
    requires |xs| > 0
    ensures MapSeq(xs, f) == [f(xs[0])] + MapSeq(xs[1..], f)
  {
    var m, t := MapSeq(xs, f), MapSeq(xs[1..], f);
    var r := [f(xs[0])] + t;
    assert |r| == |m|;
    forall i | 0 <= i < |xs|
      ensures r[i] == m[i]
    {
      if i > 0 {
        assert r[i] == t[i - 1] == f(xs[1..][i - 1]);
      }
    }
  }

  /** The lists of `xss` one after another. */
  function Flatten<T>(xss: seq<seq<T>>): seq<T> {
    if |xss| == 0 then [] else xss[0] + Flatten(xss[1..])
  }

  /** Flattening a list extended by one list. */
  lemma {:induction false} FlattenSnoc<T>(xss: seq<seq<T>>, xs: seq<T>)
    ensures Flatten(xss + [xs]) == Flatten(xss) + xs
  {
    if |xss| > 0 {
      assert (xss + [xs])[1..] == xss[1..] + [xs];
      FlattenSnoc(xss[1..], xs);
    }
  }

  /** The append loop building `[f(x) for x in xs]`. */
  method MapInOrder<T, U>(xs: seq<T>, f: T -> U) returns (ys: seq<U>)
    ensures ys == MapSeq(xs, f)
  {
    ys := [];
    for i := 0 to |xs|
      invariant ys == MapSeq(xs[..i], f)
    {
      assert xs[..i + 1][..i] == xs[..i];
      ys := ys + [f(xs[i])];
    }
    assert xs[..|xs|] == xs;
  }

  /** Mapping and then filtering a list extended by one element. */
  lemma FilterMapSnoc<T, U(!new)>(xs: seq<T>, f: T -> U, p: U -> bool, i: nat)
    requires i < |xs|
    ensures Filter(MapSeq(xs[..i + 1], f), p) == Filter(MapSeq(xs[..i], f), p) + (if p(f(xs[i])) then [f(xs[i])] else [])
  {
    assert MapSeq(xs[..i + 1], f) == MapSeq(xs[..i], f) + [f(xs[i])];
    FilterSnoc(MapSeq(xs[..i], f), f(xs[i]), p);
  }

  /** `set(f(x) for x in xs)`. */
  function Image<T, U>(xs: seq<T>, f: T -> U): set<U> {
    set i | 0 <= i < |xs| :: f(xs[i])
  }

  /** A set built from a list has at most one element per entry, and at least one when the list is not empty. */
  lemma {:induction false} ImageSize<T, U>(xs: seq<T>, f: T -> U)
    ensures |Image(xs, f)| <= |xs|
    ensures |xs| > 0 ==> |Image(xs, f)| >= 1
  {
    if |xs| > 0 {
      var p := xs[..|xs| - 1];
      ImageSize(p, f);
      assert Image(xs, f) == Image(p, f) + {f(xs[|xs| - 1])} by {
        forall y | y in Image(xs, f) ensures y in Image(p, f) + {f(xs[|xs| - 1])} {
          var i :| 0 <= i < |xs| && y == f(xs[i]);
          if i < |xs| - 1 { assert p[i] == xs[i]; }
        }
        forall y | y in Image(p, f) ensures y in Image(xs, f) {
          var i :| 0 <= i < |p| && y == f(p[i]);
          assert xs[i] == p[i];
        }
      }
    }
  }

  // ---------------------------------------------------------------------------
  // Order-preserving de-duplication (the `seen` set + `unique` list loop)
  // ---------------------------------------------------------------------------

  predicate NoDuplicates<T(==)>(xs: seq<T>) {
    forall i, j :: 0 <= i < j < |xs| ==> xs[i] != xs[j]
  }

  /** Index of the first occurrence of `x` in `xs`. */
  function FirstIndex<T(==)>(xs: seq<T>, x: T): (k: nat)
    requires x in xs
    ensures k < |xs| && xs[k] == x && x !in xs[..k]
  {
    if xs[0] == x then 0 else
      assert x in xs[1..];
      var k := 1 + FirstIndex(xs[1..], x);
      assert xs[..k] == [xs[0]] + xs[1..][..k - 1];
      k
  }

  /** The elements of `xs` in order of first occurrence, each once. */
  function Dedup<T(==)>(xs: seq<T>): seq<T> {
    if |xs| == 0 then []
    else
      var d := Dedup(xs[..|xs| - 1]);
      if xs[|xs| - 1] in d then d else d + [xs[|xs| - 1]]
  }

  lemma {:induction false} DedupSpec<T>(xs: seq<T>)
    ensures NoDuplicates(Dedup(xs))
    ensures forall x :: x in Dedup(xs) <==> x in xs
    ensures forall i, j :: 0 <= i < j < |Dedup(xs)| ==>
      FirstIndex(xs, Dedup(xs)[i]) < FirstIndex(xs, Dedup(xs)[j])
  {
    if |xs| > 0 {
      var p := xs[..|xs| - 1];
      var x := xs[|xs| - 1];
      DedupSpec(p);
      assert xs == p + [x];
      var d := Dedup(p);
      forall y | y in p ensures FirstIndex(xs, y) == FirstIndex(p, y) {
        FirstIndexPrefix(p, x, y);
      }
      if x !in d {
        assert x !in p;
        assert FirstIndex(xs, x) == |p| by {
          assert xs[..|p|] == p;
        }
        var r := d + [x];
        forall i, j | 0 <= i < j < |r| ensures FirstIndex(xs, r[i]) < FirstIndex(xs, r[j]) {
          if j < |d| {
            assert r[i] == d[i] && r[j] == d[j];
          } else {
            assert r[i] == d[i] && d[i] in d;
          }
        }
      }
    }
  }

  lemma FirstIndexPrefix<T>(p: seq<T>, x: T, y: T)
    requires y in p
    ensures FirstIndex(p + [x], y) == FirstIndex(p, y)
  {
    var k := FirstIndex(p, y);
    assert forall i :: 0 <= i < k ==> p[..k][i] == p[i];
    FirstIndexAt(p + [x], y, k);
  }

  lemma FirstIndexAt<T>(xs: seq<T>, x: T, k: nat)
    requires k < |xs| && xs[k] == x && forall i :: 0 <= i < k ==> xs[i] != x
    ensures FirstIndex(xs, x) == k
  {
    var j := FirstIndex(xs, x);
    assert forall i :: 0 <= i < j ==> xs[..j][i] == xs[i];
  }

  /** De-duplicating a list extended by one element. */
  lemma DedupSnoc<T>(xs: seq<T>, x: T)
    ensures Dedup(xs + [x]) == if x in Dedup(xs) then Dedup(xs) else Dedup(xs) + [x]
  {
    assert (xs + [x])[..|xs|] == xs;
  }

  /** The elements of `Dedup(xs)` are those of `xs`. */
  lemma DedupMembers<T>(xs: seq<T>)
    ensures forall x :: x in Dedup(xs) <==> x in xs
  {
    DedupSpec(xs);
  }

  /** The `seen`/`unique` loop: keep each element the first time it occurs. */
  method DedupInOrder<T(==)>(xs: seq<T>) returns (unique: seq<T>)
    ensures unique == Dedup(xs)
    ensures NoDuplicates(unique) && forall x :: x in unique <==> x in xs
  {
    var seen: set<T> := {};
    unique := [];
    var i := 0;
    while i < |xs|
      invariant 0 <= i <= |xs|
      invariant unique == Dedup(xs[..i])
      invariant forall x :: x in seen <==> x in unique
    {
      assert xs[..i + 1][..i] == xs[..i];
      if xs[i] !in seen {
        seen := seen + {xs[i]};
        unique := unique + [xs[i]];
      }
      i := i + 1;
    }
    assert xs[..|xs|] == xs;
    DedupSpec(xs);
  }

  // ---------------------------------------------------------------------------
  // Insertion-ordered grouping (`groups.setdefault(key(x), []).append(x)`)
  // ---------------------------------------------------------------------------

  /** A Python dict of lists: keys in insertion order plus the lists. */
  datatype Groups<K, T> = Groups(keys: seq<K>, members: map<K, seq<T>>)

  function Keys<T, K>(xs: seq<T>, key: T -> K): (ks: seq<K>)
    ensures |ks| == |xs| && forall i :: 0 <= i < |xs| ==> ks[i] == key(xs[i])
  {
    seq(|xs|, i requires 0 <= i < |xs| => key(xs[i]))
  }

  /** The elements of `xs` whose key is `k`, in input order. */
  function WithKey<T, K(==)>(xs: seq<T>, key: T -> K, k: K): (r: seq<T>)
    ensures |r| <= |xs|
  {
    if |xs| == 0 then []
    else WithKey(xs[..|xs| - 1], key, k) + (if key(xs[|xs| - 1]) == k then [xs[|xs| - 1]] else [])
  }

  /** `groups.setdefault(k, []).append(x)`. */
  function Add<K, T>(g: Groups<K, T>, k: K, x: T): Groups<K, T> {
    if k in g.members then Groups(g.keys, g.members[k := g.members[k] + [x]])
    else Groups(g.keys + [k], g.members[k := [x]])
  }

  /** The keys are distinct and are exactly the dictionary's keys. */
  predicate WellFormed<K, T>(g: Groups<K, T>) {
    NoDuplicates(g.keys) &&
    (forall k :: k in g.keys ==> k in g.members) && (forall k :: k in g.members ==> k in g.keys)
  }

  /** The group sizes, in key order. */
  function Sizes<K, T>(g: Groups<K, T>): seq<int>
    requires WellFormed(g)
  {
    seq(|g.keys|, j requires 0 <= j < |g.keys| => |g.members[g.keys[j]]|)
  }

  /** Appending one element keeps the groups well formed and adds one to the total size. */
  lemma AddSizes<K, T>(g: Groups<K, T>, k: K, x: T)
    requires WellFormed(g)
    ensures WellFormed(Add(g, k, x))
    ensures Sum(Sizes(Add(g, k, x))) == Sum(Sizes(g)) + 1
  {
    var a := Sizes(g);
    var g' := Add(g, k, x);
    if k in g.members {
      var m :| 0 <= m < |g.keys| && g.keys[m] == k;
      var b := Sizes(g');
      forall j | 0 <= j < |a| ensures b[j] == a[j] + (if j == m then 1 else 0) {
        if j != m { assert g.keys[j] != k; }
      }
      SumBump(a, b, m);
    } else {
      assert Sizes(g') == a + [1];
    }
  }

  function GroupBy<T, K(==)>(xs: seq<T>, key: T -> K): Groups<K, T> {
    if |xs| == 0 then Groups([], map[])
    else Add(GroupBy(xs[..|xs| - 1], key), key(xs[|xs| - 1]), xs[|xs| - 1])
  }

  /** The groups together hold every element once: their sizes add up to the input size. */
  lemma {:induction false} GroupBySizes<T, K>(xs: seq<T>, key: T -> K)
    ensures WellFormed(GroupBy(xs, key))
    ensures Sum(Sizes(GroupBy(xs, key))) == |xs|
  {
    if |xs| > 0 {
      GroupBySizes(xs[..|xs| - 1], key);
      AddSizes(GroupBy(xs[..|xs| - 1], key), key(xs[|xs| - 1]), xs[|xs| - 1]);
    }
  }

  /**
   * Grouping is a partition of the input: the keys are the distinct keys in
   * first-seen order, and the group of each key holds exactly the elements
   * with that key, in input order.
   */
  lemma {:induction false} GroupByPartition<T, K>(xs: seq<T>, key: T -> K)
    ensures GroupBy(xs, key).keys == Dedup(Keys(xs, key))
    ensures forall k :: k in GroupBy(xs, key).members <==> k in Keys(xs, key)
    ensures forall k :: k in GroupBy(xs, key).members ==>
      GroupBy(xs, key).members[k] == WithKey(xs, key, k)
    decreases |xs|, 1
  {
    if |xs| > 0 {
      var p := xs[..|xs| - 1];
      GroupByPartition(p, key);
      DedupSpec(Keys(p, key));
      var k := key(xs[|xs| - 1]);
      GroupKeyMember(p, key, k);
      assert Keys(xs, key)[..|xs| - 1] == Keys(p, key);
      var g := GroupBy(p, key);
      if k !in g.members {
        WithKeyAbsent(p, key, k);
      }
    }
  }

  lemma {:induction false} WithKeyAbsent<T, K>(xs: seq<T>, key: T -> K, k: K)
    requires k !in Keys(xs, key)
    ensures WithKey(xs, key, k) == []
  {
    if |xs| > 0 {
      assert Keys(xs, key)[..|xs| - 1] == Keys(xs[..|xs| - 1], key);
      assert Keys(xs, key)[|xs| - 1] == key(xs[|xs| - 1]);
      WithKeyAbsent(xs[..|xs| - 1], key, k);
    }
  }

  lemma {:induction false} GroupKeyMember<T, K>(xs: seq<T>, key: T -> K, k: K)
    ensures k in GroupBy(xs, key).members <==> k in Dedup(Keys(xs, key))
    ensures k in GroupBy(xs, key).members <==> k in Keys(xs, key)
    decreases |xs|, 2
  {
    GroupByPartition(xs, key);
    DedupSpec(Keys(xs, key));
  }

  /** Every element lands in the group of its own key. */
  lemma {:induction false} WithKeyMember<T, K>(xs: seq<T>, key: T -> K, i: nat)
    requires i < |xs|
    ensures xs[i] in WithKey(xs, key, key(xs[i]))
  {
    if i < |xs| - 1 {
      WithKeyMember(xs[..|xs| - 1], key, i);
    }
  }

  /** The group sizes add up to the input size: nothing is lost or duplicated. */
  lemma {:induction false} WithKeySizes<T, K>(xs: seq<T>, key: T -> K, ks: seq<K>)
    requires NoDuplicates(ks)
    requires forall i :: 0 <= i < |xs| ==> key(xs[i]) in ks
    ensures Sum(seq(|ks|, j requires 0 <= j < |ks| => |WithKey(xs, key, ks[j])|)) == |xs|
    decreases |xs|
  {
    var sizes := seq(|ks|, j requires 0 <= j < |ks| => |WithKey(xs, key, ks[j])|);
    if |xs| == 0 {
      SumZero(sizes);
    } else {
      var p := xs[..|xs| - 1];
      WithKeySizes(p, key, ks);
      var before := seq(|ks|, j requires 0 <= j < |ks| => |WithKey(p, key, ks[j])|);
      assert key(xs[|xs| - 1]) in ks;
      var m :| 0 <= m < |ks| && ks[m] == key(xs[|xs| - 1]);
      forall j | 0 <= j < |ks| ensures sizes[j] == before[j] + (if j == m then 1 else 0) {
        if j != m { assert ks[j] != ks[m] || j == m; }
      }
      SumBump(before, sizes, m);
    }
  }

  lemma {:induction false} SumZero(xs: seq<int>)
    requires forall i :: 0 <= i < |xs| ==> xs[i] == 0
    ensures Sum(xs) == 0
  {
    if |xs| > 0 { SumZero(xs[..|xs| - 1]); }
  }

  lemma {:induction false} SumBump(a: seq<int>, b: seq<int>, m: nat)
    requires |a| == |b| && m < |a|
    requires forall j :: 0 <= j < |a| ==> b[j] == a[j] + (if j == m then 1 else 0)
    ensures Sum(b) == Sum(a) + 1
  {
    var n := |a| - 1;
    if m == n {
      assert a[..n] == b[..n];
    } else {
      SumBump(a[..n], b[..n], m);
    }
  }

  /** The grouping loop: one pass, appending each element to its key's list. */
  method GroupInOrder<T, K(==)>(xs: seq<T>, key: T -> K) returns (g: Groups<K, T>)
    ensures g == GroupBy(xs, key)
    ensures g.keys == Dedup(Keys(xs, key))
    ensures forall k :: k in g.members ==> g.members[k] == WithKey(xs, key, k)
  {
    var keys: seq<K> := [];
    var members: map<K, seq<T>> := map[];
    var i := 0;
    while i < |xs|
      invariant 0 <= i <= |xs|
      invariant Groups(keys, members) == GroupBy(xs[..i], key)
    {
      assert xs[..i + 1][..i] == xs[..i];
      var k := key(xs[i]);
      if k in members {
        members := members[k := members[k] + [xs[i]]];
      } else {
        keys := keys + [k];
        members := members[k := [xs[i]]];
      }
      i := i + 1;
    }
    assert xs[..|xs|] == xs;
    g := Groups(keys, members);
    GroupByPartition(xs, key);
  }
}
