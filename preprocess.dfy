// Review preprocessing: text normalisation, the word-count filter and the
// greedy near-duplicate removal. The sentence-embedding similarity is an input
// (a square matrix, or a function of two texts); the URL and emoji removal is
// an opaque character filter passed in by the caller.
module Preprocess {
  import opened Common
  import opened Json
  import opened ProfessorSchemas

  // ---------------------------------------------------------------------------
  // normalize_text
  // ---------------------------------------------------------------------------

  /** No run of three or more `c`. */
  predicate NoRun3(s: string, c: char) {
    forall i :: 0 <= i < |s| - 2 ==> !(s[i] == c && s[i + 1] == c && s[i + 2] == c)
  }

  /** `re.sub(c + "{3,}", c + c, s)`: every run of `c` longer than two is cut to two. */
  function CapRun(s: string, c: char): (r: string)
    ensures |r| <= |s| && (r == [] <==> s == [])
    ensures NoRun3(r, c)
    ensures s != [] && s[0] != c ==> r[0] == s[0]
    ensures r != [] && r[0] != c ==> s[0] == r[0]
    decreases |s|
  {
    if |s| == 0 then []
    else if s[0] == c then
      var n := SpanLen(s, (x: char) => x == c);
      var run := if n >= 3 then [c, c] else s[..n];
      var rest := CapRun(s[n..], c);
      assert rest != [] ==> rest[0] != c;
      NoRun3AfterShortRun(run, rest, c);
      run + rest
    else
      var rest := CapRun(s[1..], c);
      NoRun3Cons(s[0], rest, c);
      [s[0]] + rest
  }

  /** At most two `c` in front of a string that has no long run and does not start with `c`. */
  lemma NoRun3AfterShortRun(run: string, rest: string, c: char)
    requires |run| <= 2 && (forall i :: 0 <= i < |run| ==> run[i] == c)
    requires NoRun3(rest, c) && (rest != [] ==> rest[0] != c)
    ensures NoRun3(run + rest, c)
  {
    var r := run + rest;
    assert forall i :: |run| <= i < |r| ==> r[i] == rest[i - |run|];
  }

  /** A character other than `c` in front keeps a string free of long runs of `c`. */
  lemma NoRun3Cons(x: char, rest: string, c: char)
    requires x != c && NoRun3(rest, c)
    ensures NoRun3([x] + rest, c)
  {
    var r := [x] + rest;
    assert forall i :: 1 <= i < |r| ==> r[i] == rest[i - 1];
  }

  /** A suffix keeps the absence of long runs. */
  lemma NoRun3Suffix(s: string, c: char, n: nat)
    requires NoRun3(s, c) && n <= |s|
    ensures NoRun3(s[n..], c)
  {
    assert forall i :: 0 <= i < |s| - n ==> s[n..][i] == s[n + i];
  }

  /** Cutting runs of one character creates no long run of another. */
  lemma {:induction false} CapRunKeeps(s: string, c: char, d: char)
    requires c != d && NoRun3(s, d)
    ensures NoRun3(CapRun(s, c), d)
    decreases |s|, 1
  {
    if |s| > 0 {
      if s[0] == c {
        CapRunKeepsAtRun(s, c, d);
      } else {
        CapRunKeepsAtOther(s, c, d);
      }
    }
  }

  lemma {:induction false} CapRunKeepsAtRun(s: string, c: char, d: char)
    requires c != d && NoRun3(s, d) && |s| > 0 && s[0] == c
    ensures NoRun3(CapRun(s, c), d)
    decreases |s|, 0
  {
    var r := CapRun(s, c);
    var n := SpanLen(s, (x: char) => x == c);
    NoRun3Suffix(s, d, n);
    CapRunKeeps(s[n..], c, d);
    var run := if n >= 3 then [c, c] else s[..n];
    var rest := CapRun(s[n..], c);
    assert r == run + rest;
    assert forall i :: |run| <= i < |r| ==> r[i] == rest[i - |run|];
  }

  lemma {:induction false} CapRunKeepsAtOther(s: string, c: char, d: char)
    requires c != d && NoRun3(s, d) && |s| > 0 && s[0] != c
    ensures NoRun3(CapRun(s, c), d)
    decreases |s|, 0
  {
    var r := CapRun(s, c);
    NoRun3Suffix(s, d, 1);
    CapRunKeeps(s[1..], c, d);
    var rest := CapRun(s[1..], c);
    assert r == [s[0]] + rest;
    assert forall i :: 1 <= i < |r| ==> r[i] == rest[i - 1];
  }

  /** The first character of a collapsed string, when not whitespace, is the input's first character. */
  lemma CollapseHead(t: string)
    ensures t != [] && !IsSpace(t[0]) ==> CollapseSpaces(t) == [t[0]] + CollapseSpaces(t[1..])
    ensures CollapseSpaces(t) != [] && !IsSpace(CollapseSpaces(t)[0]) ==> CollapseSpaces(t)[0] == t[0]
  {
  }

  /** Collapsing whitespace creates no long run of a non-space character. */
  lemma {:induction false} CollapseKeeps(s: string, c: char)
    requires !IsSpace(c) && NoRun3(s, c)
    ensures NoRun3(CollapseSpaces(s), c)
    decreases |s|
  {
    if |s| > 0 {
      var r := CollapseSpaces(s);
      if IsSpace(s[0]) {
        var n := SpanLen(s, IsSpace);
        NoRun3Suffix(s, c, n);
        CollapseKeeps(s[n..], c);
        var rest := CollapseSpaces(s[n..]);
        assert r == [' '] + rest;
        assert forall i :: 1 <= i < |r| ==> r[i] == rest[i - 1];
      } else {
        NoRun3Suffix(s, c, 1);
        CollapseKeeps(s[1..], c);
        var rest := CollapseSpaces(s[1..]);
        assert r == [s[0]] + rest;
        assert forall i :: 1 <= i < |r| ==> r[i] == rest[i - 1];
        if |r| > 2 && r[0] == c && r[1] == c {
          CollapseHead(s[1..]);
          assert s[1] == c;
          CollapseHead(s[2..]);
          assert s[1..][1..] == s[2..];
          assert rest[1] == CollapseSpaces(s[2..])[0];
          assert r[2] != c;
        }
      }
    }
  }

  /** `str.strip()` returns a contiguous part of its input, without surrounding whitespace. */
  function StripOffset(s: string): (off: nat)
    ensures SliceAt(s, Strip(s), off)
    ensures Trimmed(Strip(s))
  {
    StripTrimmed(s);
    StripIsSlice(s);
    |s| - |StripLeft(s)|
  }

  lemma StripIsSlice(s: string)
    ensures SliceAt(s, Strip(s), |s| - |StripLeft(s)|)
  {
    var l := StripLeft(s);
    PrefixOfSuffix(s, |s| - |l|, l, StripRight(l));
  }

  /** A prefix of a suffix of `s` is a slice of `s`. */
  lemma PrefixOfSuffix<T>(s: seq<T>, off: nat, l: seq<T>, r: seq<T>)
    requires off <= |s| && l == s[off..] && |r| <= |l| && r == l[..|r|]
    ensures off + |r| <= |s| && forall i :: 0 <= i < |r| ==> r[i] == s[off + i]
  {
  }

  /** `u` is the part of `t` starting at `off`. */
  predicate SliceAt(t: string, u: string, off: nat) {
    off + |u| <= |t| && forall i :: 0 <= i < |u| ==> u[i] == t[off + i]
  }

  lemma SliceSingleSpaced(t: string, u: string, off: nat)
    requires SliceAt(t, u, off) && SingleSpaced(t)
    ensures SingleSpaced(u)
  {
    forall i, j | 0 <= i < j < |u| && j == i + 1 ensures !(IsSpace(u[i]) && IsSpace(u[j])) {
      assert u[i] == t[off + i] && u[j] == t[off + j];
    }
  }

  lemma SliceNoRun3(t: string, u: string, off: nat, c: char)
    requires SliceAt(t, u, off) && NoRun3(t, c)
    ensures NoRun3(u, c)
  {
    forall i | 0 <= i < |u| - 2 ensures !(u[i] == c && u[i + 1] == c && u[i + 2] == c) {
      assert u[i] == t[off + i] && u[i + 1] == t[off + i + 1] && u[i + 2] == t[off + i + 2];
    }
  }

  /** The three `re.sub` calls on repeated punctuation, in source order. */
  function SquashPunctuation(t: string): (r: string)
    ensures NoRun3(r, '!') && NoRun3(r, '?') && NoRun3(r, '.')
  {
    var t1 := CapRun(t, '!');
    var t2 := CapRun(t1, '?');
    CapRunKeeps(t1, '?', '!');
    CapRunKeeps(t2, '.', '!');
    CapRunKeeps(t2, '.', '?');
    CapRun(t2, '.')
  }

  /** The only whitespace character is the plain space. */
  predicate PlainSpaces(r: string) {
    forall i :: 0 <= i < |r| && IsSpace(r[i]) ==> r[i] == ' '
  }

  /** `re.sub(r"\s+", " ", t).strip()`. */
  function CollapseAndStrip(t: string): (r: string)
    ensures Trimmed(r) && SingleSpaced(r) && PlainSpaces(r)
  {
    StripCollapsed(t);
    Strip(CollapseSpaces(t))
  }

  /** Stripping a collapsed text keeps it single-spaced with plain spaces, and trims it. */
  lemma StripCollapsed(t: string)
    ensures var r := Strip(CollapseSpaces(t)); Trimmed(r) && SingleSpaced(r) && PlainSpaces(r)
  {
    var t4 := CollapseSpaces(t);
    var off := StripOffset(t4);
    SliceSingleSpaced(t4, Strip(t4), off);
  }

  /** Collapsing and stripping creates no long run of a non-space character. */
  lemma CollapseAndStripKeeps(t: string, c: char)
    requires !IsSpace(c) && NoRun3(t, c)
    ensures NoRun3(CollapseAndStrip(t), c)
  {
    var t4 := CollapseSpaces(t);
    assert CollapseAndStrip(t) == Strip(t4);
    assert NoRun3(t4, c) by { CollapseKeeps(t, c); }
    var off := StripOffset(t4);
    SliceNoRun3(t4, Strip(t4), off, c);
  }

  /**
   * What normalisation guarantees: no surrounding whitespace, single plain
   * spaces, and no run of three or more '!', '?' or '.'.
   */
  predicate Normalized(r: string) {
    Trimmed(r) && SingleSpaced(r) && PlainSpaces(r) &&
    NoRun3(r, '!') && NoRun3(r, '?') && NoRun3(r, '.')
  }

  /** The last two steps of normalisation establish its guarantees whatever their input. */
  lemma SquashedIsNormalized(t: string)
    ensures Normalized(CollapseAndStrip(SquashPunctuation(t)))
  {
    CollapsedNormalized(SquashPunctuation(t));
  }

  /** Collapsing and stripping a text without long punctuation runs normalizes it. */
  lemma CollapsedNormalized(squashed: string)
    requires NoRun3(squashed, '!') && NoRun3(squashed, '?') && NoRun3(squashed, '.')
    ensures Normalized(CollapseAndStrip(squashed))
  {
    assert !IsSpace('!') && !IsSpace('?') && !IsSpace('.');
    CollapseAndStripKeeps(squashed, '!');
    CollapseAndStripKeeps(squashed, '?');
    CollapseAndStripKeeps(squashed, '.');
  }

  /** `normalize_text`: the text cleaned of URLs and emoji, runs of ! ? . cut to two, whitespace collapsed and stripped. */
  function NormalizeText(text: Json, stripUrlsAndEmoji: string -> string): (r: string)
    ensures !(text.JStr? && text.s != []) ==> r == []
    ensures Normalized(r)
  {
    if !text.JStr? || text.s == [] then []
    else
      var cleaned := stripUrlsAndEmoji(text.s);
      SquashedIsNormalized(cleaned);
      CollapseAndStrip(SquashPunctuation(cleaned))
  }

  /** `word_count`: the number of whitespace-separated tokens. */
  function WordCountOf(text: string): (n: nat)
    ensures n == 0 <==> IsBlank(text)
  {
    BlankNoWords(text);
    |Words(text)|
  }

  /** A string has no words exactly when it is blank. */
  lemma BlankNoWords(s: string)
    ensures Words(s) == [] <==> IsBlank(s)
  {
    var t := StripLeft(s);
    if t != [] {
      assert Strip(s) != [] by {
        assert !IsSpace(t[0]);
        assert StripRight(t) != [];
      }
    }
  }

  // ---------------------------------------------------------------------------
  // filter_by_length
  // ---------------------------------------------------------------------------

  predicate LongEnough(r: ProcessedReview) { r.wordCount >= MinReviewLength }

  /** `filter_by_length`: the reviews with at least eight words, in order. */
  function FilterByLength(reviews: seq<ProcessedReview>): (r: seq<ProcessedReview>)
    ensures |r| <= |reviews|
    ensures forall x :: x in r <==> x in reviews && x.wordCount >= MinReviewLength
  {
    Filter(reviews, LongEnough)
  }

  /** The filter keeps and drops complementary parts: the two counts add up to the input size. */
  lemma FilterByLengthSplits(reviews: seq<ProcessedReview>)
    ensures |FilterByLength(reviews)| + |Filter(reviews, (x: ProcessedReview) => !LongEnough(x))| == |reviews|
  {
    FilterSplit(reviews, LongEnough, (x: ProcessedReview) => !LongEnough(x));
  }

  // ---------------------------------------------------------------------------
  // deduplicate_reviews
  // ---------------------------------------------------------------------------

  /** An n-by-n matrix. */
  predicate Square(sim: seq<seq<real>>, n: nat) {
    |sim| == n && forall i :: 0 <= i < n ==> |sim[i]| == n
  }

  /** Some kept review is at least `threshold` similar to review `j`. */
  predicate Marked(sim: seq<seq<real>>, threshold: real, kept: seq<nat>, j: nat)
    requires Square(sim, |sim|) && j < |sim|
    requires forall m :: 0 <= m < |kept| ==> kept[m] < |sim|
  {
    exists m :: 0 <= m < |kept| && sim[kept[m]][j] >= threshold
  }

  /** The indices the greedy pass keeps among the first `k`: each one not marked by an earlier kept one. */
  function KeptIndices(sim: seq<seq<real>>, threshold: real, k: nat): (r: seq<nat>)
    requires Square(sim, |sim|) && k <= |sim|
    ensures forall m :: 0 <= m < |r| ==> r[m] < k
    ensures forall a, b :: 0 <= a < b < |r| ==> r[a] < r[b]
  {
    if k == 0 then []
    else
      var prev := KeptIndices(sim, threshold, k - 1);
      if Marked(sim, threshold, prev, k - 1) then prev else prev + [k - 1]
  }

  /** The reviews at the given indices, in that order. */
  function Pick<R>(xs: seq<R>, idx: seq<nat>): (r: seq<R>)
    requires forall m :: 0 <= m < |idx| ==> idx[m] < |xs|
    ensures |r| == |idx| && forall m :: 0 <= m < |idx| ==> r[m] == xs[idx[m]]
  {
    seq(|idx|, m requires 0 <= m < |idx| => xs[idx[m]])
  }

  /** Picking only ever returns elements of the list picked from. */
  lemma PickFrom<R>(xs: seq<R>, idx: seq<nat>)
    requires forall m :: 0 <= m < |idx| ==> idx[m] < |xs|
    ensures forall x :: x in Pick(xs, idx) ==> x in xs
  {
    forall x | x in Pick(xs, idx) ensures x in xs {
      var m :| 0 <= m < |idx| && Pick(xs, idx)[m] == x;
    }
  }

  /** An index is kept exactly when no kept index before it marks it. */
  lemma {:induction false} KeptMembership(sim: seq<seq<real>>, threshold: real, k: nat, j: nat)
    requires Square(sim, |sim|) && j < k <= |sim|
    ensures j in KeptIndices(sim, threshold, k) <==> !Marked(sim, threshold, KeptIndices(sim, threshold, j), j)
    decreases k
  {
    if j < k - 1 {
      KeptMembership(sim, threshold, k - 1, j);
    }
  }

  /** Index 0 is always kept first. */
  lemma {:induction false} KeptStartsWithFirst(sim: seq<seq<real>>, threshold: real, k: nat)
    requires Square(sim, |sim|) && 0 < k <= |sim|
    ensures |KeptIndices(sim, threshold, k)| > 0 && KeptIndices(sim, threshold, k)[0] == 0
    decreases k
  {
    if k > 1 {
      KeptStartsWithFirst(sim, threshold, k - 1);
    }
  }

  /** No index in `kept` is `threshold`-similar to a later one. */
  predicate Apart(sim: seq<seq<real>>, threshold: real, kept: seq<nat>)
    requires Square(sim, |sim|) && forall m :: 0 <= m < |kept| ==> kept[m] < |sim|
  {
    forall a, b :: 0 <= a < b < |kept| ==> sim[kept[a]][kept[b]] < threshold
  }

  /** No kept review is a near-duplicate of an earlier kept review. */
  lemma {:induction false} KeptApart(sim: seq<seq<real>>, threshold: real, k: nat)
    requires Square(sim, |sim|) && k <= |sim|
    ensures Apart(sim, threshold, KeptIndices(sim, threshold, k))
    decreases k
  {
    if k > 0 {
      KeptApart(sim, threshold, k - 1);
      var prev := KeptIndices(sim, threshold, k - 1);
      var r := KeptIndices(sim, threshold, k);
      if !Marked(sim, threshold, prev, k - 1) {
        assert r == prev + [k - 1];
        forall a, b | 0 <= a < b < |r| ensures sim[r[a]][r[b]] < threshold {
          if b == |prev| {
            assert r[a] == prev[a] && r[b] == k - 1;
            assert !(0 <= a < |prev| && sim[prev[a]][k - 1] >= threshold);
          } else {
            assert r[a] == prev[a] && r[b] == prev[b];
          }
        }
      }
    }
  }

  /** Every dropped review is a near-duplicate of an earlier kept review. */
  lemma DroppedMarked(sim: seq<seq<real>>, threshold: real, k: nat, j: nat)
    requires Square(sim, |sim|) && j < k <= |sim|
    requires j !in KeptIndices(sim, threshold, k)
    ensures exists m :: (0 <= m < |KeptIndices(sim, threshold, k)| &&
      KeptIndices(sim, threshold, k)[m] < j && sim[KeptIndices(sim, threshold, k)[m]][j] >= threshold)
  {
    var m := DroppedWitness(sim, threshold, k, j);
  }

  /** The position among the kept indices of one that marks the dropped index `j`. */
  lemma {:induction false} DroppedWitness(sim: seq<seq<real>>, threshold: real, k: nat, j: nat) returns (m: nat)
    requires Square(sim, |sim|) && j < k <= |sim|
    requires j !in KeptIndices(sim, threshold, k)
    ensures var r := KeptIndices(sim, threshold, k);
      m < |r| && r[m] < j && sim[r[m]][j] >= threshold
    decreases k
  {
    var prev := KeptIndices(sim, threshold, k - 1);
    KeptExtends(sim, threshold, k);
    if j < k - 1 {
      m := DroppedWitness(sim, threshold, k - 1, j);
    } else {
      m := DroppedLast(sim, threshold, k);
    }
    assert KeptIndices(sim, threshold, k)[m] == prev[m];
  }

  /** The newest index, when dropped, is marked by some kept index. */
  lemma DroppedLast(sim: seq<seq<real>>, threshold: real, k: nat) returns (m: nat)
    requires Square(sim, |sim|) && 0 < k <= |sim|
    requires k - 1 !in KeptIndices(sim, threshold, k)
    ensures var prev := KeptIndices(sim, threshold, k - 1);
      m < |prev| && prev[m] < k - 1 && sim[prev[m]][k - 1] >= threshold
  {
    var prev := KeptIndices(sim, threshold, k - 1);
    KeptExtends(sim, threshold, k);
    LastKept(prev + [k - 1], k - 1);
    assert Marked(sim, threshold, prev, k - 1);
    m :| 0 <= m < |prev| && sim[prev[m]][k - 1] >= threshold;
  }

  /** One more step of the greedy pass keeps what was kept, and adds the new index exactly when it is not marked. */
  lemma KeptExtends(sim: seq<seq<real>>, threshold: real, k: nat)
    requires Square(sim, |sim|) && 0 < k <= |sim|
    ensures var prev := KeptIndices(sim, threshold, k - 1);
      KeptIndices(sim, threshold, k) ==
        if Marked(sim, threshold, prev, k - 1) then prev else prev + [k - 1]
  {
  }

  /** The last element of a sequence is in it. */
  lemma LastKept(r: seq<nat>, j: nat)
    requires r != [] && r[|r| - 1] == j
    ensures j in r
  {
  }

  /** Marking by one more kept index. */
  lemma MarkedSnoc(sim: seq<seq<real>>, threshold: real, kept: seq<nat>, i: nat, j: nat)
    requires Square(sim, |sim|) && i < |sim| && j < |sim|
    requires forall m :: 0 <= m < |kept| ==> kept[m] < |sim|
    ensures Marked(sim, threshold, kept + [i], j) <==> Marked(sim, threshold, kept, j) || sim[i][j] >= threshold
  {
    var k2 := kept + [i];
    if Marked(sim, threshold, kept, j) {
      var m :| 0 <= m < |kept| && sim[kept[m]][j] >= threshold;
      assert k2[m] == kept[m];
    }
    if sim[i][j] >= threshold {
      assert k2[|kept|] == i;
    }
  }

  /** `deduplicate_reviews`: keep a review unless an earlier kept one marked it as near-identical. */
  method DeduplicateReviews<R>(reviews: seq<R>, sim: seq<seq<real>>, threshold: real) returns (unique: seq<R>)
    requires Square(sim, |reviews|)
    ensures |reviews| < 2 ==> unique == reviews
    ensures unique == Pick(reviews, KeptIndices(sim, threshold, |reviews|))
  {
    if |reviews| < 2 {
      assert KeptIndices(sim, threshold, 0) == [];
      if |reviews| == 1 {
        assert KeptIndices(sim, threshold, 1) == [0];
      }
      return reviews;
    }
    var seen: set<nat> := {};
    unique := [];
    ghost var kept: seq<nat> := [];
    for i := 0 to |reviews|
      invariant kept == KeptIndices(sim, threshold, i)
      invariant unique == Pick(reviews, kept)
      invariant forall j :: i <= j < |reviews| ==> (j in seen <==> Marked(sim, threshold, kept, j))
    {
      if i in seen {
        continue;
      }
      unique := unique + [reviews[i]];
      forall j | i < j < |reviews| ensures Marked(sim, threshold, kept + [i], j) <==> Marked(sim, threshold, kept, j) || sim[i][j] >= threshold {
        MarkedSnoc(sim, threshold, kept, i, j);
      }
      kept := kept + [i];
      seen := seen + set j: nat | j < |reviews| && sim[i][j] >= threshold;
    }
  }

  // ---------------------------------------------------------------------------
  // process_reviews
  // ---------------------------------------------------------------------------

  /** A processed review whose text is the normalised original and whose count is that text's word count. */
  predicate WellProcessed(r: ProcessedReview, stripUrlsAndEmoji: string -> string) {
    r.text == NormalizeText(r.originalText, stripUrlsAndEmoji) && r.wordCount == |Words(r.text)|
  }

  /** The review text, with a missing or falsy one read as "" (`review.get("review_text", "") or ""`). */
  function OriginalText(review: Dict): (t: Json)
    ensures Truthy(t) || t == JStr("")
    ensures t != JStr("") ==> "review_text" in review && t == review["review_text"]
  {
    var given := GetOr(review, "review_text", JStr(""));
    if Truthy(given) then given else JStr("")
  }

  /** One raw review dictionary turned into a processed review. */
  function ToProcessed(review: Dict, stripUrlsAndEmoji: string -> string): (r: ProcessedReview)
    ensures r.originalText == OriginalText(review)
    ensures WellProcessed(r, stripUrlsAndEmoji)
  {
    var original := OriginalText(review);
    var text := NormalizeText(original, stripUrlsAndEmoji);
    ProcessedReview(GetOr(review, "id", JStr("")), GetOr(review, "professor_id", JStr("")),
      AsOptStr(Get(review, "course_code")), text, original, WordCountOf(text))
  }

  /** The similarity matrix of the reviews' texts. */
  function SimilarityMatrix(reviews: seq<ProcessedReview>, similarity: (string, string) -> real): (sim: seq<seq<real>>)
    ensures Square(sim, |reviews|)
  {
    seq(|reviews|, i requires 0 <= i < |reviews| =>
      seq(|reviews|, j requires 0 <= j < |reviews| => similarity(reviews[i].text, reviews[j].text)))
  }

  /** What `process_reviews` returns. */
  function Processed(reviews: seq<Dict>, deduplicate: bool, stripUrlsAndEmoji: string -> string,
                     similarity: (string, string) -> real): seq<ProcessedReview>
  {
    var long := FilterByLength(ProcessAll(reviews, stripUrlsAndEmoji));
    if deduplicate && |long| > 1 then
      Pick(long, KeptIndices(SimilarityMatrix(long, similarity), DeduplicationThreshold, |long|))
    else long
  }

  /** Every raw review processed, in order. */
  function ProcessAll(reviews: seq<Dict>, stripUrlsAndEmoji: string -> string): seq<ProcessedReview> {
    MapSeq(reviews, (d: Dict) => ToProcessed(d, stripUrlsAndEmoji))
  }

  /** `process_reviews`: normalise each review, drop the short ones, then drop near-duplicates. */
  method ProcessReviews(reviews: seq<Dict>, deduplicate: bool, stripUrlsAndEmoji: string -> string,
                        similarity: (string, string) -> real) returns (processed: seq<ProcessedReview>)
    ensures processed == Processed(reviews, deduplicate, stripUrlsAndEmoji, similarity)
  {
    var all := MapInOrder(reviews, (d: Dict) => ToProcessed(d, stripUrlsAndEmoji));
    processed := FilterByLength(all);
    if deduplicate && |processed| > 1 {
      processed := DeduplicateReviews(processed, SimilarityMatrix(processed, similarity), DeduplicationThreshold);
    }
  }

  /**
   * `process_reviews` never grows the list, and every review it returns has
   * at least eight words and carries the normalised form of its original text.
   */
  lemma ProcessedReviewsValid(reviews: seq<Dict>, deduplicate: bool, stripUrlsAndEmoji: string -> string,
                              similarity: (string, string) -> real)
    ensures |Processed(reviews, deduplicate, stripUrlsAndEmoji, similarity)| <= |reviews|
    ensures forall x :: x in Processed(reviews, deduplicate, stripUrlsAndEmoji, similarity) ==>
      LongEnough(x) && WellProcessed(x, stripUrlsAndEmoji)
  {
    var all := ProcessAll(reviews, stripUrlsAndEmoji);
    var long := FilterByLength(all);
    var out := Processed(reviews, deduplicate, stripUrlsAndEmoji, similarity);
    forall x | x in all ensures WellProcessed(x, stripUrlsAndEmoji) {
      var i :| 0 <= i < |all| && all[i] == x;
    }
    if deduplicate && |long| > 1 {
      var sim := SimilarityMatrix(long, similarity);
      var kept := KeptIndices(sim, DeduplicationThreshold, |long|);
      assert out == Pick(long, kept);
      KeptBound(sim, DeduplicationThreshold, |long|);
      PickFrom(long, kept);
    }
  }

  /** The greedy pass keeps at most as many reviews as it reads. */
  lemma {:induction false} KeptBound(sim: seq<seq<real>>, threshold: real, k: nat)
    requires Square(sim, |sim|) && k <= |sim|
    ensures |KeptIndices(sim, threshold, k)| <= k
  {
    if k > 0 {
      KeptBound(sim, threshold, k - 1);
    }
  }
}
