// The deterministic parts of the cluster summariser: sentence splitting and
// chunking, the extractive fallback, the keyword sentiment and the size-based
// confidence. The abstractive model is a parameter: a function from the list
// of chunks to a summary (it stands for both the single-chunk and the
// multi-chunk path).
module Summarizer {
  import opened Common
  import opened ProfessorSchemas
  import opened Preprocess
  import opened Clustering

  // ---------------------------------------------------------------------------
  // Sentences: re.split(r"[.!?]+", text)
  // ---------------------------------------------------------------------------

  predicate IsTerminator(c: char) { c == '.' || c == '!' || c == '?' }

  predicate NotTerminator(c: char) { !IsTerminator(c) }

  /** A piece holds no sentence terminator. */
  predicate NoTerminator(s: string) { forall i :: 0 <= i < |s| ==> !IsTerminator(s[i]) }

  /**
   * The pieces between runs of terminators, in order; there is always at
   * least one piece, and a text ending in a terminator ends with "".
   */
  function SplitTerminators(s: string): (r: seq<string>)
    ensures |r| >= 1
    ensures forall k :: 0 <= k < |r| ==> NoTerminator(r[k])
    decreases |s|
  {
    var i := SpanLen(s, NotTerminator);
    if i == |s| then [s]
    else
      var j := i + SpanLen(s[i..], IsTerminator);
      assert j > i by { assert s[i..][0] == s[i]; }
      [s[..i]] + SplitTerminators(s[j..])
  }

  /** The pieces stripped, empty ones skipped (the `if not sentence: continue`). */
  function Sentences(pieces: seq<string>): (r: seq<string>)
    ensures forall k :: 0 <= k < |r| ==> r[k] != []
  {
    if |pieces| == 0 then []
    else
      var t := Strip(pieces[|pieces| - 1]);
      Sentences(pieces[..|pieces| - 1]) + (if t == [] then [] else [t])
  }

  // ---------------------------------------------------------------------------
  // _chunk_text
  // ---------------------------------------------------------------------------

  /** The token estimate of one sentence: a quarter of its length, rounded down. */
  function TokenEstimate(s: string): nat { |s| / 4 }

  /** The estimate of a chunk: the sum of its sentences' estimates. */
  function Estimate(chunk: seq<string>): nat {
    if |chunk| == 0 then 0 else Estimate(chunk[..|chunk| - 1]) + TokenEstimate(chunk[|chunk| - 1])
  }

  /** The chunking loop's variables: finished chunks, the current chunk and its estimate. */
  datatype ChunkState = ChunkState(done: seq<seq<string>>, current: seq<string>, length: int)

  function Step(st: ChunkState, s: string, maxLength: int): ChunkState {
    var l := TokenEstimate(s);
    if st.length + l > maxLength && st.current != [] then ChunkState(st.done + [st.current], [s], l)
    else ChunkState(st.done, st.current + [s], st.length + l)
  }

  function Run(sentences: seq<string>, maxLength: int): ChunkState {
    if |sentences| == 0 then ChunkState([], [], 0)
    else Step(Run(sentences[..|sentences| - 1], maxLength), sentences[|sentences| - 1], maxLength)
  }

  /** The sentence lists of the chunks: the finished ones, then the current one if any. */
  function ChunkLists(sentences: seq<string>, maxLength: int): seq<seq<string>> {
    var st := Run(sentences, maxLength);
    st.done + (if st.current != [] then [st.current] else [])
  }

  function Flatten(xss: seq<seq<string>>): seq<string> {
    if |xss| == 0 then [] else Flatten(xss[..|xss| - 1]) + xss[|xss| - 1]
  }

  function JoinSpace(xs: seq<string>): string { Join(" ", xs) }

  /** What `_chunk_text` returns. */
  function Chunks(text: string, maxLength: int): seq<string> {
    MapSeq(ChunkLists(Sentences(SplitTerminators(text)), maxLength), JoinSpace)
  }

  /** No chunk is empty, and a chunk over the limit holds a single sentence. */
  predicate GoodChunk(c: seq<string>, maxLength: int) {
    c != [] && (Estimate(c) > maxLength ==> |c| == 1)
  }

  /** What the chunking loop keeps true. */
  predicate ChunkInv(st: ChunkState, sentences: seq<string>, maxLength: int) {
    Flatten(st.done) + st.current == sentences &&
    (forall k :: 0 <= k < |st.done| ==> GoodChunk(st.done[k], maxLength)) &&
    st.length == Estimate(st.current) &&
    (Estimate(st.current) > maxLength ==> |st.current| <= 1)
  }

  lemma {:induction false} RunInv(sentences: seq<string>, maxLength: int)
    ensures ChunkInv(Run(sentences, maxLength), sentences, maxLength)
  {
    if |sentences| > 0 {
      var n := |sentences| - 1;
      RunInv(sentences[..n], maxLength);
      assert sentences == sentences[..n] + [sentences[n]];
      if Run(sentences[..n], maxLength).length + TokenEstimate(sentences[n]) > maxLength &&
         Run(sentences[..n], maxLength).current != [] {
        CloseChunkInv(Run(sentences[..n], maxLength), sentences[..n], sentences[n], maxLength);
      } else {
        ExtendChunkInv(Run(sentences[..n], maxLength), sentences[..n], sentences[n], maxLength);
      }
    }
  }

  /** Starting a new chunk with the next sentence keeps the loop's invariant. */
  lemma CloseChunkInv(st: ChunkState, prefix: seq<string>, s: string, maxLength: int)
    requires ChunkInv(st, prefix, maxLength)
    requires st.length + TokenEstimate(s) > maxLength && st.current != []
    ensures ChunkInv(Step(st, s, maxLength), prefix + [s], maxLength)
  {
    assert Estimate([s]) == TokenEstimate(s) by { assert [s][..0] == []; }
    assert Flatten(st.done + [st.current]) == Flatten(st.done) + st.current by {
      assert (st.done + [st.current])[..|st.done|] == st.done;
    }
  }

  /** Adding the next sentence to the current chunk keeps the loop's invariant. */
  lemma ExtendChunkInv(st: ChunkState, prefix: seq<string>, s: string, maxLength: int)
    requires ChunkInv(st, prefix, maxLength)
    requires !(st.length + TokenEstimate(s) > maxLength && st.current != [])
    ensures ChunkInv(Step(st, s, maxLength), prefix + [s], maxLength)
  {
    assert Estimate([s]) == TokenEstimate(s) by { assert [s][..0] == []; }
    assert Estimate(st.current + [s]) == Estimate(st.current) + TokenEstimate(s) by {
      assert (st.current + [s])[..|st.current|] == st.current;
    }
  }

  /**
   * The chunks, read in order, give back exactly the sentences; no chunk is
   * empty; and a chunk whose estimate exceeds the limit holds one sentence.
   */
  lemma ChunkListsSpec(sentences: seq<string>, maxLength: int)
    ensures Flatten(ChunkLists(sentences, maxLength)) == sentences
    ensures forall k :: 0 <= k < |ChunkLists(sentences, maxLength)| ==>
      GoodChunk(ChunkLists(sentences, maxLength)[k], maxLength)
  {
    RunInv(sentences, maxLength);
    var st := Run(sentences, maxLength);
    if st.current != [] {
      assert (st.done + [st.current])[..|st.done|] == st.done;
    } else {
      assert st.done + [] == st.done;
    }
  }

  /** Joining a list whose first element is non-empty gives a non-empty string. */
  lemma JoinNonEmpty(sep: string, xs: seq<string>)
    requires xs != [] && xs[0] != []
    ensures Join(sep, xs) != []
  {
  }

  /** Splitting one more piece adds its stripped text, unless that is empty. */
  lemma SentencesSnoc(pieces: seq<string>, i: nat)
    requires i < |pieces|
    ensures Sentences(pieces[..i + 1]) ==
      Sentences(pieces[..i]) + (if Strip(pieces[i]) == [] then [] else [Strip(pieces[i])])
  {
    assert pieces[..i + 1][..i] == pieces[..i];
  }

  /** Running the loop over one more sentence is one more step. */
  lemma RunSnoc(sentences: seq<string>, s: string, maxLength: int)
    ensures Run(sentences + [s], maxLength) == Step(Run(sentences, maxLength), s, maxLength)
  {
    assert (sentences + [s])[..|sentences|] == sentences;
  }

  lemma MapSeqSnoc<T, U>(xs: seq<T>, x: T, f: T -> U)
    ensures MapSeq(xs + [x], f) == MapSeq(xs, f) + [f(x)]
  {
    assert (xs + [x])[..|xs|] == xs;
  }

  /** No chunk is empty. */
  lemma ChunksNonEmpty(text: string, maxLength: int)
    ensures forall k :: 0 <= k < |Chunks(text, maxLength)| ==> Chunks(text, maxLength)[k] != []
  {
    var lists := ChunkLists(Sentences(SplitTerminators(text)), maxLength);
    ChunkListsSpec(Sentences(SplitTerminators(text)), maxLength);
    forall k | 0 <= k < |lists| ensures JoinSpace(lists[k]) != [] {
      var c := lists[k];
      assert GoodChunk(c, maxLength);
      FlattenHas(lists, k, 0);
      JoinNonEmpty(" ", c);
    }
  }

  /** One more piece of the split text is one more loop step, or none when it strips to nothing. */
  lemma RunPieceSnoc(pieces: seq<string>, i: nat, maxLength: int)
    requires i < |pieces|
    ensures Run(Sentences(pieces[..i + 1]), maxLength) ==
      if Strip(pieces[i]) == [] then Run(Sentences(pieces[..i]), maxLength)
      else Step(Run(Sentences(pieces[..i]), maxLength), Strip(pieces[i]), maxLength)
  {
    SentencesSnoc(pieces, i);
    var before := Sentences(pieces[..i]);
    if Strip(pieces[i]) == [] {
      assert before + [] == before;
    } else {
      RunSnoc(before, Strip(pieces[i]), maxLength);
    }
  }

  /** The chunks are the finished lists joined, then the current list joined if any. */
  lemma ChunksOfRun(text: string, maxLength: int)
    ensures Chunks(text, maxLength) ==
      MapSeq(Run(Sentences(SplitTerminators(text)), maxLength).done, JoinSpace) +
      (if Run(Sentences(SplitTerminators(text)), maxLength).current != []
       then [JoinSpace(Run(Sentences(SplitTerminators(text)), maxLength).current)] else [])
  {
    var st := Run(Sentences(SplitTerminators(text)), maxLength);
    if st.current != [] {
      MapSeqSnoc(st.done, st.current, JoinSpace);
    } else {
      assert st.done + [] == st.done;
    }
  }

  /** The chunking loop of `_chunk_text`. */
  method ChunkText(text: string, maxLength: int) returns (chunks: seq<string>)
    ensures chunks == Chunks(text, maxLength)
    ensures forall k :: 0 <= k < |chunks| ==> chunks[k] != []
  {
    var pieces := SplitTerminators(text);
    chunks := [];
    var current: seq<string> := [];
    var currentLength := 0;
    ghost var done: seq<seq<string>> := [];
    for i := 0 to |pieces|
      invariant ChunkState(done, current, currentLength) == Run(Sentences(pieces[..i]), maxLength)
      invariant chunks == MapSeq(done, JoinSpace)
    {
      RunPieceSnoc(pieces, i, maxLength);
      ghost var st := ChunkState(done, current, currentLength);
      var sentence := Strip(pieces[i]);
      if sentence == [] {
        continue;
      }
      var sentenceLength := |sentence| / 4;
      if currentLength + sentenceLength > maxLength && current != [] {
        MapSeqSnoc(done, current, JoinSpace);
        chunks := chunks + [JoinSpace(current)];
        done := done + [current];
        current := [sentence];
        currentLength := sentenceLength;
      } else {
        current := current + [sentence];
        currentLength := currentLength + sentenceLength;
      }
      assert ChunkState(done, current, currentLength) == Step(st, sentence, maxLength);
    }
    assert pieces[..|pieces|] == pieces;
    ChunksOfRun(text, maxLength);
    if current != [] {
      chunks := chunks + [JoinSpace(current)];
    }
    ChunksNonEmpty(text, maxLength);
  }

  /** Every element of every chunk occurs in the flattened list. */
  lemma {:induction false} FlattenHas(xss: seq<seq<string>>, k: nat, m: nat)
    requires k < |xss| && m < |xss[k]|
    ensures xss[k][m] in Flatten(xss)
  {
    if k < |xss| - 1 {
      FlattenHas(xss[..|xss| - 1], k, m);
    }
  }

  // ---------------------------------------------------------------------------
  // _extractive_summary
  // ---------------------------------------------------------------------------

  const NoReviewText: string := "No review text available."

  /** The stripped pieces longer than 20 characters, in order. */
  function LongPieces(pieces: seq<string>): seq<string> {
    if |pieces| == 0 then []
    else
      var t := Strip(pieces[|pieces| - 1]);
      LongPieces(pieces[..|pieces| - 1]) + (if |t| > 20 then [t] else [])
  }

  /** The long sentences of every review with a non-empty text, in review order. */
  function LongSentences(reviews: seq<ProcessedReview>): seq<string> {
    if |reviews| == 0 then []
    else
      var r := reviews[|reviews| - 1];
      LongSentences(reviews[..|reviews| - 1]) +
        (if r.text != [] then LongPieces(SplitTerminators(r.text)) else [])
  }

  /** The first `maxSentences` sentences joined with ". " and closed with ".". */
  function ExtractiveText(sentences: seq<string>, maxSentences: nat): string {
    var selected := if maxSentences < |sentences| then sentences[..maxSentences] else sentences;
    if selected == [] then NoReviewText else Join(". ", selected) + "."
  }

  /** A sentence the extractive summary may use: long, stripped, with no terminator inside. */
  predicate Meaningful(s: string) {
    |s| > 20 && NoTerminator(s) && !IsSpace(s[0]) && !IsSpace(s[|s| - 1])
  }

  /** A stripped piece without terminators is meaningful once it is long enough. */
  lemma StripMeaningful(p: string)
    requires NoTerminator(p) && |Strip(p)| > 20
    ensures Meaningful(Strip(p))
  {
    var off := StripOffset(p);
    SliceNoTerminator(p, Strip(p), off);
  }

  lemma SliceNoTerminator(p: string, t: string, off: nat)
    requires SliceAt(p, t, off) && NoTerminator(p)
    ensures NoTerminator(t)
  {
    forall i | 0 <= i < |t| ensures !IsTerminator(t[i]) {
      assert t[i] == p[off + i];
    }
  }

  lemma LongPiecesMeaningful(pieces: seq<string>)
    requires forall k :: 0 <= k < |pieces| ==> NoTerminator(pieces[k])
    ensures forall k :: 0 <= k < |LongPieces(pieces)| ==> Meaningful(LongPieces(pieces)[k])
  {
    forall k | 0 <= k < |pieces| && |Strip(pieces[k])| > 20
      ensures Meaningful(Strip(pieces[k]))
    {
      StripMeaningful(pieces[k]);
    }
    LongPiecesAll(pieces, Meaningful);
  }

  /** What holds of every long stripped piece holds of every piece kept. */
  lemma {:induction false} LongPiecesAll(pieces: seq<string>, ok: string -> bool)
    requires forall k :: 0 <= k < |pieces| && |Strip(pieces[k])| > 20 ==> ok(Strip(pieces[k]))
    ensures forall k :: 0 <= k < |LongPieces(pieces)| ==> ok(LongPieces(pieces)[k])
  {
    if |pieces| > 0 {
      var n := |pieces| - 1;
      assert forall k :: 0 <= k < n ==> pieces[..n][k] == pieces[k];
      LongPiecesAll(pieces[..n], ok);
    }
  }

  /** Every sentence the extractive summary can pick is long, stripped and terminator-free. */
  lemma {:induction false} LongSentencesMeaningful(reviews: seq<ProcessedReview>)
    ensures forall k :: 0 <= k < |LongSentences(reviews)| ==> Meaningful(LongSentences(reviews)[k])
  {
    if |reviews| > 0 {
      var n := |reviews| - 1;
      LongSentencesMeaningful(reviews[..n]);
      if reviews[n].text != [] {
        LongPiecesMeaningful(SplitTerminators(reviews[n].text));
      }
    }
  }

  /**
   * The extractive text is the fixed message when nothing qualifies (or
   * nothing may be taken); otherwise it starts with the first qualifying
   * sentence and ends with ".".
   */
  lemma ExtractiveTextShape(sentences: seq<string>, maxSentences: nat)
    ensures (sentences == [] || maxSentences == 0) ==> ExtractiveText(sentences, maxSentences) == NoReviewText
    ensures sentences != [] && maxSentences > 0 ==>
      StartsWith(ExtractiveText(sentences, maxSentences), sentences[0]) &&
      EndsWith(ExtractiveText(sentences, maxSentences), ".")
  {
    if sentences != [] && maxSentences > 0 {
      var selected := if maxSentences < |sentences| then sentences[..maxSentences] else sentences;
      assert selected[0] == sentences[0];
      var r := Join(". ", selected) + ".";
      JoinStarts(". ", selected);
      assert r[..|sentences[0]|] == Join(". ", selected)[..|sentences[0]|];
      assert r[|r| - 1..] == ".";
    }
  }

  /** A join starts with its first element. */
  lemma JoinStarts(sep: string, xs: seq<string>)
    requires xs != []
    ensures StartsWith(Join(sep, xs), xs[0])
  {
    if |xs| > 1 {
      assert Join(sep, xs) == xs[0] + (sep + Join(sep, xs[1..]));
    }
  }

  /** One more piece adds its stripped text when that is longer than 20 characters. */
  lemma LongPiecesStep(before: seq<string>, pieces: seq<string>, j: nat)
    requires j < |pieces|
    ensures before + LongPieces(pieces[..j + 1]) ==
      if |Strip(pieces[j])| > 20 then before + LongPieces(pieces[..j]) + [Strip(pieces[j])]
      else before + LongPieces(pieces[..j])
  {
    assert pieces[..j + 1][..j] == pieces[..j];
    var l := LongPieces(pieces[..j]);
    if |Strip(pieces[j])| > 20 {
      assert before + (l + [Strip(pieces[j])]) == before + l + [Strip(pieces[j])];
    } else {
      assert l + [] == l;
    }
  }

  /** One more review adds the long sentences of its text, when it has one. */
  lemma LongSentencesStep(reviews: seq<ProcessedReview>, i: nat)
    requires i < |reviews|
    ensures LongSentences(reviews[..i + 1]) ==
      if reviews[i].text != [] then LongSentences(reviews[..i]) + LongPieces(SplitTerminators(reviews[i].text))
      else LongSentences(reviews[..i])
  {
    assert reviews[..i + 1][..i] == reviews[..i];
    if reviews[i].text == [] {
      assert LongSentences(reviews[..i]) + [] == LongSentences(reviews[..i]);
    }
  }

  /** The nested loop of `_extractive_summary`. */
  method ExtractiveSummary(reviews: seq<ProcessedReview>, maxSentences: nat) returns (summary: string)
    ensures summary == ExtractiveText(LongSentences(reviews), maxSentences)
  {
    var all: seq<string> := [];
    for i := 0 to |reviews|
      invariant all == LongSentences(reviews[..i])
    {
      LongSentencesStep(reviews, i);
      var review := reviews[i];
      if review.text != [] {
        all := AddLongPieces(all, SplitTerminators(review.text));
      }
    }
    assert reviews[..|reviews|] == reviews;
    summary := ExtractiveText(all, maxSentences);
  }

  /** The inner loop: the stripped pieces longer than 20 characters, appended in order. */
  method AddLongPieces(before: seq<string>, pieces: seq<string>) returns (all: seq<string>)
    ensures all == before + LongPieces(pieces)
  {
    all := before;
    assert pieces[..0] == [];
    for j := 0 to |pieces|
      invariant all == before + LongPieces(pieces[..j])
    {
      LongPiecesStep(before, pieces, j);
      var sent := Strip(pieces[j]);
      if |sent| > 20 {
        all := all + [sent];
      }
    }
    assert pieces[..|pieces|] == pieces;
  }

  // ---------------------------------------------------------------------------
  // Sentiment and confidence
  // ---------------------------------------------------------------------------

  const PositiveWords: seq<string> :=
    ["good", "great", "excellent", "amazing", "love", "best", "helpful", "clear"]
  const NegativeWords: seq<string> :=
    ["bad", "terrible", "awful", "worst", "hate", "confusing", "unclear", "difficult"]
  const AcademicPhrases: seq<string> :=
    ["in this paper", "we study", "we show", "we propose", "abstract", "introduction to"]

  /** The label from the two keyword counts, with the 1.5 ratio. */
  function Sentiment(positive: nat, negative: nat): string {
    if positive as real > negative as real * 1.5 then "positive"
    else if negative as real > positive as real * 1.5 then "negative"
    else "mixed"
  }

  predicate IsSentimentLabel(s: string) { s == "positive" || s == "negative" || s == "mixed" }

  /** The sentiment of a text from how many positive and negative keywords it contains. */
  function SentimentOf(lower: string): (r: string)
    ensures IsSentimentLabel(r)
  {
    Sentiment(Score(lower, PositiveWords), Score(lower, NegativeWords))
  }

  /** The label only depends on which side outweighs the other: swapping the counts swaps the label. */
  lemma SentimentSwap(positive: nat, negative: nat)
    ensures Sentiment(positive, negative) == "positive" <==> Sentiment(negative, positive) == "negative"
    ensures Sentiment(positive, negative) == "mixed" <==> Sentiment(negative, positive) == "mixed"
    ensures Sentiment(positive, negative) == "positive" <==> 2 * positive > 3 * negative
  {
  }

  /** No keyword at all, or equal counts, give "mixed". */
  lemma SentimentBalanced(n: nat)
    ensures Sentiment(n, n) == "mixed"
  {
  }

  /** `min(0.95, 0.5 + (n / 20) * 0.45)`. */
  function Confidence(n: nat): real {
    var c := 0.5 + (n as real / 20.0) * 0.45;
    if 0.95 < c then 0.95 else c
  }

  /** Confidence lies in [0.5, 0.95], never drops as the cluster grows, and is 0.95 from 20 reviews on. */
  lemma ConfidenceBounds(n: nat, m: nat)
    ensures 0.5 <= Confidence(n) <= 0.95
    ensures n <= m ==> Confidence(n) <= Confidence(m)
    ensures n >= 20 ==> Confidence(n) == 0.95
  {
  }

  // ---------------------------------------------------------------------------
  // summarize_cluster, summarize_clusters
  // ---------------------------------------------------------------------------

  /** The review texts joined with single spaces. */
  function JoinedText(reviews: seq<ProcessedReview>): string {
    Join(" ", MapSeq(reviews, (r: ProcessedReview) => r.text))
  }

  /** The abstractive summary of the chunks, replaced by the extractive one when it reads like a paper. */
  function AbstractiveSummary(reviews: seq<ProcessedReview>, abstractive: seq<string> -> string): string {
    var summary := abstractive(Chunks(JoinedText(reviews), 3000));
    if Score(Lower(summary), AcademicPhrases) > 0 then ExtractiveText(LongSentences(reviews), 4) else summary
  }

  /** What `summarize_cluster` returns. */
  function SummaryOf(reviews: seq<ProcessedReview>, clusterType: string,
                     abstractive: seq<string> -> string): ClusterSummary {
    if reviews == [] then ClusterSummary(clusterType, "No reviews in cluster", 0, "neutral", 0.0)
    else
      var lower := Lower(JoinedText(reviews));
      var summary :=
        if |reviews| < MinClusterSize then ExtractiveText(LongSentences(reviews), 3)
        else AbstractiveSummary(reviews, abstractive);
      ClusterSummary(clusterType, summary, |reviews|, SentimentOf(lower), Confidence(|reviews|))
  }

  /**
   * An empty cluster is neutral with confidence 0.0; any other has its size as
   * review count, a confidence in [0.5, 0.95], one of the three sentiment
   * labels, and uses the extractive text when it is smaller than three.
   */
  lemma SummaryOfSpec(reviews: seq<ProcessedReview>, clusterType: string, abstractive: seq<string> -> string)
    ensures SummaryOf(reviews, clusterType, abstractive).clusterType == clusterType
    ensures SummaryOf(reviews, clusterType, abstractive).reviewCount == |reviews|
    ensures reviews == [] ==>
      SummaryOf(reviews, clusterType, abstractive).sentiment == "neutral" &&
      SummaryOf(reviews, clusterType, abstractive).confidence == 0.0
    ensures reviews != [] ==>
      0.5 <= SummaryOf(reviews, clusterType, abstractive).confidence <= 0.95 &&
      IsSentimentLabel(SummaryOf(reviews, clusterType, abstractive).sentiment)
    ensures 0 < |reviews| < MinClusterSize ==>
      SummaryOf(reviews, clusterType, abstractive).summary == ExtractiveText(LongSentences(reviews), 3)
  {
    ConfidenceBounds(|reviews|, |reviews|);
  }

  /** `summarize_cluster`, with the abstractive model as a parameter. */
  method SummarizeCluster(reviews: seq<ProcessedReview>, clusterType: string,
                          abstractive: seq<string> -> string) returns (r: ClusterSummary)
    ensures r == SummaryOf(reviews, clusterType, abstractive)
  {
    if reviews == [] {
      return ClusterSummary(clusterType, "No reviews in cluster", 0, "neutral", 0.0);
    }
    var combined := JoinedText(reviews);
    var summary: string;
    if |reviews| < MinClusterSize {
      summary := ExtractiveSummary(reviews, 3);
    } else {
      var chunks := ChunkText(combined, 3000);
      summary := abstractive(chunks);
      if Score(Lower(summary), AcademicPhrases) > 0 {
        summary := ExtractiveSummary(reviews, 4);
      }
    }
    var lower := Lower(combined);
    var sentiment := SentimentOf(lower);
    r := ClusterSummary(clusterType, summary, |reviews|, sentiment, Confidence(|reviews|));
  }

  /** `cluster_types.get(cluster_id, "other")`. */
  function TypeFor(types: map<int, string>, id: int): string {
    if id in types then types[id] else "other"
  }

  /** `summarize_cluster` as a function value, so that lists of summaries need not unfold it. */
  function SummaryFn(abstractive: seq<string> -> string): (seq<ProcessedReview>, string) -> ClusterSummary {
    (reviews: seq<ProcessedReview>, clusterType: string) => SummaryOf(reviews, clusterType, abstractive)
  }

  /** The result of `summarize` on the clusters with the given ids, in order. */
  function SummariesWith(ids: seq<int>, clusters: Groups<int, ProcessedReview>, types: map<int, string>,
                         summarize: (seq<ProcessedReview>, string) -> ClusterSummary): (r: seq<ClusterSummary>)
    requires forall i :: 0 <= i < |ids| ==> ids[i] in clusters.members
    ensures |r| == |ids|
  {
    if |ids| == 0 then []
    else
      var id := ids[|ids| - 1];
      SummariesWith(ids[..|ids| - 1], clusters, types, summarize) + [summarize(clusters.members[id], TypeFor(types, id))]
  }

  lemma {:induction false} SummariesWithSpec(ids: seq<int>, clusters: Groups<int, ProcessedReview>, types: map<int, string>,
                                             summarize: (seq<ProcessedReview>, string) -> ClusterSummary)
    requires forall i :: 0 <= i < |ids| ==> ids[i] in clusters.members
    ensures forall i :: 0 <= i < |ids| ==>
      SummariesWith(ids, clusters, types, summarize)[i] == summarize(clusters.members[ids[i]], TypeFor(types, ids[i]))
  {
    if |ids| > 0 {
      var n := |ids| - 1;
      SummariesWithSpec(ids[..n], clusters, types, summarize);
      forall i | 0 <= i < n
        ensures SummariesWith(ids, clusters, types, summarize)[i] == summarize(clusters.members[ids[i]], TypeFor(types, ids[i]))
      {
        assert ids[..n][i] == ids[i];
      }
    }
  }

  /** The summaries of the clusters with the given ids, in order. */
  function SummariesOf(ids: seq<int>, clusters: Groups<int, ProcessedReview>, types: map<int, string>,
                       abstractive: seq<string> -> string): (r: seq<ClusterSummary>)
    requires forall i :: 0 <= i < |ids| ==> ids[i] in clusters.members
    ensures |r| == |ids|
  {
    SummariesWith(ids, clusters, types, SummaryFn(abstractive))
  }

  /** Summary `i` is that of cluster `i`, typed by its id or "other" when it has no type. */
  lemma SummariesOfSpec(ids: seq<int>, clusters: Groups<int, ProcessedReview>,
                        types: map<int, string>, abstractive: seq<string> -> string)
    requires forall i :: 0 <= i < |ids| ==> ids[i] in clusters.members
    ensures forall i :: 0 <= i < |ids| ==>
      SummariesOf(ids, clusters, types, abstractive)[i] ==
        SummaryOf(clusters.members[ids[i]], TypeFor(types, ids[i]), abstractive)
  {
    SummariesWithSpec(ids, clusters, types, SummaryFn(abstractive));
  }

  /** `summarize_clusters`: one summary per cluster, in the clusters' order. */
  method SummarizeClusters(clusters: Groups<int, ProcessedReview>, types: map<int, string>,
                           abstractive: seq<string> -> string) returns (summaries: seq<ClusterSummary>)
    requires forall i :: 0 <= i < |clusters.keys| ==> clusters.keys[i] in clusters.members
    ensures summaries == SummariesOf(clusters.keys, clusters, types, abstractive)
  {
    var ids := clusters.keys;
    summaries := [];
    for i := 0 to |ids|
      invariant summaries == SummariesWith(ids[..i], clusters, types, SummaryFn(abstractive))
    {
      assert ids[..i + 1][..i] == ids[..i];
      var id := ids[i];
      var clusterType := TypeFor(types, id);
      var summary := SummarizeCluster(clusters.members[id], clusterType, abstractive);
      assert summary == SummaryFn(abstractive)(clusters.members[id], clusterType);
      summaries := summaries + [summary];
    }
    assert ids[..|ids|] == ids;
  }
}
