// Aggregation in the hierarchical pipeline: expanding each review into one
// copy per normalised course code, placing cluster summaries into the fields
// of a course summary, the confidence means, and the strengths, complaints,
// sentiment and consistency of a professor summary.
module Pipeline {
  import opened Common
  import opened Json
  import opened ProfessorSchemas
  import opened CourseCodes
  import opened Preprocess
  import opened Clustering
  import opened Summarizer
  import opened Embeddings

  // ---------------------------------------------------------------------------
  // Course-code expansion (process_professor_reviews, step 1.5)
  // ---------------------------------------------------------------------------

  /** A copy of the review for each code, every other field kept. */
  function Copies(r: ProcessedReview, codes: seq<string>): (copies: seq<ProcessedReview>)
    ensures |copies| == |codes|
    ensures forall j :: 0 <= j < |codes| ==> copies[j] == r.(courseCode := Some(codes[j]))
  {
    MapSeq(codes, (c: string) => r.(courseCode := Some(c)))
  }

  /** The codes a review is filed under, as a function value. */
  function CodesFn(crossListings: map<string, string>, professorId: Option<string>,
                   professorDept: Option<string>): ProcessedReview -> seq<string>
  {
    (r: ProcessedReview) => NormalizedCodes(crossListings, r.courseCode, professorId, professorDept)
  }

  /** One copy of every review per code `codesOf` gives it, in order. */
  function ExpandWith(reviews: seq<ProcessedReview>, codesOf: ProcessedReview -> seq<string>): seq<ProcessedReview> {
    if |reviews| == 0 then []
    else
      var r := reviews[|reviews| - 1];
      ExpandWith(reviews[..|reviews| - 1], codesOf) + Copies(r, codesOf(r))
  }

  /** What the expansion loop builds. */
  function Expanded(crossListings: map<string, string>, reviews: seq<ProcessedReview>,
                    professorId: Option<string>, professorDept: Option<string>): seq<ProcessedReview>
  {
    ExpandWith(reviews, CodesFn(crossListings, professorId, professorDept))
  }

  /** The same review apart from its course code. */
  predicate SameReview(a: ProcessedReview, b: ProcessedReview) {
    a.reviewId == b.reviewId && a.professorId == b.professorId && a.text == b.text &&
    a.originalText == b.originalText && a.wordCount == b.wordCount
  }

  /** Every review yields at least one copy, so nothing is lost. */
  lemma {:induction false} ExpandedLength(crossListings: map<string, string>, reviews: seq<ProcessedReview>,
                                          professorId: Option<string>, professorDept: Option<string>)
    ensures |Expanded(crossListings, reviews, professorId, professorDept)| >= |reviews|
  {
    if |reviews| > 0 {
      ExpandedLength(crossListings, reviews[..|reviews| - 1], professorId, professorDept);
    }
  }

  /** Every copy carries a course code and is one of the input reviews apart from it. */
  lemma {:induction false} ExpandedCopies(crossListings: map<string, string>, reviews: seq<ProcessedReview>,
                                          professorId: Option<string>, professorDept: Option<string>)
    ensures forall e :: e in Expanded(crossListings, reviews, professorId, professorDept) ==>
      e.courseCode.Some? && exists r :: r in reviews && SameReview(e, r)
  {
    ExpandWithCopies(reviews, CodesFn(crossListings, professorId, professorDept));
  }

  lemma {:induction false} ExpandWithCopies(reviews: seq<ProcessedReview>, codesOf: ProcessedReview -> seq<string>)
    ensures forall e :: e in ExpandWith(reviews, codesOf) ==> e.courseCode.Some? && exists r :: r in reviews && SameReview(e, r)
  {
    if |reviews| > 0 {
      var n := |reviews| - 1;
      ExpandWithCopies(reviews[..n], codesOf);
      CopiesOf(reviews[n], codesOf(reviews[n]));
      assert forall x :: x in reviews[..n] ==> x in reviews;
    }
  }

  lemma CopiesOf(r: ProcessedReview, codes: seq<string>)
    ensures forall e :: e in Copies(r, codes) ==> e.courseCode.Some? && SameReview(e, r)
  {
  }

  /** A review whose code normalises to one code is kept once, with that code. */
  lemma ExpandedSingle(crossListings: map<string, string>, r: ProcessedReview,
                       professorId: Option<string>, professorDept: Option<string>)
    requires |NormalizedCodes(crossListings, r.courseCode, professorId, professorDept)| == 1
    ensures Expanded(crossListings, [r], professorId, professorDept) ==
      [r.(courseCode := Some(NormalizedCodes(crossListings, r.courseCode, professorId, professorDept)[0]))]
  {
    ExpandWithSingle(r, CodesFn(crossListings, professorId, professorDept));
  }

  lemma ExpandWithSingle(r: ProcessedReview, codesOf: ProcessedReview -> seq<string>)
    requires |codesOf(r)| == 1
    ensures ExpandWith([r], codesOf) == [r.(courseCode := Some(codesOf(r)[0]))]
  {
    assert [r][..0] == [];
  }

  lemma ExpandedSnoc(crossListings: map<string, string>, reviews: seq<ProcessedReview>, i: nat,
                     professorId: Option<string>, professorDept: Option<string>)
    requires i < |reviews|
    ensures Expanded(crossListings, reviews[..i + 1], professorId, professorDept) ==
      Expanded(crossListings, reviews[..i], professorId, professorDept) +
        Copies(reviews[i], NormalizedCodes(crossListings, reviews[i].courseCode, professorId, professorDept))
  {
    assert reviews[..i + 1][..i] == reviews[..i];
  }

  lemma CopiesSnoc(r: ProcessedReview, codes: seq<string>, j: nat)
    requires j < |codes|
    ensures Copies(r, codes[..j + 1]) == Copies(r, codes[..j]) + [r.(courseCode := Some(codes[j]))]
  {
  }

  /** The expansion loop over the processed reviews. */
  method ExpandReviews(normalizer: CourseNormalizer, reviews: seq<ProcessedReview>,
                       professorId: Option<string>, professorDept: Option<string>)
    returns (expanded: seq<ProcessedReview>)
    ensures expanded == Expanded(normalizer.crossListings, reviews, professorId, professorDept)
  {
    expanded := [];
    for i := 0 to |reviews|
      invariant expanded == Expanded(normalizer.crossListings, reviews[..i], professorId, professorDept)
    {
      var review := reviews[i];
      var codes := normalizer.NormalizeCourseCodes(review.courseCode, professorId, professorDept);
      ExpandedSnoc(normalizer.crossListings, reviews, i, professorId, professorDept);
      expanded := AppendCopies(expanded, review, codes);
    }
    assert reviews[..|reviews|] == reviews;
  }

  /** The inner loop: one copy of the review per code, appended in order. */
  method AppendCopies(expanded: seq<ProcessedReview>, review: ProcessedReview, codes: seq<string>)
    returns (result: seq<ProcessedReview>)
    ensures result == expanded + Copies(review, codes)
  {
    result := expanded;
    for j := 0 to |codes|
      invariant result == expanded + Copies(review, codes[..j])
    {
      CopiesSnoc(review, codes, j);
      result := result + [review.(courseCode := Some(codes[j]))];
    }
    assert codes[..|codes|] == codes;
  }

  // ---------------------------------------------------------------------------
  // Field placement
  // ---------------------------------------------------------------------------

  /** The field a cluster type fills: its own for the six named types, `other` (6) for the rest. */
  function Slot(clusterType: string): (k: nat)
    ensures k < 7
  {
    if clusterType == "teaching" then 0
    else if clusterType == "exams" then 1
    else if clusterType == "grading" then 2
    else if clusterType == "workload" then 3
    else if clusterType == "personality" then 4
    else if clusterType == "policies" then 5
    else 6
  }

  function FieldAt(cs: CourseSummary, k: nat): Option<string> {
    if k == 0 then cs.teaching
    else if k == 1 then cs.exams
    else if k == 2 then cs.grading
    else if k == 3 then cs.workload
    else if k == 4 then cs.personality
    else if k == 5 then cs.policies
    else cs.other
  }

  function SetField(cs: CourseSummary, k: nat, v: Option<string>): (r: CourseSummary)
    ensures forall j :: j < 7 ==> FieldAt(r, j) == if j == Slot7(k) then v else FieldAt(cs, j)
    ensures r.course == cs.course && r.confidence == cs.confidence && r.totalReviews == cs.totalReviews
  {
    if k == 0 then cs.(teaching := v)
    else if k == 1 then cs.(exams := v)
    else if k == 2 then cs.(grading := v)
    else if k == 3 then cs.(workload := v)
    else if k == 4 then cs.(personality := v)
    else if k == 5 then cs.(policies := v)
    else cs.(other := v)
  }

  /** Field numbers from 6 on all mean `other`. */
  function Slot7(k: nat): nat { if k < 6 then k else 6 }

  /** One placement step: the summary overwrites the field of its type. */
  function Place(cs: CourseSummary, s: ClusterSummary): CourseSummary {
    SetField(cs, Slot(s.clusterType), Some(s.summary))
  }

  function PlaceAll(cs: CourseSummary, summaries: seq<ClusterSummary>): CourseSummary {
    if |summaries| == 0 then cs else Place(PlaceAll(cs, summaries[..|summaries| - 1]), summaries[|summaries| - 1])
  }

  /** The summary of the last cluster whose type fills field `k`, if any. */
  function LastInSlot(summaries: seq<ClusterSummary>, k: nat): Option<string> {
    if |summaries| == 0 then None
    else if Slot(summaries[|summaries| - 1].clusterType) == k then Some(summaries[|summaries| - 1].summary)
    else LastInSlot(summaries[..|summaries| - 1], k)
  }

  /**
   * After placement each field holds the summary of the last cluster of its
   * type (a later one overwrites an earlier one), or what it held before when
   * no cluster has that type; unknown types all go to `other`. Nothing else
   * changes.
   */
  lemma {:induction false} PlaceAllFields(cs: CourseSummary, summaries: seq<ClusterSummary>)
    ensures forall k :: k < 7 ==>
      FieldAt(PlaceAll(cs, summaries), k) ==
        if LastInSlot(summaries, k).Some? then LastInSlot(summaries, k) else FieldAt(cs, k)
    ensures PlaceAll(cs, summaries).course == cs.course
    ensures PlaceAll(cs, summaries).confidence == cs.confidence
    ensures PlaceAll(cs, summaries).totalReviews == cs.totalReviews
  {
    if |summaries| > 0 {
      PlaceAllFields(cs, summaries[..|summaries| - 1]);
    }
  }

  /** Each named type fills its own field, and "other" fills `other`. */
  lemma SlotsOfTypes()
    ensures forall i :: 0 <= i < |ClusterTypes| ==> Slot(ClusterTypes[i]) == i
  {
  }

  /** The if/elif chain of the placement loop. */
  method PlaceSummaries(cs: CourseSummary, summaries: seq<ClusterSummary>) returns (placed: CourseSummary)
    ensures placed == PlaceAll(cs, summaries)
  {
    placed := cs;
    for i := 0 to |summaries|
      invariant placed == PlaceAll(cs, summaries[..i])
    {
      assert summaries[..i + 1][..i] == summaries[..i];
      var s := summaries[i];
      if s.clusterType == "teaching" {
        placed := placed.(teaching := Some(s.summary));
      } else if s.clusterType == "exams" {
        placed := placed.(exams := Some(s.summary));
      } else if s.clusterType == "grading" {
        placed := placed.(grading := Some(s.summary));
      } else if s.clusterType == "workload" {
        placed := placed.(workload := Some(s.summary));
      } else if s.clusterType == "personality" {
        placed := placed.(personality := Some(s.summary));
      } else if s.clusterType == "policies" {
        placed := placed.(policies := Some(s.summary));
      } else {
        placed := placed.(other := Some(s.summary));
      }
    }
    assert summaries[..|summaries|] == summaries;
  }

  // ---------------------------------------------------------------------------
  // Course summaries
  // ---------------------------------------------------------------------------

  /** Every cluster id listed has its reviews. */
  predicate KeysPresent(clusters: Groups<int, ProcessedReview>) {
    forall i :: 0 <= i < |clusters.keys| ==> clusters.keys[i] in clusters.members
  }

  /** The types the classifier gives the first `j` cluster ids. */
  function TypesUpTo(clusters: Groups<int, ProcessedReview>, j: nat, typeOf: seq<ProcessedReview> -> string)
    : map<int, string>
    requires KeysPresent(clusters) && j <= |clusters.keys|
  {
    if j == 0 then map[]
    else
      var id := clusters.keys[j - 1];
      TypesUpTo(clusters, j - 1, typeOf)[id := typeOf(clusters.members[id])]
  }

  /** The type of every cluster. */
  function TypesOf(clusters: Groups<int, ProcessedReview>): map<int, string>
    requires KeysPresent(clusters)
  {
    TypesUpTo(clusters, |clusters.keys|, IdentifyClusterType)
  }

  lemma {:induction false} TypesUpToSpec(clusters: Groups<int, ProcessedReview>, j: nat,
                                         typeOf: seq<ProcessedReview> -> string)
    requires KeysPresent(clusters) && j <= |clusters.keys|
    ensures forall id :: id in TypesUpTo(clusters, j, typeOf) <==> id in clusters.keys[..j]
    ensures forall id :: id in TypesUpTo(clusters, j, typeOf) ==>
      id in clusters.members && TypesUpTo(clusters, j, typeOf)[id] == typeOf(clusters.members[id])
  {
    if j > 0 {
      TypesUpToSpec(clusters, j - 1, typeOf);
      assert clusters.keys[..j] == clusters.keys[..j - 1] + [clusters.keys[j - 1]];
    }
  }

  /** Every cluster, and nothing else, has a type: the one its reviews' keywords decide. */
  lemma TypesOfSpec(clusters: Groups<int, ProcessedReview>)
    requires KeysPresent(clusters)
    ensures forall id :: id in TypesOf(clusters) <==> id in clusters.keys
    ensures forall id :: id in TypesOf(clusters) ==>
      id in clusters.members && TypesOf(clusters)[id] == IdentifyClusterType(clusters.members[id])
    ensures forall id :: id in TypesOf(clusters) ==> TypesOf(clusters)[id] in ClusterTypes
  {
    TypesUpToSpec(clusters, |clusters.keys|, IdentifyClusterType);
    assert clusters.keys[..|clusters.keys|] == clusters.keys;
    forall id | id in TypesOf(clusters) ensures TypesOf(clusters)[id] in ClusterTypes {
      IdentifiedTypeDeclared(clusters.members[id]);
    }
  }

  lemma TypesUpToSnoc(clusters: Groups<int, ProcessedReview>, i: nat, typeOf: seq<ProcessedReview> -> string)
    requires KeysPresent(clusters) && i < |clusters.keys|
    ensures TypesUpTo(clusters, i + 1, typeOf) ==
      TypesUpTo(clusters, i, typeOf)[clusters.keys[i] := typeOf(clusters.members[clusters.keys[i]])]
  {
  }

  /** The type-identification loop, with the classifier `identify_cluster_type` passed in. */
  method IdentifyTypes(clusters: Groups<int, ProcessedReview>, typeOf: seq<ProcessedReview> -> string)
    returns (types: map<int, string>)
    requires KeysPresent(clusters)
    ensures types == TypesUpTo(clusters, |clusters.keys|, typeOf)
  {
    types := map[];
    for i := 0 to |clusters.keys|
      invariant types == TypesUpTo(clusters, i, typeOf)
    {
      var id := clusters.keys[i];
      TypesUpToSnoc(clusters, i, typeOf);
      types := types[id := typeOf(clusters.members[id])];
    }
  }

  function Confidences(summaries: seq<ClusterSummary>): (r: seq<real>)
    ensures |r| == |summaries| && forall i :: 0 <= i < |r| ==> r[i] == summaries[i].confidence
  {
    MapSeq(summaries, (s: ClusterSummary) => s.confidence)
  }

  /** A course summary from the placed summaries, its review total and the mean confidence. */
  function Assemble(course: string, summaries: seq<ClusterSummary>, total: nat): CourseSummary {
    PlaceAll(EmptyCourseSummary(course).(totalReviews := total), summaries)
      .(confidence := Mean(Confidences(summaries)))
  }

  /** One iteration of `_generate_course_summaries`. */
  function CourseSummaryOf(course: string, clusters: Groups<int, ProcessedReview>,
                           abstractive: seq<string> -> string): CourseSummary
    requires WellFormed(clusters)
  {
    Assemble(course, SummariesOf(clusters.keys, clusters, TypesOf(clusters), abstractive),
      Total(clusters))
  }

  /** A confidence every cluster summary has: 0.0 for an empty cluster, else in [0.5, 0.95]. */
  lemma SummaryConfidence(reviews: seq<ProcessedReview>, clusterType: string, abstractive: seq<string> -> string)
    ensures 0.0 <= SummaryOf(reviews, clusterType, abstractive).confidence <= 0.95
  {
    SummaryOfSpec(reviews, clusterType, abstractive);
  }

  /** The course confidence is the mean of the cluster confidences, 0.0 without clusters; it lies in [0, 0.95]. */
  lemma AssembledConfidence(course: string, clusters: Groups<int, ProcessedReview>, abstractive: seq<string> -> string)
    requires WellFormed(clusters)
    ensures clusters.keys == [] ==> CourseSummaryOf(course, clusters, abstractive).confidence == 0.0
    ensures 0.0 <= CourseSummaryOf(course, clusters, abstractive).confidence <= 0.95
  {
    assert KeysPresent(clusters);
    CourseConfidenceIsMean(course, clusters, abstractive);
    SummaryConfidences(clusters, TypesOf(clusters), abstractive);
    MeanWithin(Confidences(SummariesOf(clusters.keys, clusters, TypesOf(clusters), abstractive)), 0.95);
  }

  lemma CourseConfidenceIsMean(course: string, clusters: Groups<int, ProcessedReview>, abstractive: seq<string> -> string)
    requires WellFormed(clusters) && KeysPresent(clusters)
    ensures CourseSummaryOf(course, clusters, abstractive).confidence ==
      Mean(Confidences(SummariesOf(clusters.keys, clusters, TypesOf(clusters), abstractive)))
  {
  }

  /** A mean of values in [0, hi] is in [0, hi], and 0.0 for no values. */
  lemma MeanWithin(xs: seq<real>, hi: real)
    requires 0.0 <= hi && forall i :: 0 <= i < |xs| ==> 0.0 <= xs[i] <= hi
    ensures 0.0 <= Mean(xs) <= hi
    ensures xs == [] ==> Mean(xs) == 0.0
  {
    if |xs| > 0 {
      MeanBounds(xs, 0.0, hi);
    }
  }

  /** Every cluster summary's confidence lies in [0, 0.95]. */
  lemma SummaryConfidences(clusters: Groups<int, ProcessedReview>, types: map<int, string>,
                           abstractive: seq<string> -> string)
    requires WellFormed(clusters)
    ensures forall i :: 0 <= i < |clusters.keys| ==>
      0.0 <= Confidences(SummariesOf(clusters.keys, clusters, types, abstractive))[i] <= 0.95
  {
    var sums := SummariesOf(clusters.keys, clusters, types, abstractive);
    SummariesOfSpec(clusters.keys, clusters, types, abstractive);
    forall i | 0 <= i < |clusters.keys| ensures 0.0 <= Confidences(sums)[i] <= 0.95 {
      SummaryConfidence(clusters.members[clusters.keys[i]], TypeFor(types, clusters.keys[i]), abstractive);
    }
  }

  /** Grouped by the clusterer, a course's total counts only the non-noise reviews. */
  lemma CourseTotalExcludesNoise(reviews: seq<ProcessedReview>, labels: seq<int>)
    requires |reviews| >= MinClusterSize && |labels| == |reviews|
    ensures WellFormed(Clusters(reviews, labels))
    ensures Sum(Sizes(Clusters(reviews, labels))) == |NonNoise(labels)|
  {
    assert reviews[..|reviews|] == reviews && labels[..|labels|] == labels;
    LabelledSizes(reviews, labels);
  }

  /** The clusters of any course are well formed. */
  lemma ClustersWellFormed<R>(reviews: seq<R>, labels: seq<int>)
    ensures WellFormed(Clusters(reviews, labels))
  {
    if |reviews| >= MinClusterSize {
      var n := ZipLen(reviews, labels);
      LabelledSizes(reviews[..n], labels[..n]);
    }
  }

  lemma ConfidencesSnoc(summaries: seq<ClusterSummary>, i: nat)
    requires i < |summaries|
    ensures Confidences(summaries[..i + 1]) == Confidences(summaries[..i]) + [summaries[i].confidence]
  {
  }

  /** `sum(s.confidence for s in summaries) / len(summaries)`, 0.0 without summaries. */
  method MeanConfidence(summaries: seq<ClusterSummary>) returns (m: real)
    ensures m == Mean(Confidences(summaries))
  {
    if |summaries| == 0 {
      return 0.0;
    }
    var sum := 0.0;
    for i := 0 to |summaries|
      invariant sum == SumReal(Confidences(summaries[..i]))
    {
      ConfidencesSnoc(summaries, i);
      sum := sum + summaries[i].confidence;
    }
    assert summaries[..|summaries|] == summaries;
    m := sum / |summaries| as real;
  }

  /** Placement onto an empty summary of the course, then the confidence mean. */
  method AssembleSummary(course: string, summaries: seq<ClusterSummary>, total: nat) returns (summary: CourseSummary)
    ensures summary == Assemble(course, summaries, total)
  {
    summary := PlaceSummaries(EmptyCourseSummary(course).(totalReviews := total), summaries);
    var confidence := MeanConfidence(summaries);
    summary := summary.(confidence := confidence);
  }

  /** The assembled summary names its course and carries the given total. */
  lemma AssembleCourse(course: string, summaries: seq<ClusterSummary>, total: nat)
    ensures Assemble(course, summaries, total).course == course
    ensures Assemble(course, summaries, total).totalReviews == total
    ensures Assemble(course, summaries, total).confidence == Mean(Confidences(summaries))
  {
    PlaceAllFields(EmptyCourseSummary(course).(totalReviews := total), summaries);
  }

  /** The per-course body of `_generate_course_summaries`. */
  method SummarizeCourse(course: string, clusters: Groups<int, ProcessedReview>, abstractive: seq<string> -> string)
    returns (summary: CourseSummary)
    requires WellFormed(clusters)
    ensures summary == CourseSummaryOf(course, clusters, abstractive)
  {
    var types := IdentifyTypes(clusters, IdentifyClusterType);
    var summaries := SummarizeClusters(clusters, types, abstractive);
    var total := TotalSize(clusters);
    summary := AssembleSummary(course, summaries, total);
  }

  /** The number of reviews over all clusters. */
  function Total(clusters: Groups<int, ProcessedReview>): (n: nat)
    requires WellFormed(clusters)
    ensures n == Sum(Sizes(clusters))
  {
    assert Sizes(clusters)[..|clusters.keys|] == Sizes(clusters);
    TotalUpTo(clusters, |clusters.keys|)
  }

  function TotalUpTo(clusters: Groups<int, ProcessedReview>, j: nat): (n: nat)
    requires WellFormed(clusters) && j <= |clusters.keys|
    ensures n == Sum(Sizes(clusters)[..j])
  {
    if j == 0 then 0
    else
      assert Sizes(clusters)[..j][..j - 1] == Sizes(clusters)[..j - 1];
      TotalUpTo(clusters, j - 1) + |clusters.members[clusters.keys[j - 1]]|
  }

  /** `sum(len(reviews) for reviews in clusters.values())`. */
  method TotalSize(clusters: Groups<int, ProcessedReview>) returns (total: nat)
    requires WellFormed(clusters)
    ensures total == Total(clusters)
  {
    total := 0;
    for j := 0 to |clusters.keys|
      invariant total == TotalUpTo(clusters, j)
    {
      total := total + |clusters.members[clusters.keys[j]]|;
    }
  }

  /** Every course has well-formed clusters. */
  predicate CoursesPresent(byCourse: ByCourse) {
    forall i :: 0 <= i < |byCourse.courses| ==>
      byCourse.courses[i] in byCourse.clusters && WellFormed(byCourse.clusters[byCourse.courses[i]])
  }

  /** A course summary names its course and counts every review of its clusters. */
  lemma CourseSummaryNamed(course: string, clusters: Groups<int, ProcessedReview>, abstractive: seq<string> -> string)
    requires WellFormed(clusters)
    ensures CourseSummaryOf(course, clusters, abstractive).course == course
    ensures CourseSummaryOf(course, clusters, abstractive).totalReviews == Sum(Sizes(clusters))
  {
    AssembleCourse(course, SummariesOf(clusters.keys, clusters, TypesOf(clusters), abstractive), Total(clusters));
  }

  /** `[f(0), ..., f(n - 1)]`. */
  function Tabulate<T>(n: nat, f: nat --> T): (r: seq<T>)
    requires forall i :: 0 <= i < n ==> f.requires(i)
    ensures |r| == n
  {
    if n == 0 then [] else Tabulate(n - 1, f) + [f(n - 1)]
  }

  lemma {:induction false} TabulateSpec<T>(n: nat, f: nat --> T)
    requires forall i :: 0 <= i < n ==> f.requires(i)
    ensures forall i :: 0 <= i < n ==> Tabulate(n, f)[i] == f(i)
  {
    if n > 0 {
      TabulateSpec(n - 1, f);
    }
  }

  /** The summary of course `i`, as a function value. */
  function CourseFn(byCourse: ByCourse, abstractive: seq<string> -> string): nat --> CourseSummary {
    (i: nat) requires CoursesPresent(byCourse) && i < |byCourse.courses| =>
      CourseSummaryOf(byCourse.courses[i], byCourse.clusters[byCourse.courses[i]], abstractive)
  }

  /** The summaries of the first `n` courses, in course order. */
  function CourseSummariesOf(byCourse: ByCourse, n: nat, abstractive: seq<string> -> string): (r: seq<CourseSummary>)
    requires CoursesPresent(byCourse) && n <= |byCourse.courses|
    ensures |r| == n
  {
    Tabulate(n, CourseFn(byCourse, abstractive))
  }

  /** Summary `i` is that of course `i`. */
  lemma CourseSummariesSpec(byCourse: ByCourse, n: nat, abstractive: seq<string> -> string)
    requires CoursesPresent(byCourse) && n <= |byCourse.courses|
    ensures forall i :: 0 <= i < n ==>
      CourseSummariesOf(byCourse, n, abstractive)[i] ==
        CourseSummaryOf(byCourse.courses[i], byCourse.clusters[byCourse.courses[i]], abstractive)
  {
    TabulateSpec(n, CourseFn(byCourse, abstractive));
  }

  /** Course summary `i` names course `i`. */
  lemma CourseSummariesNamed(byCourse: ByCourse, abstractive: seq<string> -> string)
    requires CoursesPresent(byCourse)
    ensures forall i :: 0 <= i < |byCourse.courses| ==>
      CourseSummariesOf(byCourse, |byCourse.courses|, abstractive)[i].course == byCourse.courses[i]
  {
    CourseSummariesSpec(byCourse, |byCourse.courses|, abstractive);
    forall i | 0 <= i < |byCourse.courses|
      ensures CourseSummariesOf(byCourse, |byCourse.courses|, abstractive)[i].course == byCourse.courses[i]
    {
      CourseSummaryNamed(byCourse.courses[i], byCourse.clusters[byCourse.courses[i]], abstractive);
    }
  }

  /** `_generate_course_summaries`: one summary per course, in course order. */
  method GenerateCourseSummaries(byCourse: ByCourse, abstractive: seq<string> -> string)
    returns (summaries: seq<CourseSummary>)
    requires CoursesPresent(byCourse)
    ensures summaries == CourseSummariesOf(byCourse, |byCourse.courses|, abstractive)
  {
    var courses := byCourse.courses;
    summaries := [];
    for i := 0 to |courses|
      invariant summaries == CourseSummariesOf(byCourse, i, abstractive)
    {
      var summary := SummarizeCourse(courses[i], byCourse.clusters[courses[i]], abstractive);
      assert summary == CourseFn(byCourse, abstractive)(i);
      summaries := summaries + [summary];
    }
  }

  // ---------------------------------------------------------------------------
  // process_single_course
  // ---------------------------------------------------------------------------

  /**
   * What `process_single_course` returns: the labeller stands for the
   * embedding model and the clusterer together.
   */
  function SingleCourseOf(processed: seq<ProcessedReview>, course: string,
                          labelsFor: seq<ProcessedReview> -> seq<int>,
                          abstractive: seq<string> -> string): CourseSummary
  {
    if processed == [] then EmptyCourseSummary(course)
    else
      var clusters := Clusters(processed, labelsFor(processed));
      ClustersWellFormed(processed, labelsFor(processed));
      Assemble(course, SummariesOf(clusters.keys, clusters, TypesOf(clusters), abstractive), |processed|)
  }

  /**
   * With nothing left after preprocessing the summary is empty, with
   * confidence 0.0 and no reviews; otherwise its total is the number of
   * preprocessed reviews, noise included.
   */
  lemma SingleCourseTotals(processed: seq<ProcessedReview>, course: string,
                           labelsFor: seq<ProcessedReview> -> seq<int>, abstractive: seq<string> -> string)
    ensures SingleCourseOf(processed, course, labelsFor, abstractive).course == course
    ensures processed == [] ==>
      SingleCourseOf(processed, course, labelsFor, abstractive).confidence == 0.0 &&
      SingleCourseOf(processed, course, labelsFor, abstractive).totalReviews == 0
    ensures processed != [] ==>
      SingleCourseOf(processed, course, labelsFor, abstractive).totalReviews == |processed|
  {
    if processed != [] {
      var clusters := Clusters(processed, labelsFor(processed));
      ClustersWellFormed(processed, labelsFor(processed));
      AssembleCourse(course, SummariesOf(clusters.keys, clusters, TypesOf(clusters), abstractive), |processed|);
    }
  }

  /** The steps of `process_single_course` after preprocessing. */
  method SummarizeProcessed(processed: seq<ProcessedReview>, course: string,
                            labelsFor: seq<ProcessedReview> -> seq<int>, abstractive: seq<string> -> string)
    returns (summary: CourseSummary)
    ensures summary == SingleCourseOf(processed, course, labelsFor, abstractive)
  {
    if processed == [] {
      return EmptyCourseSummary(course);
    }
    var clusters := ClusterReviews(processed, labelsFor(processed));
    ClustersWellFormed(processed, labelsFor(processed));
    var types := IdentifyTypes(clusters, IdentifyClusterType);
    var summaries := SummarizeClusters(clusters, types, abstractive);
    summary := AssembleSummary(course, summaries, |processed|);
  }

  /** `process_single_course`, with the preprocessing steps' model parts as parameters. */
  method ProcessSingleCourse(rawReviews: seq<Dict>, course: string, stripUrlsAndEmoji: string -> string,
                             similarity: (string, string) -> real, labelsFor: seq<ProcessedReview> -> seq<int>,
                             abstractive: seq<string> -> string) returns (summary: CourseSummary)
    ensures summary == SingleCourseOf(Processed(rawReviews, true, stripUrlsAndEmoji, similarity),
                                      course, labelsFor, abstractive)
  {
    var processed := ProcessReviews(rawReviews, true, stripUrlsAndEmoji, similarity);
    summary := SummarizeProcessed(processed, course, labelsFor, abstractive);
  }

  // ---------------------------------------------------------------------------
  // Professor summary
  // ---------------------------------------------------------------------------

  const PositiveIndicators: seq<string> := ["good", "great", "excellent", "clear", "fair", "helpful"]
  const NegativeIndicators: seq<string> := ["bad", "terrible", "confusing", "unfair", "difficult", "heavy"]

  /** The five fields scanned for strengths and complaints, with their names; `policies` and `other` are not. */
  function ScannedFields(cs: CourseSummary): seq<(string, Option<string>)> {
    [("teaching", cs.teaching), ("exams", cs.exams), ("grading", cs.grading),
     ("workload", cs.workload), ("personality", cs.personality)]
  }

  /** `str.capitalize()`: the first character upper-cased, the rest lower-cased. */
  function Capitalize(s: string): string {
    if s == [] then [] else [ToUpper(s[0])] + Lower(s[1..])
  }

  /** `value[:100]`. */
  function Prefix(s: string, n: nat): (r: string)
    ensures |r| <= n && StartsWith(s, r)
  {
    if |s| <= n then s else s[..n]
  }

  /** `f"{name.capitalize()}: {value[:100]}"`. */
  function Entry(name: string, value: string): string {
    Capitalize(name) + ": " + Prefix(value, 100)
  }

  /** The entries of the fields that are set and mention one of the indicators, in field order. */
  function FieldEntries(fields: seq<(string, Option<string>)>, indicators: seq<string>): seq<string> {
    if |fields| == 0 then []
    else
      var f := fields[|fields| - 1];
      FieldEntries(fields[..|fields| - 1], indicators) +
        (if f.1.Some? && f.1.value != [] && Score(Lower(f.1.value), indicators) > 0
         then [Entry(f.0, f.1.value)] else [])
  }

  /** The entries of every course summary, in course order. */
  function Entries(courses: seq<CourseSummary>, indicators: seq<string>): seq<string> {
    if |courses| == 0 then []
    else
      Entries(courses[..|courses| - 1], indicators) +
        FieldEntries(ScannedFields(courses[|courses| - 1]), indicators)
  }

  /** Only the five scanned fields matter: changing `policies` or `other` changes no entry. */
  lemma {:induction false} EntriesIgnorePolicies(courses: seq<CourseSummary>, others: seq<CourseSummary>,
                                                 indicators: seq<string>)
    requires |others| == |courses|
    requires forall i :: 0 <= i < |courses| ==> ScannedFields(others[i]) == ScannedFields(courses[i])
    ensures Entries(others, indicators) == Entries(courses, indicators)
  {
    if |courses| > 0 {
      EntriesIgnorePolicies(courses[..|courses| - 1], others[..|others| - 1], indicators);
    }
  }

  /** A keyword's own suffix occurs wherever the keyword does. */
  lemma {:induction false} ContainsSuffix(s: string, a: string, b: string)
    requires Contains(s, a + b)
    ensures Contains(s, b)
    decreases |s|
  {
    if StartsWith(s, a + b) {
      assert s[|a|..][..|b|] == (a + b)[|a|..];
      ContainsAt(s, |a|, b);
    } else {
      ContainsSuffix(s[1..], a, b);
    }
  }

  /** A string contains whatever starts at one of its positions. */
  lemma {:induction false} ContainsAt(s: string, i: nat, b: string)
    requires i <= |s| && StartsWith(s[i..], b)
    ensures Contains(s, b)
    decreases i
  {
    if i > 0 {
      assert s[1..][i - 1..] == s[i..];
      ContainsAt(s[1..], i - 1, b);
    }
  }

  /**
   * A field that calls something "unfair" also mentions "fair", so it lands
   * among both the strengths and the complaints.
   */
  lemma UnfairCountsBothWays(value: string)
    requires Contains(Lower(value), "unfair")
    ensures Score(Lower(value), PositiveIndicators) > 0
    ensures Score(Lower(value), NegativeIndicators) > 0
  {
    assert "unfair" == "un" + "fair";
    ContainsSuffix(Lower(value), "un", "fair");
    assert "fair" in PositiveIndicators;
    assert "unfair" in NegativeIndicators;
  }

  /** The overall label from the untruncated counts, with the 1.5 ratio. */
  function OverallSentiment(strengths: nat, complaints: nat): string {
    if strengths as real > complaints as real * 1.5 then "Generally positive"
    else if complaints as real > strengths as real * 1.5 then "Generally negative"
    else "Mixed - varies by course"
  }

  /** The overall label follows the cluster sentiment rule on the entry counts. */
  lemma OverallFollowsSentiment(strengths: nat, complaints: nat)
    ensures OverallSentiment(strengths, complaints) == "Generally positive" <==> Sentiment(strengths, complaints) == "positive"
    ensures OverallSentiment(strengths, complaints) == "Generally negative" <==> Sentiment(strengths, complaints) == "negative"
  {
  }

  function Consistency(courses: nat): string {
    if courses == 1 then "Single course data available"
    else if courses <= 3 then "Limited course data - patterns emerging"
    else "Patterns consistent across multiple courses"
  }

  /** `xs[:5]`. */
  function Top5(xs: seq<string>): (r: seq<string>)
    ensures |r| <= 5 && |r| <= |xs| && r == xs[..|r|] && (|xs| <= 5 ==> r == xs)
  {
    if |xs| <= 5 then xs else xs[..5]
  }

  function CourseConfidences(courses: seq<CourseSummary>): (r: seq<real>)
    ensures |r| == |courses| && forall i :: 0 <= i < |r| ==> r[i] == courses[i].confidence
  {
    MapSeq(courses, (c: CourseSummary) => c.confidence)
  }

  /** What `_generate_professor_summary` returns, in the fields the summary record declares. */
  function ProfessorSummaryOf(professorId: string, courses: seq<CourseSummary>): ProfessorSummary {
    var strengths := Entries(courses, PositiveIndicators);
    var complaints := Entries(courses, NegativeIndicators);
    ProfessorSummary(professorId, OverallSentiment(|strengths|, |complaints|), Top5(strengths), Top5(complaints),
      Consistency(|courses|), Mean(CourseConfidences(courses)), courses)
  }

  /**
   * The lists keep at most five entries, taken from the front; the sentiment
   * is decided on the untruncated counts; the confidence is the mean of the
   * course confidences (0.0 without courses) and stays within their bounds.
   */
  lemma ProfessorSummarySpec(professorId: string, courses: seq<CourseSummary>)
    ensures |ProfessorSummaryOf(professorId, courses).strengths| <= 5
    ensures |ProfessorSummaryOf(professorId, courses).complaints| <= 5
    ensures ProfessorSummaryOf(professorId, courses).strengths ==
      Entries(courses, PositiveIndicators)[..|ProfessorSummaryOf(professorId, courses).strengths|]
    ensures ProfessorSummaryOf(professorId, courses).overallSentiment ==
      OverallSentiment(|Entries(courses, PositiveIndicators)|, |Entries(courses, NegativeIndicators)|)
    ensures courses == [] ==>
      ProfessorSummaryOf(professorId, courses).confidence == 0.0 &&
      ProfessorSummaryOf(professorId, courses).consistency == Consistency(3)
    ensures (forall i :: 0 <= i < |courses| ==> 0.0 <= courses[i].confidence <= 0.95) ==>
      0.0 <= ProfessorSummaryOf(professorId, courses).confidence <= 0.95
  {
    if |courses| > 0 && forall i :: 0 <= i < |courses| ==> 0.0 <= courses[i].confidence <= 0.95 {
      MeanBounds(CourseConfidences(courses), 0.0, 0.95);
    }
  }

  lemma FieldEntriesSnoc(fields: seq<(string, Option<string>)>, j: nat, indicators: seq<string>)
    requires j < |fields|
    ensures FieldEntries(fields[..j + 1], indicators) == FieldEntries(fields[..j], indicators) +
      (if fields[j].1.Some? && fields[j].1.value != [] && Score(Lower(fields[j].1.value), indicators) > 0
       then [Entry(fields[j].0, fields[j].1.value)] else [])
  {
    assert fields[..j + 1][..j] == fields[..j];
  }

  lemma EntriesSnoc(courses: seq<CourseSummary>, i: nat, indicators: seq<string>)
    requires i < |courses|
    ensures Entries(courses[..i + 1], indicators) ==
      Entries(courses[..i], indicators) + FieldEntries(ScannedFields(courses[i]), indicators)
  {
    assert courses[..i + 1][..i] == courses[..i];
  }

  /** The inner loop over one course's fields: each set field is checked against both lists. */
  method ScanFields(fields: seq<(string, Option<string>)>, positive: seq<string>, negative: seq<string>)
    returns (strengths: seq<string>, complaints: seq<string>)
    ensures strengths == FieldEntries(fields, positive)
    ensures complaints == FieldEntries(fields, negative)
  {
    strengths, complaints := [], [];
    for j := 0 to |fields|
      invariant strengths == FieldEntries(fields[..j], positive)
      invariant complaints == FieldEntries(fields[..j], negative)
    {
      FieldEntriesSnoc(fields, j, positive);
      FieldEntriesSnoc(fields, j, negative);
      var (name, value) := fields[j];
      if value.Some? && value.value != [] {
        var lower := Lower(value.value);
        if Score(lower, positive) > 0 {
          strengths := strengths + [Entry(name, value.value)];
        }
        if Score(lower, negative) > 0 {
          complaints := complaints + [Entry(name, value.value)];
        }
      }
    }
    assert fields[..|fields|] == fields;
  }

  /** The outer loop over the course summaries. */
  method ScanCourses(courses: seq<CourseSummary>, positive: seq<string>, negative: seq<string>)
    returns (strengths: seq<string>, complaints: seq<string>)
    ensures strengths == Entries(courses, positive)
    ensures complaints == Entries(courses, negative)
  {
    strengths, complaints := [], [];
    for i := 0 to |courses|
      invariant strengths == Entries(courses[..i], positive)
      invariant complaints == Entries(courses[..i], negative)
    {
      EntriesSnoc(courses, i, positive);
      EntriesSnoc(courses, i, negative);
      var s, c := ScanFields(ScannedFields(courses[i]), positive, negative);
      strengths, complaints := strengths + s, complaints + c;
    }
    assert courses[..|courses|] == courses;
  }

  /** `_generate_professor_summary`. */
  method GenerateProfessorSummary(professorId: string, courses: seq<CourseSummary>) returns (summary: ProfessorSummary)
    ensures summary == ProfessorSummaryOf(professorId, courses)
  {
    var strengths, complaints := ScanCourses(courses, PositiveIndicators, NegativeIndicators);
    var overall := OverallSentiment(|strengths|, |complaints|);
    var consistency := Consistency(|courses|);
    var confidence := Mean(CourseConfidences(courses));
    summary := ProfessorSummary(professorId, overall, Top5(strengths), Top5(complaints), consistency, confidence, courses);
  }

  // ---------------------------------------------------------------------------
  // process_professor_reviews
  // ---------------------------------------------------------------------------

  /** The department used for inference: the stored one, upper-cased and stripped, when it is set. */
  function ProfessorDept(stored: Option<string>): (dept: Option<string>)
    ensures stored.None? || stored == Some([]) ==> dept.None?
  {
    if stored.Some? && stored.value != [] then Some(Strip(Upper(stored.value))) else None
  }

  /** The summary when nothing is left after preprocessing. */
  function NoReviewsSummary(professorId: string): ProfessorSummary {
    ProfessorSummary(professorId, "No reviews available", [], [], "Unknown", 0.0, [])
  }

  /** Whatever the clusterer does, each course gets well-formed clusters. */
  lemma CourseClustersWellFormed<E>(entries: seq<(nat, ProcessedReview)>, embeddings: seq<E>, fit: seq<E> -> seq<int>)
    requires IndicesBelow(entries, |embeddings|)
    ensures WellFormed(CourseClusters(entries, embeddings, fit))
  {
    var reviews := EntryReviews(entries);
    if |reviews| >= MinClusterSize {
      ClustersWellFormed(reviews, fit(Pick(embeddings, EntryIndices(entries))));
    }
  }

  /** `ClusterByCourse` hands every course to the summary step with well-formed clusters. */
  lemma ByCoursePresent<E>(reviews: seq<ProcessedReview>, embeddings: seq<E>, fit: seq<E> -> seq<int>, byCourse: ByCourse)
    requires forall c :: c in byCourse.clusters <==> c in byCourse.courses
    requires forall c :: c in byCourse.clusters ==>
      IndicesBelow(WithKey(Enumerate(reviews), EntryCourse, c), |embeddings|) &&
      byCourse.clusters[c] == CourseClusters(WithKey(Enumerate(reviews), EntryCourse, c), embeddings, fit)
    ensures CoursesPresent(byCourse)
  {
    forall i | 0 <= i < |byCourse.courses| ensures WellFormed(byCourse.clusters[byCourse.courses[i]]) {
      var c := byCourse.courses[i];
      assert c in byCourse.clusters;
      CourseClustersWellFormed(WithKey(Enumerate(reviews), EntryCourse, c), embeddings, fit);
    }
  }

  /**
   * `process_professor_reviews`. The stored department, the normaliser, the
   * embedding generator, the encoder, the clusterer's labelling and the
   * abstractive model are the inputs; the result carries the fields the
   * summary record declares. A review id that is not a string fails at the
   * cache, as `str.encode` would.
   */
  method ProcessProfessorReviews(professorId: string, rawReviews: seq<Dict>, storedDept: Option<string>,
                                 normalizer: CourseNormalizer, generator: EmbeddingGenerator,
                                 stripUrlsAndEmoji: string -> string, similarity: (string, string) -> real,
                                 encode: seq<string> -> seq<Vector>, dim: nat, fit: seq<Vector> -> seq<int>,
                                 abstractive: seq<string> -> string)
    returns (r: Result<ProfessorSummary>)
    modifies generator
    ensures Processed(rawReviews, true, stripUrlsAndEmoji, similarity) == [] ==>
      r == Success(NoReviewsSummary(professorId))
    ensures r.Failure? ==>
      exists e :: e in Expanded(normalizer.crossListings, Processed(rawReviews, true, stripUrlsAndEmoji, similarity),
                                Some(professorId), ProfessorDept(storedDept)) && !e.reviewId.JStr?
    ensures r.Success? && Processed(rawReviews, true, stripUrlsAndEmoji, similarity) != [] ==>
      var courses := Dedup(Keys(Expanded(normalizer.crossListings, Processed(rawReviews, true, stripUrlsAndEmoji, similarity),
                                         Some(professorId), ProfessorDept(storedDept)), CourseKey));
      |r.value.courseSummaries| == |courses| &&
      (forall i :: 0 <= i < |courses| ==> r.value.courseSummaries[i].course == courses[i]) &&
      r.value == ProfessorSummaryOf(professorId, r.value.courseSummaries)
  {
    var dept := ProfessorDept(storedDept);
    var processed := ProcessReviews(rawReviews, true, stripUrlsAndEmoji, similarity);
    if processed == [] {
      return Success(NoReviewsSummary(professorId));
    }
    var expanded := ExpandReviews(normalizer, processed, Some(professorId), dept);
    var embeddings := generator.GenerateForReviews(expanded, true, encode, dim);
    if embeddings.Failure? {
      return Failure(embeddings.error);
    }
    var byCourse := ClusterByCourse(expanded, embeddings.value, fit);
    ByCoursePresent(expanded, embeddings.value, fit, byCourse);
    var courseSummaries := GenerateCourseSummaries(byCourse, abstractive);
    CourseSummariesNamed(byCourse, abstractive);
    var summary := GenerateProfessorSummary(professorId, courseSummaries);
    r := Success(summary);
  }

  // ---------------------------------------------------------------------------
  // The summary records as written
  // ---------------------------------------------------------------------------

  /** `ProfessorSummary(...)` given `total_reviews`, a field the dataclass does not declare. */
  const ProfessorKeywordError := "TypeError: ProfessorSummary.__init__() got an unexpected keyword argument 'total_reviews'"
  /** Reading `original_rating` from a `ProcessedReview`, which declares no such field. */
  const RatingAttributeError := "AttributeError: 'ProcessedReview' object has no attribute 'original_rating'"
  /** The final `CourseSummary(...)` given `avg_rating`, a field the dataclass does not declare. */
  const CourseKeywordError := "TypeError: CourseSummary.__init__() got an unexpected keyword argument 'avg_rating'"

  /**
   * The statistics block of `_generate_course_summaries` for one course, as
   * written: a course with reviews raises on the rating list, and a course
   * without raises on the final constructor call. No course gets through.
   */
  function CourseStatsAsWritten(clusters: Groups<int, ProcessedReview>): (error: string)
    requires WellFormed(clusters)
    ensures error == RatingAttributeError <==> Sum(Sizes(clusters)) > 0
    ensures error == CourseKeywordError <==> Sum(Sizes(clusters)) == 0
  {
    if Total(clusters) > 0 then RatingAttributeError else CourseKeywordError
  }

  /** `_generate_course_summaries` as written: the first course raises, so only an empty course list returns. */
  function CourseSummariesAsWritten(byCourse: ByCourse): (r: Result<seq<CourseSummary>>)
    requires CoursesPresent(byCourse)
    ensures r.Success? <==> byCourse.courses == []
    ensures r.Success? ==> r.value == []
    ensures r.Failure? ==> r.error == RatingAttributeError || r.error == CourseKeywordError
  {
    if byCourse.courses == [] then Success([])
    else
      var first := byCourse.courses[0];
      Failure(CourseStatsAsWritten(byCourse.clusters[first]))
  }

  /**
   * `_generate_professor_summary` as written: the rating list raises as soon
   * as there is a review, and the final `ProfessorSummary(...)` call raises
   * otherwise. It never returns a summary.
   */
  function ProfessorSummaryAsWritten(reviews: seq<ProcessedReview>): (error: string)
    ensures error == RatingAttributeError <==> reviews != []
    ensures error == ProfessorKeywordError <==> reviews == []
  {
    if reviews != [] then RatingAttributeError else ProfessorKeywordError
  }

  /** Every review id is a string, so the embedding cache accepts them all. */
  predicate StringIds(reviews: seq<ProcessedReview>) {
    forall i :: 0 <= i < |reviews| ==> reviews[i].reviewId.JStr?
  }

  /** Some course is found whenever some review is clustered. */
  lemma CoursesOfReviews<T, K>(xs: seq<T>, key: T -> K)
    requires |xs| > 0
    ensures Dedup(Keys(xs, key)) != []
  {
    DedupMembers(Keys(xs, key));
    assert Keys(xs, key)[0] in Keys(xs, key);
  }

  /**
   * `process_professor_reviews` as written: every call raises. Without
   * reviews the early return builds its record with `total_reviews`; with
   * reviews the remaining steps raise (see `ProcessExpandedAsWritten`).
   */
  method ProcessProfessorReviewsAsWritten(professorId: string, rawReviews: seq<Dict>, storedDept: Option<string>,
                                          normalizer: CourseNormalizer, generator: EmbeddingGenerator,
                                          stripUrlsAndEmoji: string -> string, similarity: (string, string) -> real,
                                          encode: seq<string> -> seq<Vector>, dim: nat, fit: seq<Vector> -> seq<int>)
    returns (r: Result<ProfessorSummary>)
    modifies generator
    ensures r.Failure?
    ensures Processed(rawReviews, true, stripUrlsAndEmoji, similarity) == [] ==> r == Failure(ProfessorKeywordError)
    ensures Processed(rawReviews, true, stripUrlsAndEmoji, similarity) != [] &&
            StringIds(Expanded(normalizer.crossListings, Processed(rawReviews, true, stripUrlsAndEmoji, similarity),
                               Some(professorId), ProfessorDept(storedDept))) ==>
              r.error == RatingAttributeError || r.error == CourseKeywordError
  {
    var dept := ProfessorDept(storedDept);
    var processed := ProcessReviews(rawReviews, true, stripUrlsAndEmoji, similarity);
    if processed == [] {
      return Failure(ProfessorKeywordError);
    }
    var expanded := ExpandReviews(normalizer, processed, Some(professorId), dept);
    ExpandedLength(normalizer.crossListings, processed, Some(professorId), dept);
    r := ProcessExpandedAsWritten(expanded, generator, encode, dim, fit);
  }

  /**
   * The steps after the course-code expansion, as written: a review id that
   * is not a string fails at the cache; otherwise there is at least one
   * course, and the course step raises on the first, before the professor
   * step is reached.
   */
  method ProcessExpandedAsWritten(expanded: seq<ProcessedReview>, generator: EmbeddingGenerator,
                                  encode: seq<string> -> seq<Vector>, dim: nat, fit: seq<Vector> -> seq<int>)
    returns (r: Result<ProfessorSummary>)
    requires expanded != []
    modifies generator
    ensures r.Failure?
    ensures StringIds(expanded) ==> r.error == RatingAttributeError || r.error == CourseKeywordError
  {
    var embeddings := generator.GenerateForReviews(expanded, true, encode, dim);
    if embeddings.Failure? {
      return Failure(embeddings.error);
    }
    var byCourse := ClusterByCourse(expanded, embeddings.value, fit);
    ByCoursePresent(expanded, embeddings.value, fit, byCourse);
    CoursesOfReviews(expanded, CourseKey);
    var courseSummaries := CourseSummariesAsWritten(byCourse);
    // The professor step (`ProfessorSummaryAsWritten`) is never reached.
    assert courseSummaries.Failure?;
    r := Failure(courseSummaries.error);
  }
}
