// Clustering bookkeeping of the review summariser: grouping reviews by the
// labels a density clusterer assigned (noise dropped), grouping by course
// before clustering, and naming a cluster by keyword counts. The clusterer
// itself is a parameter: a function from the embeddings of one course to one
// label per review.
module Clustering {
  import opened Common
  import opened ProfessorSchemas
  import opened Preprocess

  /** The label a density clusterer gives to noise. */
  const Noise: int := -1

  // ---------------------------------------------------------------------------
  // cluster_reviews
  // ---------------------------------------------------------------------------

  /** The non-noise labels, in input order. */
  function NonNoise(labels: seq<int>): seq<int> {
    Filter(labels, (l: int) => l != Noise)
  }

  /** The clusters the grouping loop builds from equally long reviews and labels. */
  function Labelled<R>(reviews: seq<R>, labels: seq<int>): Groups<int, R>
    requires |reviews| == |labels|
  {
    if |reviews| == 0 then Groups([], map[])
    else
      var n := |reviews| - 1;
      var g := Labelled(reviews[..n], labels[..n]);
      if labels[n] == Noise then g else Add(g, labels[n], reviews[n])
  }

  /** The reviews labelled `c`, in input order. */
  function InCluster<R>(reviews: seq<R>, labels: seq<int>, c: int): seq<R>
    requires |reviews| == |labels|
  {
    if |reviews| == 0 then []
    else
      var n := |reviews| - 1;
      InCluster(reviews[..n], labels[..n], c) + (if labels[n] == c then [reviews[n]] else [])
  }

  /** `zip` stops at the shorter list. */
  function ZipLen<R>(reviews: seq<R>, labels: seq<int>): (n: nat)
    ensures n <= |reviews| && n <= |labels| && (n == |reviews| || n == |labels|)
  {
    if |reviews| <= |labels| then |reviews| else |labels|
  }

  /** What `cluster_reviews` returns for the given labels. */
  function Clusters<R>(reviews: seq<R>, labels: seq<int>): Groups<int, R> {
    if |reviews| < MinClusterSize then Groups([0], map[0 := reviews])
    else
      var n := ZipLen(reviews, labels);
      Labelled(reviews[..n], labels[..n])
  }

  /** The grouping loop over `zip(reviews, labels)`. */
  method ClusterReviews<R>(reviews: seq<R>, labels: seq<int>) returns (clusters: Groups<int, R>)
    ensures clusters == Clusters(reviews, labels)
    ensures |reviews| < MinClusterSize ==> clusters == Groups([0], map[0 := reviews])
  {
    if |reviews| < MinClusterSize {
      return Groups([0], map[0 := reviews]);
    }
    var n := ZipLen(reviews, labels);
    var rs, ls := reviews[..n], labels[..n];
    clusters := Groups([], map[]);
    for i := 0 to n
      invariant clusters == Labelled(rs[..i], ls[..i])
    {
      assert rs[..i + 1][..i] == rs[..i];
      assert ls[..i + 1][..i] == ls[..i];
      if ls[i] != Noise {
        clusters := Add(clusters, ls[i], rs[i]);
      }
    }
    assert rs[..n] == rs && ls[..n] == ls;
  }

  lemma {:induction false} InClusterAbsent<R>(reviews: seq<R>, labels: seq<int>, c: int)
    requires |reviews| == |labels| && c !in labels
    ensures InCluster(reviews, labels, c) == []
  {
    if |reviews| > 0 {
      var n := |reviews| - 1;
      assert labels[n] in labels;
      InClusterAbsent(reviews[..n], labels[..n], c);
    }
  }

  /**
   * The clusters partition the non-noise reviews: a cluster id is present
   * exactly when some review carries it as a non-noise label, and the cluster
   * of each id holds exactly the reviews with that label, in input order.
   */
  lemma {:induction false} LabelledMembers<R>(reviews: seq<R>, labels: seq<int>)
    requires |reviews| == |labels|
    ensures forall c :: c in Labelled(reviews, labels).members <==> c != Noise && c in labels
    ensures forall c :: c in Labelled(reviews, labels).members ==>
      Labelled(reviews, labels).members[c] == InCluster(reviews, labels, c)
  {
    if |reviews| > 0 {
      var n := |reviews| - 1;
      var ps, pl := reviews[..n], labels[..n];
      LabelledMembers(ps, pl);
      var g := Labelled(ps, pl);
      var l := labels[n];
      assert labels == pl + [l];
      assert forall c :: c in labels <==> c in pl || c == l;
      if l != Noise && l !in g.members {
        InClusterAbsent(ps, pl, l);
      }
    }
  }

  /** The cluster ids are the distinct non-noise labels, in first-seen order. */
  lemma {:induction false} LabelledKeys<R>(reviews: seq<R>, labels: seq<int>)
    requires |reviews| == |labels|
    ensures Labelled(reviews, labels).keys == Dedup(NonNoise(labels))
  {
    if |reviews| > 0 {
      var n := |reviews| - 1;
      var ps, pl := reviews[..n], labels[..n];
      LabelledKeys(ps, pl);
      LabelledMembers(ps, pl);
      DedupMembers(NonNoise(pl));
      assert labels[..n] == pl;
      var l := labels[n];
      if l != Noise {
        assert NonNoise(labels) == NonNoise(pl) + [l];
        DedupSnoc(NonNoise(pl), l);
        assert l in Dedup(NonNoise(pl)) <==> l in Labelled(ps, pl).members;
      } else {
        assert NonNoise(labels) == NonNoise(pl);
      }
    }
  }

  /** The cluster sizes add up to the number of non-noise reviews. */
  lemma {:induction false} LabelledSizes<R>(reviews: seq<R>, labels: seq<int>)
    requires |reviews| == |labels|
    ensures WellFormed(Labelled(reviews, labels))
    ensures Sum(Sizes(Labelled(reviews, labels))) == |NonNoise(labels)|
  {
    if |reviews| > 0 {
      var n := |reviews| - 1;
      var g := Labelled(reviews[..n], labels[..n]);
      LabelledSizes(reviews[..n], labels[..n]);
      if labels[n] != Noise {
        assert Labelled(reviews, labels) == Add(g, labels[n], reviews[n]);
        AddSizes(g, labels[n], reviews[n]);
      } else {
        assert Labelled(reviews, labels) == g;
      }
    }
  }

  // ---------------------------------------------------------------------------
  // identify_cluster_type
  // ---------------------------------------------------------------------------

  /** The number of keywords that occur in the text. */
  function Score(text: string, keywords: seq<string>): (n: nat)
    ensures n == 0 <==> forall k :: k in keywords ==> !Contains(text, k)
    ensures n <= |keywords|
  {
    var hits := Filter(keywords, (k: string) => Contains(text, k));
    assert hits != [] ==> hits[0] in hits;
    |hits|
  }

  /** The score of every type of the table, in table order. */
  function Scores(text: string, table: seq<(string, seq<string>)>): (r: seq<nat>)
    ensures |r| == |table| && forall i :: 0 <= i < |table| ==> r[i] == Score(text, table[i].1)
  {
    MapSeq(table, (e: (string, seq<string>)) => Score(text, e.1))
  }

  /** The first position holding the largest value, as Python's `max` over a dict picks it. */
  function FirstMax(xs: seq<nat>): (i: nat)
    requires |xs| > 0
    ensures i < |xs|
    ensures forall j :: 0 <= j < |xs| ==> xs[j] <= xs[i]
    ensures forall j :: 0 <= j < i ==> xs[j] < xs[i]
  {
    if |xs| == 1 then 0
    else
      var i := FirstMax(xs[..|xs| - 1]);
      if xs[|xs| - 1] > xs[i] then |xs| - 1 else i
  }

  /** The type with the highest keyword score, or "other" when nothing matches. */
  function TypeOf(text: string, table: seq<(string, seq<string>)>): string {
    if |table| == 0 then "other"
    else
      var scores := Scores(text, table);
      var best := FirstMax(scores);
      if scores[best] > 0 then table[best].0 else "other"
  }

  /** The texts lower-cased and joined with single spaces. */
  function CombinedText(reviews: seq<ProcessedReview>): string {
    Join(" ", MapSeq(reviews, (r: ProcessedReview) => Lower(r.text)))
  }

  function IdentifyClusterType(reviews: seq<ProcessedReview>): string {
    TypeOf(CombinedText(reviews), ClusterKeywords)
  }

  /** No type of the table is called "other". */
  predicate NamesDiffer(table: seq<(string, seq<string>)>) {
    forall i :: 0 <= i < |table| ==> table[i].0 != "other"
  }

  /** No keyword of any type of the table occurs in the text. */
  predicate NoKeyword(text: string, table: seq<(string, seq<string>)>) {
    forall i, k :: 0 <= i < |table| && k in table[i].1 ==> !Contains(text, k)
  }

  /** Nothing matches exactly when every type scores zero. */
  lemma NoKeywordScores(text: string, table: seq<(string, seq<string>)>)
    ensures NoKeyword(text, table) <==> forall i :: 0 <= i < |table| ==> Score(text, table[i].1) == 0
  {
    if !NoKeyword(text, table) {
      var i, k :| 0 <= i < |table| && k in table[i].1 && Contains(text, k);
      assert Score(text, table[i].1) != 0;
    }
  }

  /** The result is "other" exactly when no keyword of any type occurs in the text. */
  lemma TypeOfOther(text: string, table: seq<(string, seq<string>)>)
    requires NamesDiffer(table)
    ensures TypeOf(text, table) == "other" <==> NoKeyword(text, table)
  {
    NoKeywordScores(text, table);
    if |table| > 0 {
      var scores := Scores(text, table);
      var best := FirstMax(scores);
      if scores[best] == 0 {
        assert forall i :: 0 <= i < |table| ==> Score(text, table[i].1) == 0 by {
          assert forall i :: 0 <= i < |table| ==> scores[i] <= scores[best];
        }
      } else {
        assert TypeOf(text, table) == table[best].0;
        assert Score(text, table[best].1) != 0;
      }
    }
  }

  /**
   * Otherwise the result names a type whose score is the highest, and every
   * earlier type scored strictly less: ties go to the earliest type.
   */
  lemma TypeOfBest(text: string, table: seq<(string, seq<string>)>)
    requires NamesDiffer(table)
    requires TypeOf(text, table) != "other"
    ensures exists i :: (0 <= i < |table| && table[i].0 == TypeOf(text, table) &&
      Score(text, table[i].1) > 0 &&
      (forall j :: 0 <= j < |table| ==> Score(text, table[j].1) <= Score(text, table[i].1)) &&
      (forall j :: 0 <= j < i ==> Score(text, table[j].1) < Score(text, table[i].1)))
  {
    var scores := Scores(text, table);
    var best := FirstMax(scores);
    assert table[best].0 == TypeOf(text, table);
  }

  /** The keyword table names six of the seven cluster types, none of them "other". */
  lemma ClusterKeywordNames()
    ensures NamesDiffer(ClusterKeywords)
    ensures forall i :: 0 <= i < |ClusterKeywords| ==> ClusterKeywords[i].0 in ClusterTypes
  {
  }

  /** A cluster's type is one of the declared cluster types. */
  lemma IdentifiedTypeDeclared(reviews: seq<ProcessedReview>)
    ensures IdentifyClusterType(reviews) in ClusterTypes
  {
    ClusterKeywordNames();
    var text := CombinedText(reviews);
    if IdentifyClusterType(reviews) != "other" {
      TypeOfBest(text, ClusterKeywords);
    }
  }

  // ---------------------------------------------------------------------------
  // cluster_by_course
  // ---------------------------------------------------------------------------

  /** `review.course_code or "UNKNOWN"`. */
  function CourseKey(r: ProcessedReview): string {
    if r.courseCode.Some? && r.courseCode.value != "" then r.courseCode.value else "UNKNOWN"
  }

  function EntryCourse(e: (nat, ProcessedReview)): string { CourseKey(e.1) }

  /** `enumerate(reviews)`. */
  function Enumerate<R>(xs: seq<R>): (r: seq<(nat, R)>)
    ensures |r| == |xs| && forall i :: 0 <= i < |xs| ==> r[i] == (i, xs[i])
  {
    seq(|xs|, i requires 0 <= i < |xs| => (i, xs[i]))
  }

  /** The reviews and the original indices of one course, in input order. */
  function EntryReviews(entries: seq<(nat, ProcessedReview)>): seq<ProcessedReview> {
    MapSeq(entries, (e: (nat, ProcessedReview)) => e.1)
  }

  function EntryIndices(entries: seq<(nat, ProcessedReview)>): seq<nat> {
    MapSeq(entries, (e: (nat, ProcessedReview)) => e.0)
  }

  /** Every entry's index is a position of a list of length `n`. */
  predicate IndicesBelow(entries: seq<(nat, ProcessedReview)>, n: nat) {
    forall m :: 0 <= m < |entries| ==> entries[m].0 < n
  }

  /** The clusters of one course, the clusterer run on the embeddings at its reviews' indices. */
  function CourseClusters<E>(entries: seq<(nat, ProcessedReview)>, embeddings: seq<E>,
                             fit: seq<E> -> seq<int>): Groups<int, ProcessedReview>
    requires IndicesBelow(entries, |embeddings|)
  {
    var reviews := EntryReviews(entries);
    if |reviews| < MinClusterSize then Groups([0], map[0 := reviews])
    else Clusters(reviews, fit(Pick(embeddings, EntryIndices(entries))))
  }

  /** A dict from course code to its clusters, with the courses in insertion order. */
  datatype ByCourse = ByCourse(courses: seq<string>, clusters: map<string, Groups<int, ProcessedReview>>)

  /** The entries of one course come from the input at the indices they carry. */
  lemma {:induction false} CourseEntries(reviews: seq<ProcessedReview>, c: string)
    ensures EntryReviews(WithKey(Enumerate(reviews), EntryCourse, c)) == WithKey(reviews, CourseKey, c)
    ensures IndicesBelow(WithKey(Enumerate(reviews), EntryCourse, c), |reviews|)
    ensures forall m :: 0 <= m < |WithKey(Enumerate(reviews), EntryCourse, c)| ==>
      reviews[WithKey(Enumerate(reviews), EntryCourse, c)[m].0] == WithKey(Enumerate(reviews), EntryCourse, c)[m].1
  {
    if |reviews| > 0 {
      var n := |reviews| - 1;
      CourseEntries(reviews[..n], c);
      assert Enumerate(reviews)[..n] == Enumerate(reviews[..n]);
      var before := WithKey(Enumerate(reviews[..n]), EntryCourse, c);
      var e := Enumerate(reviews)[n];
      var tail := if EntryCourse(e) == c then [e] else [];
      assert WithKey(Enumerate(reviews), EntryCourse, c) == before + tail;
      assert EntryReviews(before + tail) == EntryReviews(before) + EntryReviews(tail);
    }
  }

  /**
   * The grouping by course, then one clustering per course in insertion
   * order. The clusterer needs one embedding per review.
   */
  method ClusterByCourse<E>(reviews: seq<ProcessedReview>, embeddings: seq<E>, fit: seq<E> -> seq<int>)
    returns (result: ByCourse)
    requires |embeddings| == |reviews|
    ensures result.courses == Dedup(Keys(reviews, CourseKey))
    ensures forall c :: c in result.clusters <==> c in result.courses
    ensures forall c :: c in result.clusters ==>
      IndicesBelow(WithKey(Enumerate(reviews), EntryCourse, c), |embeddings|) &&
      result.clusters[c] == CourseClusters(WithKey(Enumerate(reviews), EntryCourse, c), embeddings, fit)
  {
    var entries := Enumerate(reviews);
    var byCourse := GroupInOrder(entries, EntryCourse);
    CourseGrouping(reviews);
    var courses := byCourse.keys;
    var clusters: map<string, Groups<int, ProcessedReview>> := map[];
    for j := 0 to |courses|
      invariant forall c :: c in clusters <==> c in courses[..j]
      invariant forall c :: c in clusters ==>
        clusters[c] == CourseClusters(WithKey(entries, EntryCourse, c), embeddings, fit)
    {
      var c := courses[j];
      assert c in byCourse.members;
      var courseEntries := byCourse.members[c];
      assert courseEntries == WithKey(entries, EntryCourse, c);
      clusters := AddCourse(clusters, courses, j, courseEntries, entries, embeddings, fit);
    }
    assert courses[..|courses|] == courses;
    result := ByCourse(courses, clusters);
  }

  /** The body of the loop over the courses, for the course at `j`. */
  method AddCourse<E>(clusters0: map<string, Groups<int, ProcessedReview>>, courses: seq<string>, j: nat,
                      courseEntries: seq<(nat, ProcessedReview)>, ghost entries: seq<(nat, ProcessedReview)>,
                      embeddings: seq<E>, fit: seq<E> -> seq<int>)
    returns (clusters: map<string, Groups<int, ProcessedReview>>)
    requires j < |courses| && courseEntries == WithKey(entries, EntryCourse, courses[j])
    requires forall c :: IndicesBelow(WithKey(entries, EntryCourse, c), |embeddings|)
    requires forall c :: c in clusters0 <==> c in courses[..j]
    requires forall c :: c in clusters0 ==> clusters0[c] == CourseClusters(WithKey(entries, EntryCourse, c), embeddings, fit)
    ensures forall c :: c in clusters <==> c in courses[..j + 1]
    ensures forall c :: c in clusters ==> clusters[c] == CourseClusters(WithKey(entries, EntryCourse, c), embeddings, fit)
  {
    var courseClusters := ClusterCourse(courseEntries, embeddings, fit);
    clusters := clusters0[courses[j] := courseClusters];
    assert courses[..j + 1] == courses[..j] + [courses[j]];
  }

  /** One course's clusters: a single cluster when it has fewer than three reviews. */
  method ClusterCourse<E>(courseEntries: seq<(nat, ProcessedReview)>, embeddings: seq<E>, fit: seq<E> -> seq<int>)
    returns (courseClusters: Groups<int, ProcessedReview>)
    requires IndicesBelow(courseEntries, |embeddings|)
    ensures courseClusters == CourseClusters(courseEntries, embeddings, fit)
  {
    var courseReviews := EntryReviews(courseEntries);
    if |courseReviews| < MinClusterSize {
      courseClusters := Groups([0], map[0 := courseReviews]);
    } else {
      var courseEmbeddings := Pick(embeddings, EntryIndices(courseEntries));
      courseClusters := ClusterReviews(courseReviews, fit(courseEmbeddings));
    }
  }

  /** The facts about the grouping of the enumerated reviews that the clustering loop needs. */
  lemma CourseGrouping(reviews: seq<ProcessedReview>)
    ensures Dedup(Keys(Enumerate(reviews), EntryCourse)) == Dedup(Keys(reviews, CourseKey))
    ensures forall c :: c in Dedup(Keys(reviews, CourseKey)) ==> c in GroupBy(Enumerate(reviews), EntryCourse).members
    ensures forall c :: IndicesBelow(WithKey(Enumerate(reviews), EntryCourse, c), |reviews|)
  {
    var entries := Enumerate(reviews);
    assert Keys(entries, EntryCourse) == Keys(reviews, CourseKey);
    GroupKeyMemberAll(entries);
    forall c ensures IndicesBelow(WithKey(entries, EntryCourse, c), |reviews|) {
      CourseEntries(reviews, c);
    }
  }

  /** Every key of the grouping has a group. */
  lemma GroupKeyMemberAll(entries: seq<(nat, ProcessedReview)>)
    ensures forall c :: c in Dedup(Keys(entries, EntryCourse)) ==> c in GroupBy(entries, EntryCourse).members
  {
    GroupByPartition(entries, EntryCourse);
    DedupSpec(Keys(entries, EntryCourse));
  }

  /** Every review belongs to the course it names, and the courses are distinct. */
  lemma CoursesDistinct(reviews: seq<ProcessedReview>)
    ensures NoDuplicates(Dedup(Keys(reviews, CourseKey)))
    ensures forall i :: 0 <= i < |reviews| ==> CourseKey(reviews[i]) in Dedup(Keys(reviews, CourseKey))
  {
    DedupSpec(Keys(reviews, CourseKey));
  }
}
