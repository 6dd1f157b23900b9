// The records passed between the stages of the hierarchical review
// summariser, and the constants that tune it.
module ProfessorSchemas {
  import opened Common
  import opened Json

  /** Reviews with fewer words than this are dropped. */
  const MinReviewLength: nat := 8
  /** Two reviews this similar (cosine) or more are near-duplicates. */
  const DeduplicationThreshold: real := 0.95
  /** Fewer reviews than this are not clustered: they form one cluster. */
  const MinClusterSize: nat := 3

  /** The cluster types, in declaration order; "other" is the fallback. */
  const ClusterTypes: seq<string> :=
    ["teaching", "exams", "grading", "workload", "personality", "policies", "other"]

  /** Keyword lists per cluster type, in dictionary order. */
  const ClusterKeywords: seq<(string, seq<string>)> := [
    ("teaching", ["teach", "lecture", "explain", "clear", "confusing", "understand", "present"]),
    ("exams", ["exam", "test", "quiz", "midterm", "final", "assessment"]),
    ("grading", ["grade", "point", "curve", "fair", "harsh", "strict", "lenient"]),
    ("workload", ["work", "homework", "assignment", "project", "busy", "time", "heavy", "light"]),
    ("personality", ["nice", "friendly", "helpful", "approachable", "rude", "mean", "strict"]),
    ("policies", ["attendance", "late", "policy", "rule", "allow", "permit", "require"])]

  /** A cleaned review. The identifiers are whatever the input dictionary held. */
  datatype ProcessedReview = ProcessedReview(
    reviewId: Json,
    professorId: Json,
    courseCode: Option<string>,
    text: string,
    originalText: Json,
    wordCount: nat)

  datatype ClusterSummary = ClusterSummary(
    clusterType: string,
    summary: string,
    reviewCount: nat,
    sentiment: string,
    confidence: real)

  datatype CourseSummary = CourseSummary(
    course: string,
    teaching: Option<string>,
    exams: Option<string>,
    grading: Option<string>,
    workload: Option<string>,
    personality: Option<string>,
    policies: Option<string>,
    other: Option<string>,
    confidence: real,
    totalReviews: nat)

  /** A course summary with only its course set, as the dataclass defaults give it. */
  function EmptyCourseSummary(course: string): CourseSummary {
    CourseSummary(course, None, None, None, None, None, None, None, 0.0, 0)
  }

  datatype ProfessorSummary = ProfessorSummary(
    professorId: string,
    overallSentiment: string,
    strengths: seq<string>,
    complaints: seq<string>,
    consistency: string,
    confidence: real,
    courseSummaries: seq<CourseSummary>)
}
