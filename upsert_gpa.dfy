// The incremental GPA loader: which semester bound each fetched course gets,
// the collection of all extracted records, and the insert batches.
module UpsertGpa {
  import opened Common
  import opened Json
  import opened GpaRecords
  import opened AnexGpa

  /** Records per insert batch. */
  const BulkInsertSize: int := 5000

  /**
   * One row of the courses-to-fetch query: a course, and the latest semester
   * already stored for it (both None for a course with no GPA data yet).
   */
  datatype CourseToFetch = CourseToFetch(dept: string, number: string, year: Option<string>, semester: Option<string>)

  /** A successful anex.us response: the course tuple the fetcher attached, and the decoded body. */
  datatype Response = Response(course: Option<(string, string)>, body: Dict)

  predicate IsSet(v: Option<string>) { v.Some? && v.value != [] }

  /** The dict comprehension over the first `n` rows; a later row for the same course wins. */
  function LatestUpTo(courses: seq<CourseToFetch>, n: nat): map<(string, string), (string, string)>
    requires n <= |courses|
  {
    if n == 0 then map[]
    else
      var m := LatestUpTo(courses, n - 1);
      var c := courses[n - 1];
      if IsSet(c.year) && IsSet(c.semester) then m[(c.dept, c.number) := (c.year.value, c.semester.value)]
      else m
  }

  /** `course_latest_semester`. */
  function LatestSemesters(courses: seq<CourseToFetch>): map<(string, string), (string, string)> {
    LatestUpTo(courses, |courses|)
  }

  /** Row `i` has both year and semester set. */
  predicate Bounded(courses: seq<CourseToFetch>, i: nat)
    requires i < |courses|
  {
    IsSet(courses[i].year) && IsSet(courses[i].semester)
  }

  function Key(c: CourseToFetch): (string, string) { (c.dept, c.number) }

  /** A course has a bound exactly when some row for it has both year and semester set. */
  lemma {:induction false} LatestKeys(courses: seq<CourseToFetch>, n: nat)
    requires n <= |courses|
    ensures forall k :: k in LatestUpTo(courses, n) <==>
      exists i :: 0 <= i < n && Key(courses[i]) == k && Bounded(courses, i)
  {
    if n > 0 {
      LatestKeys(courses, n - 1);
      forall k | exists i :: 0 <= i < n && Key(courses[i]) == k && Bounded(courses, i)
        ensures k in LatestUpTo(courses, n)
      {
        var i :| 0 <= i < n && Key(courses[i]) == k && Bounded(courses, i);
        if i < n - 1 {
          assert k in LatestUpTo(courses, n - 1);
        }
      }
    }
  }

  /** The bound of a course is the one of its last row with both fields set. */
  lemma {:induction false} LatestValue(courses: seq<CourseToFetch>, n: nat, i: nat)
    requires i < n <= |courses| && Bounded(courses, i)
    requires forall j :: i < j < n && Key(courses[j]) == Key(courses[i]) ==> !Bounded(courses, j)
    ensures Key(courses[i]) in LatestUpTo(courses, n)
    ensures LatestUpTo(courses, n)[Key(courses[i])] == (courses[i].year.value, courses[i].semester.value)
  {
    if i < n - 1 {
      LatestValue(courses, n - 1, i);
    }
  }

  /**
   * What one response contributes: nothing without a course tuple; the
   * records newer than the stored semester when the course has one; all
   * records otherwise.
   */
  function ResponseRecords(r: Response, latest: map<(string, string), (string, string)>): Outcome<seq<GpaRecord>> {
    if r.course.None? then Ok([])
    else if r.course.value in latest then
      var bound := latest[r.course.value];
      Records(r.body, Some(bound.0), Some(bound.1))
    else Records(r.body, None, None)
  }

  /**
   * A response for a course whose last row with both fields set is row `i`
   * is filtered by that row's semester.
   */
  lemma DispatchFiltered(courses: seq<CourseToFetch>, r: Response, i: nat)
    requires i < |courses| && Bounded(courses, i) && r.course == Some(Key(courses[i]))
    requires forall j :: i < j < |courses| && Key(courses[j]) == Key(courses[i]) ==> !Bounded(courses, j)
    ensures ResponseRecords(r, LatestSemesters(courses)) ==
      Records(r.body, courses[i].year, courses[i].semester)
  {
    LatestValue(courses, |courses|, i);
  }

  /** A response for a course with no row that has both fields set gets every record. */
  lemma DispatchUnfiltered(courses: seq<CourseToFetch>, r: Response)
    requires r.course.Some?
    requires forall j :: 0 <= j < |courses| && Key(courses[j]) == r.course.value ==> !Bounded(courses, j)
    ensures ResponseRecords(r, LatestSemesters(courses)) == Records(r.body, None, None)
  {
    LatestKeys(courses, |courses|);
  }

  /** `all_records` after the first `n` responses; an extraction that raises ends the run. */
  function AllRecordsUpTo(responses: seq<Response>, latest: map<(string, string), (string, string)>, n: nat): Outcome<seq<GpaRecord>>
    requires n <= |responses|
  {
    if n == 0 then Ok([])
    else
      var prefix :- AllRecordsUpTo(responses, latest, n - 1);
      var more :- ResponseRecords(responses[n - 1], latest);
      Ok(prefix + more)
  }

  /** Once an extraction has raised, the run stays failed with that error. */
  lemma {:induction false} FailureStays(responses: seq<Response>, latest: map<(string, string), (string, string)>, n: nat, m: nat)
    requires n <= m <= |responses| && AllRecordsUpTo(responses, latest, n).Fail?
    ensures AllRecordsUpTo(responses, latest, m) == AllRecordsUpTo(responses, latest, n)
    decreases m - n
  {
    if n < m {
      FailureStays(responses, latest, n + 1, m);
    }
  }

  /** The record-collection loop of `main_async`. */
  method CollectRecords(courses: seq<CourseToFetch>, responses: seq<Response>) returns (r: Outcome<seq<GpaRecord>>)
    ensures r == AllRecordsUpTo(responses, LatestSemesters(courses), |responses|)
  {
    var latest := LatestSemesters(courses);
    var allRecords: seq<GpaRecord> := [];
    for i := 0 to |responses|
      invariant AllRecordsUpTo(responses, latest, i) == Ok(allRecords)
    {
      var response := responses[i];
      if response.course.Some? {
        var records;
        if response.course.value in latest {
          var bound := latest[response.course.value];
          records := ExtractClassRecords(response.body, Some(bound.0), Some(bound.1));
        } else {
          records := ExtractClassRecords(response.body, None, None);
        }
        assert records == ResponseRecords(response, latest);
        if records.Fail? {
          FailureStays(responses, latest, i + 1, |responses|);
          return Fail(records.err);
        }
        allRecords := allRecords + records.value;
      } else {
        assert allRecords + [] == allRecords;
      }
    }
    return Ok(allRecords);
  }

  /**
   * Every collected record was extracted from some response under that
   * response's own bound, and no response is left out.
   */
  lemma {:induction false} CollectedFromResponses(responses: seq<Response>, latest: map<(string, string), (string, string)>, n: nat)
    requires n <= |responses|
    requires AllRecordsUpTo(responses, latest, n).Ok?
    ensures forall i :: 0 <= i < n ==> ResponseRecords(responses[i], latest).Ok?
    ensures forall rec :: rec in AllRecordsUpTo(responses, latest, n).value <==>
      exists i :: 0 <= i < n && rec in ResponseRecords(responses[i], latest).value
  {
    var f := r => ResponseRecords(r, latest);
    GatheredIsAllRecords(responses, latest, f, n);
    GatheredFrom(responses, f, n);
  }

  /** The records of the first `n` items, stopping at the first whose extraction raises. */
  function Gathered<A>(xs: seq<A>, f: A -> Outcome<seq<GpaRecord>>, n: nat): Outcome<seq<GpaRecord>>
    requires n <= |xs|
  {
    if n == 0 then Ok([])
    else
      var prefix :- Gathered(xs, f, n - 1);
      var more :- f(xs[n - 1]);
      Ok(prefix + more)
  }

  /** The run's collection is the gathering of each response's records. */
  lemma {:induction false} GatheredIsAllRecords(responses: seq<Response>, latest: map<(string, string), (string, string)>,
                                                f: Response -> Outcome<seq<GpaRecord>>, n: nat)
    requires n <= |responses|
    requires forall r :: f(r) == ResponseRecords(r, latest)
    ensures AllRecordsUpTo(responses, latest, n) == Gathered(responses, f, n)
  {
    if n > 0 {
      GatheredIsAllRecords(responses, latest, f, n - 1);
    }
  }

  /** A successful gathering holds exactly the records of the items it visited. */
  lemma {:induction false} GatheredFrom<A>(xs: seq<A>, f: A -> Outcome<seq<GpaRecord>>, n: nat)
    requires n <= |xs|
    requires Gathered(xs, f, n).Ok?
    ensures forall i :: 0 <= i < n ==> f(xs[i]).Ok?
    ensures forall rec :: rec in Gathered(xs, f, n).value <==> exists i :: 0 <= i < n && rec in f(xs[i]).value
  {
    if n > 0 {
      GatheredFrom(xs, f, n - 1);
      var prefix := Gathered(xs, f, n - 1).value;
      var more := f(xs[n - 1]).value;
      assert Gathered(xs, f, n).value == prefix + more;
      forall rec
        ensures rec in prefix + more <==> exists i :: 0 <= i < n && rec in f(xs[i]).value
      {
        if rec in more {
          assert rec in f(xs[n - 1]).value;
        }
      }
    }
  }

  /** The insert batches: together they are the records, each of 1 to BulkInsertSize records. */
  function Batches(records: seq<GpaRecord>): (r: seq<seq<GpaRecord>>)
    ensures Flatten(r) == records
    ensures forall k :: 0 <= k < |r| - 1 ==> |r[k]| == BulkInsertSize
    ensures forall b :: b in r ==> 0 < |b| <= BulkInsertSize
  {
    ChunksSpec(records, BulkInsertSize);
    ChunksBounded(records, BulkInsertSize);
    Chunks(records, BulkInsertSize).value
  }
}
