// The anex.us side of the GPA loader: picking the newest semester out of a
// course's class list, and extracting one record per class entry, optionally
// only for semesters newer than a given one.
module AnexGpa {
  import opened Common
  import opened Json
  import opened GpaRecords

  /**
   * `{"SUMMER": 1, "SPRING": 2, "FALL": 3}.get(name, default)`. Within one
   * year a lower number is the newer semester.
   */
  function Priority(name: string, default: int): (p: int)
    ensures KnownSemester(name) ==> 1 <= p <= 3
    ensures !KnownSemester(name) ==> p == default
  {
    if name == "SUMMER" then 1 else if name == "SPRING" then 2 else if name == "FALL" then 3 else default
  }

  predicate KnownSemester(name: string) { name == "SUMMER" || name == "SPRING" || name == "FALL" }

  /** Where `re.search(r"(\d{4})", s)` matches, searching from `i`; `|s|` when it does not. */
  function FourDigitsFrom(s: string, i: nat): (k: nat)
    requires i <= |s|
    ensures i <= k <= |s|
    ensures k + 4 <= |s| ==> AllDigits(s[k..k + 4])
    ensures k + 4 > |s| ==> k == |s|
    ensures forall j :: i <= j < k ==> !FourDigitsAt(s, j)
    decreases |s| - i
  {
    if i + 4 > |s| then |s| else if AllDigits(s[i..i + 4]) then i else FourDigitsFrom(s, i + 1)
  }

  predicate FourDigitsAt(s: string, j: nat) { j + 4 <= |s| && AllDigits(s[j..j + 4]) }

  /** The text of the leftmost run of four digits, if any. */
  function YearMatch(s: string): (m: Option<string>)
    ensures m.Some? ==> |m.value| == 4 && AllDigits(m.value)
  {
    var k := FourDigitsFrom(s, 0);
    if k + 4 <= |s| then Some(s[k..k + 4]) else None
  }

  /** Four digits match themselves. */
  lemma YearMatchFour(s: string)
    requires |s| == 4 && AllDigits(s)
    ensures YearMatch(s) == Some(s)
  {
    assert s[0..4] == s;
  }

  /** The filter's year: the four-digit run, else the whole string when it is all digits, else 0. */
  function FilterYear(s: string): nat {
    match YearMatch(s)
    case Some(m) => DigitsValue(m)
    case None => if s != [] && AllDigits(s) then DigitsValue(s) else 0
  }

  // ---------------------------------------------------------------------------
  // extract_class_records
  // ---------------------------------------------------------------------------

  /** The filter is on only when both bounds are non-empty strings. */
  function FilterOf(minYear: Option<string>, minSemester: Option<string>): Option<(string, string)> {
    if minYear.Some? && minYear.value != [] && minSemester.Some? && minSemester.value != []
    then Some((minYear.value, minSemester.value))
    else None
  }

  /** The year of a class entry as the filter reads it (a missing year reads as "0"). */
  function ClassYear(d: Dict): nat { FilterYear(Str(GetOr(d, "year", JStr("0")))) }

  /**
   * Whether the filter keeps an entry: the entry's semester must be a string
   * (`.upper()` on anything else raises AttributeError, which skips the entry),
   * and the entry is kept unless its year is older, or the same with an equal
   * or older semester. Unknown semester names rank 0 on both sides.
   */
  function Keep(d: Dict, minYear: string, minSemester: string): (r: Outcome<bool>)
    ensures r.Ok? <==> GetOr(d, "semester", JStr("")).JStr?
    ensures r.Ok? ==>
      (r.value <==>
        var cy := ClassYear(d);
        var my := FilterYear(minYear);
        cy > my ||
        (cy == my && Priority(Upper(GetOr(d, "semester", JStr("")).s), 0) < Priority(Upper(minSemester), 0)))
  {
    var semester := GetOr(d, "semester", JStr(""));
    if !semester.JStr? then Fail(AttributeError)
    else
      var classYear := ClassYear(d);
      var minYearInt := FilterYear(minYear);
      var minPriority := Priority(Upper(minSemester), 0);
      var classPriority := Priority(Upper(semester.s), 0);
      if classYear < minYearInt then Ok(false)
      else if classYear == minYearInt && classPriority >= minPriority then Ok(false)
      else Ok(true)
  }

  /** The record an entry converts to, or None when conversion raises. */
  function Converted(info: Json): (r: Option<GpaRecord>)
    ensures r.Some? <==> ClassRecord(info).Ok?
    ensures r.Some? ==> r.value == ClassRecord(info).value
  {
    match ClassRecord(info)
    case Ok(rec) => Some(rec)
    case Fail(_) => None
  }

  /** One pass of the loop: the record appended for this entry, if any. */
  function Entry(info: Json, filter: Option<(string, string)>): Option<GpaRecord> {
    if filter.None? then Converted(info)
    else if !info.JObj? then None
    else match Keep(info.fields, filter.value.0, filter.value.1)
      case Fail(_) => None
      case Ok(keep) => if keep then Converted(info) else None
  }

  /** The loop body as a function of the entry, for a fixed filter. */
  function EntryFor(filter: Option<(string, string)>): Json -> Option<GpaRecord> {
    info => Entry(info, filter)
  }

  /** The records the loop has appended after the first `n` entries. */
  function Kept<T>(items: seq<Json>, entry: Json -> Option<T>, n: nat): seq<T>
    requires n <= |items|
  {
    if n == 0 then []
    else
      Kept(items, entry, n - 1) +
      (match entry(items[n - 1]) case Some(rec) => [rec] case None => [])
  }

  /**
   * What `for class_info in classes` visits: a list's items, a string's
   * characters (each a one-character string, so every entry is skipped), a
   * dict's keys (strings again, all skipped); anything else is not iterable.
   */
  function ClassItems(classes: Json): (r: Outcome<seq<Json>>)
    ensures r.Ok? <==> (classes.JList? || classes.JStr? || classes.JObj?)
    ensures classes.JList? ==> r == Ok(classes.items)
    ensures r.Ok? && !classes.JList? ==> forall i :: 0 <= i < |r.value| ==> !r.value[i].JObj?
  {
    match classes
    case JList(xs) => Ok(xs)
    case JStr(s) => Ok(seq(|s|, i requires 0 <= i < |s| => JStr([s[i]])))
    case JObj(_) => Ok([])
    case _ => Fail(TypeError)
  }

  /**
   * `extract_class_records(course_data, min_year, min_semester)`. An
   * unsuccessful or data-less response gives no records; a `data` value that
   * is not a dict, or a `classes` value that cannot be iterated, raises.
   */
  function Records(courseData: Dict, minYear: Option<string>, minSemester: Option<string>): (r: Outcome<seq<GpaRecord>>)
    ensures (!Truthy(Get(courseData, "success")) || "data" !in courseData) ==> r == Ok([])
  {
    if !Truthy(Get(courseData, "success")) || "data" !in courseData then Ok([])
    else
      var data := courseData["data"];
      if !data.JObj? then Fail(AttributeError)
      else
        var items :- ClassItems(GetOr(data.fields, "classes", JList([])));
        Ok(Kept(items, EntryFor(FilterOf(minYear, minSemester)), |items|))
  }

  method ExtractClassRecords(courseData: Dict, minYear: Option<string>, minSemester: Option<string>)
    returns (r: Outcome<seq<GpaRecord>>)
    ensures r == Records(courseData, minYear, minSemester)
  {
    if !Truthy(Get(courseData, "success")) || "data" !in courseData {
      return Ok([]);
    }
    var data := courseData["data"];
    if !data.JObj? {
      return Fail(AttributeError);
    }
    var classes := ClassItems(GetOr(data.fields, "classes", JList([])));
    if classes.Fail? {
      return Fail(classes.err);
    }
    var records := CollectEntries(classes.value, EntryFor(FilterOf(minYear, minSemester)));
    return Ok(records);
  }

  /** The loop over the class entries: append what each entry yields, skip the rest. */
  method CollectEntries<T>(items: seq<Json>, entry: Json -> Option<T>) returns (records: seq<T>)
    ensures records == Kept(items, entry, |items|)
  {
    records := [];
    for i := 0 to |items|
      invariant records == Kept(items, entry, i)
    {
      var e := entry(items[i]);
      if e.Some? {
        records := records + [e.value];
      }
    }
  }

  /**
   * With both bounds set, an entry yields a record exactly when it converts,
   * its semester is a string, and it is strictly newer than the bound; the
   * record is then the entry's own.
   */
  lemma FilterRule(info: Json, minYear: string, minSemester: string)
    requires minYear != [] && minSemester != []
    ensures var e := Entry(info, FilterOf(Some(minYear), Some(minSemester)));
      (e.Some? <==>
        ClassRecord(info).Ok? && GetOr(info.fields, "semester", JStr("")).JStr? &&
        Keep(info.fields, minYear, minSemester) == Ok(true)) &&
      (e.Some? ==> e.value == ClassRecord(info).value)
  {
  }

  /** Every record comes from one entry, and an entry yields at most one record. */
  lemma {:induction false} KeptSpec<T>(items: seq<Json>, entry: Json -> Option<T>, n: nat)
    requires n <= |items|
    ensures |Kept(items, entry, n)| <= n
    ensures forall rec :: rec in Kept(items, entry, n) <==>
      exists i :: 0 <= i < n && entry(items[i]) == Some(rec)
  {
    if n > 0 {
      KeptSpec(items, entry, n - 1);
      var prev := Kept(items, entry, n - 1);
      forall rec ensures rec in Kept(items, entry, n) <==>
        exists i :: 0 <= i < n && entry(items[i]) == Some(rec)
      {
        if rec in Kept(items, entry, n) && rec !in prev {
          assert entry(items[n - 1]) == Some(rec);
        }
        if exists i :: 0 <= i < n && entry(items[i]) == Some(rec) {
          var i :| 0 <= i < n && entry(items[i]) == Some(rec);
          if i < n - 1 {
            assert rec in prev;
          }
        }
      }
    }
  }

  /** Every record of a response comes from one of its class entries. */
  lemma RecordsFromEntries(courseData: Dict, minYear: Option<string>, minSemester: Option<string>)
    requires Records(courseData, minYear, minSemester).Ok?
    requires Truthy(Get(courseData, "success")) && "data" in courseData
    ensures var items := ClassItems(GetOr(courseData["data"].fields, "classes", JList([]))).value;
      var recs := Records(courseData, minYear, minSemester).value;
      && |recs| <= |items|
      && forall rec :: rec in recs <==>
           exists i :: 0 <= i < |items| && Entry(items[i], FilterOf(minYear, minSemester)) == Some(rec)
  {
    var items := ClassItems(GetOr(courseData["data"].fields, "classes", JList([]))).value;
    var entryFor := EntryFor(FilterOf(minYear, minSemester));
    KeptSpec(items, entryFor, |items|);
  }

  /** The entries that convert. */
  predicate Converts(info: Json) { ClassRecord(info).Ok? }

  /** Without the filter there is one record per entry that converts. */
  lemma UnfilteredOnePerEntry(items: seq<Json>, n: nat)
    requires n <= |items|
    ensures |Kept(items, EntryFor(None), n)| == |Filter(items[..n], Converts)|
  {
    forall x ensures EntryFor(None)(x).Some? <==> Converts(x) {
      assert EntryFor(None)(x) == Converted(x);
    }
    KeptCount(items, EntryFor(None), Converts, n);
  }

  /** The loop appends one value per entry that the body accepts. */
  lemma {:induction false} KeptCount<T>(items: seq<Json>, entry: Json -> Option<T>, p: Json -> bool, n: nat)
    requires n <= |items|
    requires forall x :: entry(x).Some? <==> p(x)
    ensures |Kept(items, entry, n)| == |Filter(items[..n], p)|
  {
    if n > 0 {
      KeptCount(items, entry, p, n - 1);
      assert items[..n] == items[..n - 1] + [items[n - 1]];
      FilterSnoc(items[..n - 1], items[n - 1], p);
    }
  }

  // ---------------------------------------------------------------------------
  // get_newest_semester: the selection loop
  // ---------------------------------------------------------------------------

  /**
   * The loop state: the chosen year text and semester, their ranks, and (for
   * the proofs only) the position of the entry they came from, -1 before any.
   */
  datatype Newest = Newest(year: Option<string>, semester: Option<string>, yearInt: int, priority: int, index: int)

  /** What the loop reads from one entry: its year match and its normalised semester name. */
  datatype Candidate = Candidate(year: Option<string>, yearInt: int, semester: string)

  /** The loop reads a missing year or semester as "". */
  function CandidateOf(d: Dict): (c: Candidate)
    ensures c.year.Some? ==> |c.year.value| == 4 && AllDigits(c.year.value) && c.yearInt == DigitsValue(c.year.value)
  {
    var m := YearMatch(Str(GetOr(d, "year", JStr(""))));
    Candidate(m, if m.Some? then DigitsValue(m.value) else 0, Strip(Upper(Str(GetOr(d, "semester", JStr(""))))))
  }

  /** Year first, then the lower priority number. */
  predicate Newer(y: int, p: int, y0: int, p0: int) { y > y0 || (y == y0 && p < p0) }

  /** The loop's rank for a semester name: unknown names rank 999, behind every known one. */
  function ScanPriority(c: Candidate): int { Priority(c.semester, 999) }

  function ScanStep(b: Newest, c: Candidate, i: int): Newest {
    if c.year.None? then b
    else if Newer(c.yearInt, ScanPriority(c), b.yearInt, b.priority)
    then Newest(c.year, Some(c.semester), c.yearInt, ScanPriority(c), i)
    else b
  }

  predicate ObjectsUpTo(items: seq<Json>, n: nat) {
    n <= |items| && forall i :: 0 <= i < n ==> items[i].JObj?
  }

  /** The loop state after the first `n` entries, each read through `view`. */
  function ScanUpTo(items: seq<Json>, n: nat, view: Dict -> Candidate): Newest
    requires ObjectsUpTo(items, n)
  {
    if n == 0 then Newest(None, None, 0, 999, -1)
    else ScanStep(ScanUpTo(items, n - 1, view), view(items[n - 1].fields), n - 1)
  }

  /**
   * The newest (year, semester) of a decoded anex.us response, or None when
   * there is no usable class list, when an entry is not a dict (its `.get`
   * raises and the handler returns None), or when nothing was chosen.
   */
  function NewestSemester(jsonData: Json): Option<(string, string)> {
    if !jsonData.JObj? || "classes" !in jsonData.fields then None
    else
      var classes := jsonData.fields["classes"];
      if !Truthy(classes) || !classes.JList? || !ObjectsUpTo(classes.items, |classes.items|) then None
      else
        var b := ScanUpTo(classes.items, |classes.items|, CandidateOf);
        if b.year.Some? && b.year.value != [] && b.semester.Some? && b.semester.value != []
        then Some((b.year.value, b.semester.value))
        else None
  }

  /** The comparison in the loop body; an entry without a four-digit year is skipped. */
  method IsNewer(c: Candidate, newestYearInt: int, newestPriority: int) returns (isNewer: bool)
    ensures isNewer <==> c.year.Some? && Newer(c.yearInt, ScanPriority(c), newestYearInt, newestPriority)
  {
    isNewer := false;
    if c.year.None? {
      return;
    }
    var priority := Priority(c.semester, 999);
    if c.yearInt > newestYearInt {
      isNewer := true;
    } else if c.yearInt == newestYearInt {
      if priority < newestPriority {
        isNewer := true;
      }
    }
  }

  method GetNewestSemester(jsonData: Json) returns (r: Option<(string, string)>)
    ensures r == NewestSemester(jsonData)
  {
    if !jsonData.JObj? || "classes" !in jsonData.fields {
      return None;
    }
    var classes := jsonData.fields["classes"];
    if !Truthy(classes) || !classes.JList? {
      return None;
    }
    var allObjects, newestYear, newestSemester := ScanClasses(classes.items, CandidateOf);
    if !allObjects {
      return None;
    }
    if newestYear.Some? && newestYear.value != [] && newestSemester.Some? && newestSemester.value != [] {
      return Some((newestYear.value, newestSemester.value));
    }
    return None;
  }

  /**
   * The selection loop, reading each entry through `view`. It stops with
   * `allObjects` false at the first entry that is not a dict (its `.get`
   * raises).
   */
  method ScanClasses(items: seq<Json>, view: Dict -> Candidate)
    returns (allObjects: bool, newestYear: Option<string>, newestSemester: Option<string>)
    ensures allObjects <==> ObjectsUpTo(items, |items|)
    ensures allObjects ==>
      var b := ScanUpTo(items, |items|, view);
      newestYear == b.year && newestSemester == b.semester
  {
    newestYear := None;
    newestSemester := None;
    var newestYearInt := 0;
    var newestPriority := 999;
    ghost var chosen := -1;
    for i := 0 to |items|
      invariant ObjectsUpTo(items, i)
      invariant Newest(newestYear, newestSemester, newestYearInt, newestPriority, chosen) == ScanUpTo(items, i, view)
    {
      if !items[i].JObj? {
        assert !ObjectsUpTo(items, |items|);
        return false, newestYear, newestSemester;
      }
      var c := view(items[i].fields);
      var isNewer := IsNewer(c, newestYearInt, newestPriority);
      if isNewer {
        newestYearInt := c.yearInt;
        newestPriority := ScanPriority(c);
        newestYear := c.year;
        newestSemester := Some(c.semester);
        chosen := i;
      }
    }
    allObjects := true;
  }

  /** No entry with a year is newer than the one chosen. */
  lemma {:induction false} ScanMaximal(items: seq<Json>, n: nat, view: Dict -> Candidate)
    requires ObjectsUpTo(items, n)
    ensures var b := ScanUpTo(items, n, view);
      forall i :: 0 <= i < n && view(items[i].fields).year.Some? ==>
        !Newer(view(items[i].fields).yearInt, ScanPriority(view(items[i].fields)), b.yearInt, b.priority)
  {
    if n > 0 {
      ScanMaximal(items, n - 1, view);
    }
  }

  /**
   * Once something is chosen, it is one entry's own year match and semester
   * name, and it is strictly newer than every earlier entry: of several
   * equally new entries the first one wins.
   */
  lemma {:induction false} ScanAttained(items: seq<Json>, n: nat, view: Dict -> Candidate)
    requires ObjectsUpTo(items, n)
    ensures var b := ScanUpTo(items, n, view);
      && (b.year.Some? <==> 0 <= b.index)
      && b.index < n
    ensures var b := ScanUpTo(items, n, view);
      0 <= b.index ==>
        var c := view(items[b.index].fields);
        && b.year == c.year
        && b.semester == Some(c.semester)
        && b.yearInt == c.yearInt
        && b.priority == ScanPriority(c)
        && forall j :: 0 <= j < b.index && view(items[j].fields).year.Some? ==>
             Newer(b.yearInt, b.priority, view(items[j].fields).yearInt, ScanPriority(view(items[j].fields)))
  {
    if n > 0 {
      ScanAttained(items, n - 1, view);
      ScanMaximal(items, n - 1, view);
    }
  }

  /** Stripping an upper-cased string leaves nothing to upper-case. */
  lemma UpperOfStripped(x: string)
    ensures Upper(Strip(Upper(x))) == Strip(Upper(x))
  {
    var u := Upper(x);
    assert forall i :: 0 <= i < |u| ==> !IsLower(u[i]);
    var l := StripLeft(u);
    SuffixNoLower(u, l);
    var s := StripRight(l);
    PrefixNoLower(l, s);
    UpperUnchanged(s);
  }

  lemma SuffixNoLower(u: string, l: string)
    requires |l| <= |u| && l == u[|u| - |l|..]
    requires forall i :: 0 <= i < |u| ==> !IsLower(u[i])
    ensures forall i :: 0 <= i < |l| ==> !IsLower(l[i])
  {
    forall i | 0 <= i < |l| ensures !IsLower(l[i]) {
      assert l[i] == u[|u| - |l| + i];
    }
  }

  lemma PrefixNoLower(l: string, s: string)
    requires |s| <= |l| && s == l[..|s|]
    requires forall i :: 0 <= i < |l| ==> !IsLower(l[i])
    ensures forall i :: 0 <= i < |s| ==> !IsLower(s[i])
  {
    forall i | 0 <= i < |s| ensures !IsLower(s[i]) {
      assert s[i] == l[i];
    }
  }

  /**
   * Fetching again from the newest semester just found keeps no entry whose
   * semester is SUMMER, SPRING or FALL: the selection (unknown names rank
   * 999) and the filter (unknown names rank 0) agree on every known name.
   */
  lemma NothingNewerAfterNewest(items: seq<Json>, year: string, semester: string, i: nat)
    requires ObjectsUpTo(items, |items|) && i < |items|
    requires NewestSemester(JObj(map["classes" := JList(items)])) == Some((year, semester))
    requires CandidateOf(items[i].fields).year.Some?
    requires GetOr(items[i].fields, "semester", JStr("")).JStr?
    requires KnownSemester(Upper(GetOr(items[i].fields, "semester", JStr("")).s))
    ensures Keep(items[i].fields, year, semester) == Ok(false)
  {
    var b := ScanUpTo(items, |items|, CandidateOf);
    assert b.year == Some(year) && b.semester == Some(semester);
    ScanMaximal(items, |items|, CandidateOf);
    ScanAttained(items, |items|, CandidateOf);
    var d := items[i].fields;
    ClassYearAgrees(d);
    KnownSemesterAgrees(d);
    YearMatchFour(year);
    ScannedSemesterUpper(items[b.index].fields);
    NotNewerIsNotKept(d, year, semester, b.yearInt, b.priority);
  }

  /** Where the scan found a year, the filter reads the same year. */
  lemma ClassYearAgrees(d: Dict)
    requires CandidateOf(d).year.Some?
    ensures ClassYear(d) == CandidateOf(d).yearInt
  {
    assert "year" in d;
  }

  /** A known semester name reads the same in the scan and in the filter. */
  lemma KnownSemesterAgrees(d: Dict)
    requires GetOr(d, "semester", JStr("")).JStr?
    requires KnownSemester(Upper(GetOr(d, "semester", JStr("")).s))
    ensures CandidateOf(d).semester == Upper(GetOr(d, "semester", JStr("")).s)
  {
    var t := GetOr(d, "semester", JStr("")).s;
    assert Str(GetOr(d, "semester", JStr(""))) == t;
    KnownStripped(Upper(t));
  }

  lemma KnownStripped(s: string)
    requires KnownSemester(s)
    ensures Strip(s) == s
  {
    if s == "SUMMER" {
      StripUnchanged("SUMMER");
    } else if s == "SPRING" {
      StripUnchanged("SPRING");
    } else {
      StripUnchanged("FALL");
    }
  }

  /** The semester name the scan returns is already upper-case. */
  lemma ScannedSemesterUpper(d: Dict)
    ensures Upper(CandidateOf(d).semester) == CandidateOf(d).semester
  {
    UpperOfStripped(Str(GetOr(d, "semester", JStr(""))));
  }

  /** The filter keeps nothing that is not newer than the bound in the scan's order. */
  lemma NotNewerIsNotKept(d: Dict, year: string, semester: string, yearInt: int, priority: int)
    requires GetOr(d, "semester", JStr("")).JStr?
    requires KnownSemester(Upper(GetOr(d, "semester", JStr("")).s))
    requires FilterYear(year) == yearInt && Upper(semester) == semester
    requires priority == Priority(semester, 999)
    requires !Newer(ClassYear(d), Priority(Upper(GetOr(d, "semester", JStr("")).s), 999), yearInt, priority)
    ensures Keep(d, year, semester) == Ok(false)
  {
  }

  /**
   * An entry of the newest year whose semester name is unknown is kept
   * whenever the newest semester is a known one: it ranks 0 in the filter.
   */
  lemma UnknownSemesterReadmitted(d: Dict, year: string, semester: string)
    requires |year| == 4 && AllDigits(year) && KnownSemester(semester)
    requires GetOr(d, "semester", JStr("")).JStr? && !KnownSemester(Upper(GetOr(d, "semester", JStr("")).s))
    requires ClassYear(d) == DigitsValue(year)
    ensures Keep(d, year, semester) == Ok(true)
  {
    YearMatchFour(year);
    assert FilterYear(year) == DigitsValue(year);
    KnownUpper(semester);
    assert Priority(Upper(GetOr(d, "semester", JStr("")).s), 0) == 0;
    assert Priority(Upper(semester), 0) >= 1;
  }

  /** The known semester names are already upper-case. */
  lemma KnownUpper(name: string)
    requires KnownSemester(name)
    ensures Upper(name) == name
  {
    UpperUnchanged(name);
  }
}
