// The deterministic part of the Howdy section scraper: which terms
// `get_all_terms` keeps, which sections survive parsing, the department and
// course filters, the statistics summary, and how the per-section detail
// endpoints are folded into one details record. The HTTP calls themselves are
// replaced by the decoded payloads they return.
module SectionScraper {
  import opened Common
  import opened Json
  import opened SectionSchemas

  // ---------------------------------------------------------------------------
  // Terms
  // ---------------------------------------------------------------------------

  /** `any(sem in term.term_desc for sem in semester_filter)`. */
  predicate MatchesSemester(t: Term, semesterFilter: seq<string>) {
    exists i :: 0 <= i < |semesterFilter| && Contains(t.termDesc, semesterFilter[i])
  }

  /**
   * Whether `get_all_terms` keeps a term: a non-empty semester filter decides
   * alone; otherwise, with `current_only`, the year in the first four
   * characters of the code must be at least the current year, and a code
   * without such a year drops the term.
   */
  predicate KeepTerm(t: Term, currentOnly: bool, semesterFilter: seq<string>, currentYear: int) {
    if |semesterFilter| > 0 then MatchesSemester(t, semesterFilter)
    else if currentOnly then Year(t).Some? && Year(t).value >= currentYear
    else true
  }

  /**
   * The term loop of `get_all_terms`: every payload is converted, and a
   * conversion error ends the whole call; otherwise the result is the
   * converted terms that pass the filter, in input order, each once.
   */
  function SelectTerms(termsData: seq<Dict>, currentOnly: bool, semesterFilter: seq<string>, currentYear: int)
    : (r: Outcome<seq<Term>>)
    ensures r.Ok? <==> forall i :: 0 <= i < |termsData| ==> TermFromApi(termsData[i]).Ok?
    ensures r.Ok? ==>
              r.value == Filter(Successes(MapSeq(termsData, TermFromApi)),
                                (t: Term) => KeepTerm(t, currentOnly, semesterFilter, currentYear))
    decreases |termsData|
  {
    if |termsData| == 0 then
      assert MapSeq(termsData, TermFromApi) == [];
      Ok([])
    else
      var first := TermFromApi(termsData[0]);
      var rest := SelectTerms(termsData[1..], currentOnly, semesterFilter, currentYear);
      AllOkCons(termsData, TermFromApi);
      if first.Fail? then Fail(first.err)
      else if rest.Fail? then Fail(rest.err)
      else
        var t := first.value;
        SelectTermsStep(termsData, (x: Term) => KeepTerm(x, currentOnly, semesterFilter, currentYear));
        Ok((if KeepTerm(t, currentOnly, semesterFilter, currentYear) then [t] else []) + rest.value)
  }

  /** Converting and filtering a list given by its first payload and the rest. */
  lemma SelectTermsStep(termsData: seq<Dict>, keep: Term -> bool)
    requires |termsData| > 0 && TermFromApi(termsData[0]).Ok?
    ensures var t := TermFromApi(termsData[0]).value;
      Filter(Successes(MapSeq(termsData, TermFromApi)), keep) ==
        (if keep(t) then [t] else []) + Filter(Successes(MapSeq(termsData[1..], TermFromApi)), keep)
  {
    var x := TermFromApi(termsData[0]);
    MapSeqCons(termsData, TermFromApi);
    SuccessesCons(x, MapSeq(termsData[1..], TermFromApi));
    FilterCons(x.value, Successes(MapSeq(termsData[1..], TermFromApi)), keep);
  }

  /** With `current_only` and no filter, a code such as "202611" is kept exactly when 2026 is not in the past. */
  lemma CurrentTermsByYear(t: Term, currentYear: int)
    requires |t.termCode| >= 4 && AllDigits(t.termCode[..4])
    ensures KeepTerm(t, true, [], currentYear) <==> DigitsValue(t.termCode[..4]) >= currentYear
  {
    YearOfDigitCode(t.termCode);
  }

  /** With `current_only` and no filter, a code whose first four characters hold no digit is dropped. */
  lemma UndatedTermsDropped(t: Term, currentYear: int)
    requires forall i :: 0 <= i < |t.termCode| && i < 4 ==> !IsDigit(t.termCode[i])
    ensures !KeepTerm(t, true, [], currentYear)
  {
    YearOfCodeNeedsDigits(t.termCode);
  }

  // ---------------------------------------------------------------------------
  // Sections
  // ---------------------------------------------------------------------------

  /**
   * The section loop of `get_sections_for_term`: a payload that fails to
   * convert is skipped, so the result is the converted payloads, in input
   * order, each once.
   */
  function ParseSections(sectionsData: seq<Dict>, termCode: string, parseJson: string -> Option<Json>)
    : (r: seq<Section>)
    ensures r == Successes(MapSeq(sectionsData, (d: Dict) => SectionFromApi(d, termCode, parseJson)))
    ensures forall s :: s in r ==> s.termCode == termCode && s.id == termCode + "_" + s.crn
    decreases |sectionsData|
  {
    if |sectionsData| == 0 then
      assert MapSeq(sectionsData, (d: Dict) => SectionFromApi(d, termCode, parseJson)) == [];
      []
    else
      var rest := ParseSections(sectionsData[1..], termCode, parseJson);
      var f := (d: Dict) => SectionFromApi(d, termCode, parseJson);
      MapSeqCons(sectionsData, f);
      SuccessesCons(f(sectionsData[0]), MapSeq(sectionsData[1..], f));
      match SectionFromApi(sectionsData[0], termCode, parseJson)
      case Ok(s) => [s] + rest
      case Fail(_) => rest
  }

  /** `get_sections_by_department`: the department is compared upper-cased on both sides. */
  function SectionsByDepartment(sections: seq<Section>, dept: string): (r: seq<Section>)
    ensures forall s :: s in r <==> s in sections && Upper(s.dept) == Upper(dept)
  {
    Filter(sections, (s: Section) => Upper(s.dept) == Upper(dept))
  }

  /** `get_sections_by_course`: the department as above, and the course number exactly. */
  function SectionsByCourse(sections: seq<Section>, dept: string, courseNumber: string): (r: seq<Section>)
    ensures forall s :: s in r <==> s in sections && Upper(s.dept) == Upper(dept) && s.courseNumber == courseNumber
  {
    Filter(sections, (s: Section) => Upper(s.dept) == Upper(dept) && s.courseNumber == courseNumber)
  }

  /** Upper-casing forgets the case a letter had. */
  lemma UpperIgnoresCase(a: string, b: string)
    requires |a| == |b| && forall i :: 0 <= i < |a| ==> ToUpper(a[i]) == ToUpper(b[i])
    ensures Upper(a) == Upper(b)
  {
  }

  /** The department filter gives the same list, in the same order, whatever the case of the requested code. */
  lemma {:induction false} ByDepartmentIgnoresCase(sections: seq<Section>, dept: string)
    ensures SectionsByDepartment(sections, Lower(dept)) == SectionsByDepartment(sections, dept)
  {
    assert Upper(Lower(dept)) == Upper(dept);
    if |sections| > 0 {
      ByDepartmentIgnoresCase(sections[..|sections| - 1], dept);
    }
  }

  /** The course filter is the department filter narrowed to one number, order included. */
  lemma ByCourseNarrowsDepartment(sections: seq<Section>, dept: string, courseNumber: string)
    ensures SectionsByCourse(sections, dept, courseNumber) ==
      Filter(SectionsByDepartment(sections, dept), (s: Section) => s.courseNumber == courseNumber)
  {
    FilterBoth(sections, (s: Section) => Upper(s.dept) == Upper(dept), (s: Section) => s.courseNumber == courseNumber,
      (s: Section) => Upper(s.dept) == Upper(dept) && s.courseNumber == courseNumber);
  }

  // ---------------------------------------------------------------------------
  // Statistics
  // ---------------------------------------------------------------------------

  /**
   * The dictionary `get_section_statistics` returns. An empty input yields a
   * dictionary of another shape: zero counts, empty sets of departments,
   * courses and types, and no fill rate.
   */
  datatype Statistics =
    | EmptyStatistics(totalSections: nat, openSections: nat, closedSections: nat,
        totalSeats: int, enrolled: int, availableSeats: int,
        departmentSet: set<string>, courseSet: set<string>,
        scheduleTypes: set<string>, instructionTypes: set<string>)
    | Statistics(totalSections: nat, openSections: nat, closedSections: nat,
        totalSeats: int, enrolled: int, availableSeats: int, fillRate: real,
        departments: nat, uniqueCourses: nat,
        scheduleTypes: set<string>, instructionTypes: set<string>)

  /** `x or 0` for an optional count. */
  function OrZero(v: Option<int>): int { if v.Some? then v.value else 0 }

  /** `sum(field(s) or 0 for s in sections)`. */
  function SeatTotal(sections: seq<Section>, field: Section -> Option<int>): int {
    if |sections| == 0 then 0
    else SeatTotal(sections[..|sections| - 1], field) + OrZero(field(sections[|sections| - 1]))
  }

  /** The "DEPT NUMBER" key a section is counted under. */
  function CourseKey(s: Section): string { s.dept + " " + s.courseNumber }

  /** The set of non-empty values of an optional text field. */
  function TruthyValues(sections: seq<Section>, field: Section -> Option<string>): (r: set<string>)
    ensures forall x :: x in r <==> x != "" && exists i :: 0 <= i < |sections| && field(sections[i]) == Some(x)
  {
    set i | 0 <= i < |sections| && field(sections[i]).Some? && field(sections[i]).value != "" ::
      field(sections[i]).value
  }

  function SectionStatistics(sections: seq<Section>): (r: Statistics)
    ensures |sections| == 0 <==> r.EmptyStatistics?
    ensures r.EmptyStatistics? ==> (r.totalSections == r.openSections == r.closedSections == 0 &&
      r.totalSeats == r.enrolled == r.availableSeats == 0 && r.departmentSet == r.courseSet == {} &&
      r.scheduleTypes == r.instructionTypes == {})
    ensures r.totalSections == |sections|
    ensures r.openSections + r.closedSections == r.totalSections
    ensures r.Statistics? ==> r.openSections == |Filter(sections, (s: Section) => s.isOpen)|
    ensures r.Statistics? ==>
      r.totalSeats == SeatTotal(sections, (s: Section) => s.maxEnrollment) &&
      r.enrolled == SeatTotal(sections, (s: Section) => s.currentEnrollment) &&
      r.availableSeats == SeatTotal(sections, (s: Section) => s.seatsAvailable)
    ensures r.Statistics? ==>
      r.fillRate == (if r.totalSeats > 0 then r.enrolled as real / r.totalSeats as real else 0.0)
    ensures r.Statistics? ==>
      r.departments == |Image(sections, (s: Section) => s.dept)| && 1 <= r.departments <= r.totalSections &&
      r.uniqueCourses == |Image(sections, CourseKey)| && 1 <= r.uniqueCourses <= r.totalSections
    ensures r.Statistics? ==>
      r.scheduleTypes == TruthyValues(sections, (s: Section) => s.scheduleType) &&
      r.instructionTypes == TruthyValues(sections, (s: Section) => s.instructionType)
  {
    if |sections| == 0 then EmptyStatistics(0, 0, 0, 0, 0, 0, {}, {}, {}, {})
    else
      var openList := Filter(sections, (s: Section) => s.isOpen);
      var closedList := Filter(sections, (s: Section) => !s.isOpen);
      FilterSplit(sections, (s: Section) => s.isOpen, (s: Section) => !s.isOpen);
      ImageSize(sections, (s: Section) => s.dept);
      ImageSize(sections, CourseKey);
      var totalSeats := SeatTotal(sections, (s: Section) => s.maxEnrollment);
      var enrolled := SeatTotal(sections, (s: Section) => s.currentEnrollment);
      Statistics(|sections|, |openList|, |closedList|, totalSeats, enrolled,
        SeatTotal(sections, (s: Section) => s.seatsAvailable),
        if totalSeats > 0 then enrolled as real / totalSeats as real else 0.0,
        |Image(sections, (s: Section) => s.dept)|, |Image(sections, CourseKey)|,
        TruthyValues(sections, (s: Section) => s.scheduleType), TruthyValues(sections, (s: Section) => s.instructionType))
  }

  /** Summing field by field keeps an order that holds section by section. */
  lemma {:induction false} SeatTotalMonotone(sections: seq<Section>, f: Section -> Option<int>, g: Section -> Option<int>)
    requires forall i :: 0 <= i < |sections| ==> 0 <= OrZero(f(sections[i])) <= OrZero(g(sections[i]))
    ensures 0 <= SeatTotal(sections, f) <= SeatTotal(sections, g)
  {
    if |sections| > 0 {
      SeatTotalMonotone(sections[..|sections| - 1], f, g);
    }
  }

  /** When no section is enrolled past its capacity, the fill rate is a fraction between 0 and 1. */
  lemma FillRateIsFraction(sections: seq<Section>)
    requires |sections| > 0
    requires forall i :: 0 <= i < |sections| ==>
      0 <= OrZero(sections[i].currentEnrollment) <= OrZero(sections[i].maxEnrollment)
    ensures 0.0 <= SectionStatistics(sections).fillRate <= 1.0
  {
    var st := SectionStatistics(sections);
    assert 0 <= st.enrolled <= st.totalSeats by {
      SeatTotalMonotone(sections, (s: Section) => s.currentEnrollment, (s: Section) => s.maxEnrollment);
    }
    if st.totalSeats > 0 {
      Fraction(st.enrolled, st.totalSeats);
    }
  }

  /** A count out of a positive total, as a real ratio, lies between 0 and 1. */
  lemma Fraction(part: int, total: int)
    requires 0 <= part <= total && total > 0
    ensures 0.0 <= part as real / total as real <= 1.0
  {
  }

  /** Sections without any capacity recorded have total seats 0 and, rather than a division by zero, fill rate 0. */
  lemma {:induction false} NoCapacityNoFillRate(sections: seq<Section>)
    requires |sections| > 0
    requires forall i :: 0 <= i < |sections| ==> sections[i].maxEnrollment.None?
    ensures SectionStatistics(sections).totalSeats == 0 && SectionStatistics(sections).fillRate == 0.0
  {
    SeatTotalZero(sections, (s: Section) => s.maxEnrollment);
  }

  lemma {:induction false} SeatTotalZero(sections: seq<Section>, f: Section -> Option<int>)
    requires forall i :: 0 <= i < |sections| ==> f(sections[i]).None?
    ensures SeatTotal(sections, f) == 0
  {
    if |sections| > 0 {
      SeatTotalZero(sections[..|sections| - 1], f);
    }
  }

  // ---------------------------------------------------------------------------
  // Section details
  // ---------------------------------------------------------------------------

  /** Which restriction type each restriction endpoint reports. */
  const RestrictionTypeMap: map<string, string> := map[
    "program_restrictions" := "program",
    "college_restrictions" := "college",
    "level_restrictions" := "level",
    "degree_restrictions" := "degree",
    "major_restrictions" := "major",
    "minor_restrictions" := "minor",
    "concentration_restrictions" := "concentration",
    "field_of_study_restrictions" := "field_of_study",
    "department_restrictions" := "department",
    "cohort_restrictions" := "cohort",
    "student_attribute_restrictions" := "student_attribute",
    "classification_restrictions" := "classification",
    "campus_restrictions" := "campus"]

  function AttributesFrom(items: seq<Json>, sectionId: string, termCode: string, crn: string)
    : (r: Outcome<seq<Attribute>>)
    ensures r.Ok? ==> |r.value| == |items|
    ensures r.Ok? ==> forall k :: 0 <= k < |items| ==> AttributeFromApi(items[k], sectionId, termCode, crn) == Ok(r.value[k])
    decreases |items|
  {
    if |items| == 0 then Ok([])
    else
      var a :- AttributeFromApi(items[0], sectionId, termCode, crn);
      var rest :- AttributesFrom(items[1..], sectionId, termCode, crn);
      Ok([a] + rest)
  }

  /** `enumerate(data)` over one endpoint's list, numbering from `start`. */
  function RestrictionsFrom(items: seq<Json>, restrictionType: string, start: int,
    sectionId: string, termCode: string, crn: string): (r: Outcome<seq<Restriction>>)
    ensures r.Ok? ==> |r.value| == |items|
    ensures r.Ok? ==> forall k :: 0 <= k < |items| ==>
      r.value[k].restrictionIndex == start + k && r.value[k].restrictionType == restrictionType &&
      r.value[k].sectionId == sectionId
    decreases |items|
  {
    if |items| == 0 then Ok([])
    else
      var x :- RestrictionFromApi(items[0], restrictionType, start, sectionId, termCode, crn);
      var rest :- RestrictionsFrom(items[1..], restrictionType, start + 1, sectionId, termCode, crn);
      Ok([x] + rest)
  }

  /** One round of the result loop of `_fetch_all_details_for_section`. */
  function AddDetail(d: SectionDetails, name: string, data: Json): (r: Outcome<SectionDetails>)
    ensures data.JNull? ==> r == Ok(d)
    ensures r.Ok? ==> r.value.sectionId == d.sectionId && r.value.termCode == d.termCode && r.value.crn == d.crn
    ensures r.Ok? ==> d.attributes <= r.value.attributes && d.restrictions <= r.value.restrictions
    ensures r.Ok? && name !in RestrictionTypeMap ==> r.value.restrictions == d.restrictions
    ensures r.Ok? && name in RestrictionTypeMap ==>
      forall k :: |d.restrictions| <= k < |r.value.restrictions| ==>
        r.value.restrictions[k].restrictionIndex == k - |d.restrictions| &&
        r.value.restrictions[k].restrictionType == RestrictionTypeMap[name] &&
        r.value.restrictions[k].sectionId == d.sectionId
  {
    if data.JNull? then Ok(d)
    else if name == "attributes" then
      if data.JList? then
        var attrs :- AttributesFrom(data.items, d.sectionId, d.termCode, d.crn);
        Ok(d.(attributes := d.attributes + attrs))
      else Ok(d)
    else if name == "prereqs" then
      var p :- PrereqFromApi(data, d.sectionId, d.termCode, d.crn);
      Ok(d.(prereqs := Some(p)))
    else if name == "bookstore_links" then
      var b :- BookstoreFromApi(data, d.sectionId, d.termCode, d.crn);
      Ok(d.(bookstoreLink := Some(b)))
    else if name in RestrictionTypeMap then
      if data.JList? then
        var rs :- RestrictionsFrom(data.items, RestrictionTypeMap[name], 0, d.sectionId, d.termCode, d.crn);
        Ok(d.(restrictions := d.restrictions + rs))
      else Ok(d)
    else Ok(d)
  }

  /** The whole result loop, from empty details; any conversion error escapes. */
  function AssembleDetails(results: seq<(string, Json)>, d: SectionDetails): (r: Outcome<SectionDetails>)
    ensures r.Ok? ==> r.value.sectionId == d.sectionId && r.value.termCode == d.termCode && r.value.crn == d.crn
    ensures r.Ok? ==> d.restrictions <= r.value.restrictions
    ensures r.Ok? ==> forall k :: |d.restrictions| <= k < |r.value.restrictions| ==>
      r.value.restrictions[k].restrictionType in RestrictionTypeMap.Values &&
      r.value.restrictions[k].sectionId == d.sectionId
    decreases |results|
  {
    if |results| == 0 then Ok(d)
    else
      var d' :- AddDetail(d, results[0].0, results[0].1);
      assert forall k :: |d.restrictions| <= k < |d'.restrictions| ==>
        d'.restrictions[k].restrictionType in RestrictionTypeMap.Values;
      AssembleDetails(results[1..], d')
  }

  /** Endpoints that answered None leave the details as they were. */
  lemma {:induction false} NullResultsSkipped(results: seq<(string, Json)>, d: SectionDetails)
    requires forall i :: 0 <= i < |results| ==> results[i].1.JNull?
    ensures AssembleDetails(results, d) == Ok(d)
  {
    if |results| > 0 {
      NullResultsSkipped(results[1..], d);
    }
  }

  /** A single restriction endpoint numbers its restrictions 0, 1, 2, ... in list order. */
  lemma RestrictionIndexIsPosition(name: string, items: seq<Json>, d: SectionDetails, k: nat)
    requires name in RestrictionTypeMap
    requires AddDetail(d, name, JList(items)).Ok?
    requires k < |items|
    ensures |AddDetail(d, name, JList(items)).value.restrictions| == |d.restrictions| + |items|
    ensures AddDetail(d, name, JList(items)).value.restrictions[|d.restrictions| + k].restrictionIndex == k
  {
  }
}
