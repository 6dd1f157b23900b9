// The Howdy section, meeting, instructor, term and section-detail records and
// their `from_api` constructors. An API payload is a decoded JSON dictionary; a
// constructor either builds the record or raises, which is an `Outcome` here.
module SectionSchemas {
  import opened Common
  import opened Json

  const CvUrlPrefix: string := "https://compass-ssb.tamu.edu/pls/PROD/bwykfupd.p_showdoc?doctype_in=CV&pidm_in="
  const SyllabusUrlPrefix: string := "https://compass-ssb.tamu.edu/pls/PROD/bwykfupd.p_showdoc?doctype_in=SY&crn_in="

  // ---------------------------------------------------------------------------
  // Instructor
  // ---------------------------------------------------------------------------

  datatype Instructor = Instructor(
    name: string,
    pidm: Option<int>,
    hasCv: bool,
    isPrimary: bool,
    cvUrl: Option<string>)

  /** The characters `rstrip(" (P)")` removes: it strips a set, not a suffix. */
  const PrimaryMarkChars: set<char> := {' ', '(', 'P', ')'}

  /** `s.rstrip(chars)`. */
  function RStripChars(s: string, chars: set<char>): (r: string)
    ensures |r| <= |s| && r == s[..|r|]
    ensures r == [] || r[|r| - 1] !in chars
    ensures forall i :: |r| <= i < |s| ==> s[i] in chars
  {
    if |s| > 0 && s[|s| - 1] in chars then RStripChars(s[..|s| - 1], chars) else s
  }

  function InstructorFromApi(data: Dict, isPrimary: bool): (r: Outcome<Instructor>)
    ensures GetOr(data, "NAME", JStr("")).JStr? && !Truthy(Get(data, "MORE")) ==> r.Ok?
    ensures r.Ok? ==> r.value.isPrimary == isPrimary
    ensures r.Ok? ==> r.value.hasCv == IsStr(Get(data, "HAS_CV"), "Y")
    ensures r.Ok? ==> (r.value.cvUrl.Some? <==> r.value.hasCv && Truthy(Get(data, "MORE")))
    ensures r.Ok? ==> (r.value.pidm.Some? <==> Truthy(Get(data, "MORE")))
    ensures r.Ok? ==> (GetOr(data, "NAME", JStr("")).JStr? &&
      r.value.name == RStripChars(GetOr(data, "NAME", JStr("")).s, PrimaryMarkChars))
  {
    var nameV := GetOr(data, "NAME", JStr(""));
    if !nameV.JStr? then Fail(AttributeError)
    else
      var name := RStripChars(nameV.s, PrimaryMarkChars);
      var pidmV := Get(data, "MORE");
      var hasCv := IsStr(Get(data, "HAS_CV"), "Y");
      var cvUrl := if hasCv && Truthy(pidmV) then Some(CvUrlPrefix + Str(pidmV)) else None;
      if Truthy(pidmV) then
        match ToInt(pidmV)
        case IntErr(e) => Fail(e)
        case IntOk(p) => Ok(Instructor(name, Some(p), hasCv, isPrimary, cvUrl))
      else Ok(Instructor(name, None, hasCv, isPrimary, cvUrl))
  }

  /** A name ending in "P" loses that letter together with the " (P)" marker. */
  lemma PrimaryMarkEatsTrailingP()
    ensures RStripChars("DOE, PHILIP (P)", PrimaryMarkChars) == "DOE, PHILI"
    ensures RStripChars("SMITH, JOHN (P)", PrimaryMarkChars) == "SMITH, JOHN"
  {
    assert "DOE, PHILIP (P)"[..14] == "DOE, PHILIP (P";
    assert "DOE, PHILIP (P"[..13] == "DOE, PHILIP (";
    assert "DOE, PHILIP ("[..12] == "DOE, PHILIP ";
    assert "DOE, PHILIP "[..11] == "DOE, PHILIP";
    assert "DOE, PHILIP"[..10] == "DOE, PHILI";
    assert "SMITH, JOHN (P)"[..14] == "SMITH, JOHN (P";
    assert "SMITH, JOHN (P"[..13] == "SMITH, JOHN (";
    assert "SMITH, JOHN ("[..12] == "SMITH, JOHN ";
    assert "SMITH, JOHN "[..11] == "SMITH, JOHN";
  }

  // ---------------------------------------------------------------------------
  // Meeting
  // ---------------------------------------------------------------------------

  datatype Meeting = Meeting(
    meetingIndex: int,
    creditHoursSession: Option<int>,
    daysOfWeek: string,
    beginTime: Option<string>,
    endTime: Option<string>,
    startDate: Option<string>,
    endDate: Option<string>,
    buildingCode: Option<string>,
    roomCode: Option<string>,
    meetingType: Option<string>)

  /** The day flags and their codes, in the order the constructor scans them. */
  const DayFields: seq<(string, char)> := [
    ("SSRMEET_SUN_DAY", 'U'), ("SSRMEET_MON_DAY", 'M'), ("SSRMEET_TUE_DAY", 'T'),
    ("SSRMEET_WED_DAY", 'W'), ("SSRMEET_THU_DAY", 'R'), ("SSRMEET_FRI_DAY", 'F'),
    ("SSRMEET_SAT_DAY", 'S')]

  /** The codes of the fields among `fields` whose value is truthy, in order. */
  function DaysFrom(data: Dict, fields: seq<(string, char)>): string {
    if |fields| == 0 then []
    else
      var last := fields[|fields| - 1];
      DaysFrom(data, fields[..|fields| - 1]) + (if Truthy(Get(data, last.0)) then [last.1] else [])
  }

  /** Position of a day code in "UMTWRFS". */
  function DayRank(c: char): nat {
    if c == 'U' then 0 else if c == 'M' then 1 else if c == 'T' then 2
    else if c == 'W' then 3 else if c == 'R' then 4 else if c == 'F' then 5 else 6
  }

  /**
   * The day codes appear in the fixed order U,M,T,W,R,F,S, each at most once,
   * and a code is present exactly when its flag is truthy.
   */
  lemma {:induction false} DaysOrdered(data: Dict, n: nat)
    requires n <= |DayFields|
    ensures forall i, j :: 0 <= i < j < |DaysFrom(data, DayFields[..n])| ==>
      DayRank(DaysFrom(data, DayFields[..n])[i]) < DayRank(DaysFrom(data, DayFields[..n])[j])
    ensures forall i :: 0 <= i < |DaysFrom(data, DayFields[..n])| ==>
      DayRank(DaysFrom(data, DayFields[..n])[i]) < n
    ensures forall k :: 0 <= k < n ==>
      (DayFields[k].1 in DaysFrom(data, DayFields[..n]) <==> Truthy(Get(data, DayFields[k].0)))
  {
    if n > 0 {
      DaysOrdered(data, n - 1);
      assert DayFields[..n][..n - 1] == DayFields[..n - 1];
      assert DayFields[..n][n - 1] == DayFields[n - 1];
      assert forall k :: 0 <= k < |DayFields| ==> DayRank(DayFields[k].1) == k;
    }
  }

  function MeetingFromApi(data: Dict, index: int): (r: Outcome<Meeting>)
    ensures r.Ok? ==> r.value.meetingIndex == index && r.value.daysOfWeek == DaysFrom(data, DayFields)
    ensures r.Ok? ==> (r.value.creditHoursSession.Some? <==>
      ToInt(Get(data, "SSRMEET_CREDIT_HR_SESS")).IntOk? && !Get(data, "SSRMEET_CREDIT_HR_SESS").JNull?)
  {
    var creditV := Get(data, "SSRMEET_CREDIT_HR_SESS");
    var credit := if creditV.JNull? then None else
      match ToInt(creditV) { case IntOk(i) => Some(i) case IntErr(_) => None };
    var begin :- OptStr(Get(data, "SSRMEET_BEGIN_TIME"));
    var end :- OptStr(Get(data, "SSRMEET_END_TIME"));
    var startDate :- OptStr(Get(data, "SSRMEET_START_DATE"));
    var endDate :- OptStr(Get(data, "SSRMEET_END_DATE"));
    var bldg :- OptStr(Get(data, "SSRMEET_BLDG_CODE"));
    var room :- OptStr(Get(data, "SSRMEET_ROOM_CODE"));
    var mtyp :- OptStr(Get(data, "SSRMEET_MTYP_CODE"));
    Ok(Meeting(index, credit, DaysFrom(data, DayFields), begin, end, startDate, endDate, bldg, room, mtyp))
  }

  // ---------------------------------------------------------------------------
  // Section
  // ---------------------------------------------------------------------------

  /** `_parse_int`: None, "NA", "" and anything `int()` rejects become None. */
  function ParseInt(v: Json): (r: Option<int>)
    ensures v.JNull? || v == JStr("NA") || v == JStr("") ==> r.None?
    ensures v.JInt? ==> r == Some(v.i)
    ensures v.JStr? && v.s != "NA" ==> (r.Some? <==> IsIntLiteral(Strip(v.s)))
    ensures v.JList? || v.JObj? ==> r.None?
  {
    if v.JNull? || v == JStr("NA") || v == JStr("") then None
    else match ToInt(v) { case IntOk(i) => Some(i) case IntErr(_) => None }
  }

  datatype Section = Section(
    id: string,
    termCode: string,
    crn: string,
    dept: string,
    deptDesc: Option<string>,
    courseNumber: string,
    sectionNumber: string,
    courseTitle: Option<string>,
    creditHours: Option<string>,
    hoursLow: Option<int>,
    hoursHigh: Option<int>,
    campus: Option<string>,
    partOfTerm: Option<string>,
    sessionType: Option<string>,
    scheduleType: Option<string>,
    instructionType: Option<string>,
    isOpen: bool,
    hasSyllabus: bool,
    syllabusUrl: Option<string>,
    attributesText: Option<string>,
    maxEnrollment: Option<int>,
    currentEnrollment: Option<int>,
    seatsAvailable: Option<int>,
    instructors: seq<Instructor>,
    meetings: seq<Meeting>)

  /**
   * The instructor loop over a decoded list: a TypeError is caught and keeps
   * the instructors built so far; any other exception escapes.
   */
  function InstructorsFrom(items: seq<Json>, acc: seq<Instructor>): Outcome<seq<Instructor>>
    decreases |items|
  {
    if |items| == 0 then Ok(acc)
    else match items[0]
      case JObj(d) =>
        (match InstructorFromApi(d, |acc| == 0)
         case Ok(x) => InstructorsFrom(items[1..], acc + [x])
         case Fail(e) => if e == TypeError then Ok(acc) else Fail(e))
      case _ => Fail(AttributeError)
  }

  /** The value the constructor iterates: a decoded string, or the raw value itself. */
  function Decoded(raw: Json, parseJson: string -> Option<Json>): Option<Json> {
    if raw.JStr? then parseJson(raw.s) else Some(raw)
  }

  /**
   * Iterating a decoded value: a list yields its items, a non-empty string or
   * dict yields strings (whose `.get` raises AttributeError), and a number,
   * bool or None raises the caught TypeError.
   */
  function InstructorsOf(raw: Json, parseJson: string -> Option<Json>): Outcome<seq<Instructor>> {
    if !Truthy(raw) then Ok([])
    else match Decoded(raw, parseJson)
      case None => Ok([])
      case Some(JList(items)) => InstructorsFrom(items, [])
      case Some(JStr(s)) => if s == [] then Ok([]) else Fail(AttributeError)
      case Some(JObj(m)) => if m == map[] then Ok([]) else Fail(AttributeError)
      case Some(_) => Ok([])
  }

  /** Only the first instructor of the list is primary. */
  lemma {:induction false} OnlyFirstPrimary(items: seq<Json>, acc: seq<Instructor>)
    requires forall k :: 0 <= k < |acc| ==> (acc[k].isPrimary <==> k == 0)
    ensures InstructorsFrom(items, acc).Ok? ==>
      var r := InstructorsFrom(items, acc).value;
      |acc| <= |r| && r[..|acc|] == acc &&
      forall k :: 0 <= k < |r| ==> (r[k].isPrimary <==> k == 0)
    decreases |items|
  {
    if |items| > 0 && items[0].JObj? {
      var o := InstructorFromApi(items[0].fields, |acc| == 0);
      if o.Ok? {
        var acc' := acc + [o.value];
        assert forall k :: 0 <= k < |acc'| ==> (acc'[k].isPrimary <==> k == 0);
        OnlyFirstPrimary(items[1..], acc');
        if InstructorsFrom(items[1..], acc').Ok? {
          var r := InstructorsFrom(items[1..], acc').value;
          assert r[..|acc|] == r[..|acc'|][..|acc|];
        }
      }
    }
  }

  function MeetingsFrom(items: seq<Json>, acc: seq<Meeting>): Outcome<seq<Meeting>>
    decreases |items|
  {
    if |items| == 0 then Ok(acc)
    else match items[0]
      case JObj(d) =>
        (match MeetingFromApi(d, |acc|)
         case Ok(m) => MeetingsFrom(items[1..], acc + [m])
         case Fail(e) => if e == TypeError then Ok(acc) else Fail(e))
      case _ => Fail(AttributeError)
  }

  function MeetingsOf(raw: Json, parseJson: string -> Option<Json>): Outcome<seq<Meeting>> {
    if !Truthy(raw) then Ok([])
    else match Decoded(raw, parseJson)
      case None => Ok([])
      case Some(JList(items)) => MeetingsFrom(items, [])
      case Some(JStr(s)) => if s == [] then Ok([]) else Fail(AttributeError)
      case Some(JObj(m)) => if m == map[] then Ok([]) else Fail(AttributeError)
      case Some(_) => Ok([])
  }

  /** Each meeting carries its position in the list as its index. */
  lemma {:induction false} MeetingsIndexed(items: seq<Json>, acc: seq<Meeting>)
    requires forall k :: 0 <= k < |acc| ==> acc[k].meetingIndex == k
    ensures MeetingsFrom(items, acc).Ok? ==>
      forall k :: 0 <= k < |MeetingsFrom(items, acc).value| ==>
        MeetingsFrom(items, acc).value[k].meetingIndex == k
    decreases |items|
  {
    if |items| > 0 && items[0].JObj? {
      var o := MeetingFromApi(items[0].fields, |acc|);
      if o.Ok? {
        MeetingsIndexed(items[1..], acc + [o.value]);
      }
    }
  }

  function SectionFromApi(data: Dict, termCode: string, parseJson: string -> Option<Json>): (r: Outcome<Section>)
    ensures r.Ok? ==> r.value.id == termCode + "_" + r.value.crn && r.value.termCode == termCode
    ensures r.Ok? ==> r.value.isOpen == IsStr(Get(data, "STUSEAT_OPEN"), "Y")
    ensures r.Ok? ==> r.value.hasSyllabus == IsStr(Get(data, "SWV_CLASS_SEARCH_HAS_SYL_IND"), "Y")
    ensures r.Ok? ==> (r.value.syllabusUrl.Some? <==> r.value.hasSyllabus)
    ensures r.Ok? ==> (r.value.creditHours.None? <==> Get(data, "HRS_COLUMN_FIELD").JNull?)
    ensures r.Ok? ==> forall k :: 0 <= k < |r.value.instructors| ==> (r.value.instructors[k].isPrimary <==> k == 0)
    ensures r.Ok? ==> forall k :: 0 <= k < |r.value.meetings| ==> r.value.meetings[k].meetingIndex == k
  {
    var instructors :- InstructorsOf(Get(data, "SWV_CLASS_SEARCH_INSTRCTR_JSON"), parseJson);
    var meetings :- MeetingsOf(Get(data, "SWV_CLASS_SEARCH_JSON_CLOB"), parseJson);
    OnlyFirstInstructorPrimary(Get(data, "SWV_CLASS_SEARCH_INSTRCTR_JSON"), parseJson);
    MeetingsOfIndexed(Get(data, "SWV_CLASS_SEARCH_JSON_CLOB"), parseJson);
    AssembleSection(data, termCode, instructors, meetings)
  }

  /** The scalar columns of one API row, around already decoded instructors and meetings. */
  function AssembleSection(data: Dict, termCode: string, instructors: seq<Instructor>, meetings: seq<Meeting>): (r: Outcome<Section>)
    ensures r.Ok? ==> r.value.id == termCode + "_" + r.value.crn && r.value.termCode == termCode
    ensures r.Ok? ==> r.value.isOpen == IsStr(Get(data, "STUSEAT_OPEN"), "Y")
    ensures r.Ok? ==> r.value.hasSyllabus == IsStr(Get(data, "SWV_CLASS_SEARCH_HAS_SYL_IND"), "Y")
    ensures r.Ok? ==> (r.value.syllabusUrl.Some? <==> r.value.hasSyllabus)
    ensures r.Ok? ==> (r.value.creditHours.None? <==> Get(data, "HRS_COLUMN_FIELD").JNull?)
    ensures r.Ok? ==> r.value.instructors == instructors && r.value.meetings == meetings
  {
    var crnV := GetOr(data, "SWV_CLASS_SEARCH_CRN", JStr(""));
    var sectionId := termCode + "_" + Str(crnV);
    var hasSyl := IsStr(Get(data, "SWV_CLASS_SEARCH_HAS_SYL_IND"), "Y");
    var sylUrl := if hasSyl then Some(SyllabusUrlPrefix + Str(crnV) + "&termcode_in=" + termCode) else None;
    var hrs := Get(data, "HRS_COLUMN_FIELD");
    var creditHours := if hrs.JNull? then None else Some(Str(hrs));
    var crn :- ReqStr(crnV);
    var dept :- ReqStr(GetOr(data, "SWV_CLASS_SEARCH_SUBJECT", JStr("")));
    var deptDesc :- OptStr(Get(data, "SWV_CLASS_SEARCH_SUBJECT_DESC"));
    var course :- ReqStr(GetOr(data, "SWV_CLASS_SEARCH_COURSE", JStr("")));
    var section :- ReqStr(GetOr(data, "SWV_CLASS_SEARCH_SECTION", JStr("")));
    var title :- OptStr(Get(data, "SWV_CLASS_SEARCH_TITLE"));
    var campus :- OptStr(Get(data, "SWV_CLASS_SEARCH_SITE"));
    var ptrm :- OptStr(Get(data, "SWV_CLASS_SEARCH_PTRM"));
    var session :- OptStr(Get(data, "SWV_CLASS_SEARCH_SESSION"));
    var schd :- OptStr(Get(data, "SWV_CLASS_SEARCH_SCHD"));
    var inst :- OptStr(Get(data, "SWV_CLASS_SEARCH_INST_TYPE"));
    var attrs :- OptStr(Get(data, "SWV_CLASS_SEARCH_ATTRIBUTES"));
    Ok(Section(
      sectionId, termCode, crn, dept, deptDesc, course, section, title, creditHours,
      ParseInt(Get(data, "SWV_CLASS_SEARCH_HOURS_LOW")),
      ParseInt(Get(data, "SWV_CLASS_SEARCH_HOURS_HIGH")),
      campus, ptrm, session, schd, inst,
      IsStr(Get(data, "STUSEAT_OPEN"), "Y"), hasSyl, sylUrl, attrs,
      ParseInt(Get(data, "SWV_CLASS_SEARCH_MAX_ENRL")),
      ParseInt(Get(data, "SWV_CLASS_SEARCH_ENRL")),
      ParseInt(Get(data, "SWV_CLASS_SEARCH_SEATS_AVAIL")),
      instructors, meetings))
  }

  lemma OnlyFirstInstructorPrimary(raw: Json, parseJson: string -> Option<Json>)
    ensures InstructorsOf(raw, parseJson).Ok? ==>
      forall k :: 0 <= k < |InstructorsOf(raw, parseJson).value| ==>
        (InstructorsOf(raw, parseJson).value[k].isPrimary <==> k == 0)
  {
    var d := Decoded(raw, parseJson);
    if Truthy(raw) && d.Some? && d.value.JList? {
      OnlyFirstPrimary(d.value.items, []);
    }
  }

  lemma MeetingsOfIndexed(raw: Json, parseJson: string -> Option<Json>)
    ensures MeetingsOf(raw, parseJson).Ok? ==>
      forall k :: 0 <= k < |MeetingsOf(raw, parseJson).value| ==>
        MeetingsOf(raw, parseJson).value[k].meetingIndex == k
  {
    var d := Decoded(raw, parseJson);
    if Truthy(raw) && d.Some? && d.value.JList? {
      MeetingsIndexed(d.value.items, []);
    }
  }

  // ---------------------------------------------------------------------------
  // Term
  // ---------------------------------------------------------------------------

  datatype Term = Term(
    termCode: string,
    termDesc: string,
    startDate: Option<string>,
    endDate: Option<string>,
    academicYear: Option<string>)

  function TermFromApi(data: Dict): (r: Outcome<Term>)
    ensures r.Ok? ==> r.value.termCode == Str(GetOr(data, "STVTERM_CODE", JStr("")))
    ensures r.Ok? ==> r.value.termDesc == Str(GetOr(data, "STVTERM_DESC", JStr("")))
    ensures r.Ok? <==> (OptStr(Get(data, "STVTERM_START_DATE")).Ok? &&
      OptStr(Get(data, "STVTERM_END_DATE")).Ok? && OptStr(Get(data, "STVTERM_ACYR_CODE")).Ok?)
  {
    var startDate :- OptStr(Get(data, "STVTERM_START_DATE"));
    var endDate :- OptStr(Get(data, "STVTERM_END_DATE"));
    var acyr :- OptStr(Get(data, "STVTERM_ACYR_CODE"));
    Ok(Term(Str(GetOr(data, "STVTERM_CODE", JStr(""))), Str(GetOr(data, "STVTERM_DESC", JStr(""))),
      startDate, endDate, acyr))
  }

  /** `TermSchema.semester`: spring, then summer, then fall, matched case-insensitively. */
  function Semester(t: Term): (r: string)
    ensures r in {"Spring", "Summer", "Fall", "Other"}
    ensures r == "Spring" <==> Contains(Lower(t.termDesc), "spring")
    ensures r == "Summer" <==> !Contains(Lower(t.termDesc), "spring") && Contains(Lower(t.termDesc), "summer")
    ensures r == "Other" <==> (!Contains(Lower(t.termDesc), "spring") &&
      !Contains(Lower(t.termDesc), "summer") && !Contains(Lower(t.termDesc), "fall"))
  {
    var desc := Lower(t.termDesc);
    if Contains(desc, "spring") then "Spring"
    else if Contains(desc, "summer") then "Summer"
    else if Contains(desc, "fall") then "Fall"
    else "Other"
  }

  /** `int(code[:4])`, or None when that is not an integer. */
  function YearOfCode(code: string): Option<int> {
    var head := code[..if |code| < 4 then |code| else 4];
    match ToInt(JStr(head))
    case IntOk(y) => Some(y)
    case IntErr(_) => None
  }

  /** A code starting with four digits yields their value; "202611" gives 2026. */
  lemma YearOfDigitCode(code: string)
    requires |code| >= 4 && AllDigits(code[..4])
    ensures YearOfCode(code) == Some(DigitsValue(code[..4]) as int)
  {
    var head := code[..4];
    assert StripLeft(head) == head;
    assert StripRight(head) == head;
    assert IsIntLiteral(head);
  }

  /** A code with no digit in its first four characters has no year. */
  lemma YearOfCodeNeedsDigits(code: string)
    requires forall i :: 0 <= i < |code| && i < 4 ==> !IsDigit(code[i])
    ensures YearOfCode(code).None?
  {
    var head := code[..if |code| < 4 then |code| else 4];
    NoDigitNotParsed(head);
  }

  /** `int()` rejects text without a digit. */
  lemma NoDigitNotParsed(head: string)
    requires forall i :: 0 <= i < |head| ==> !IsDigit(head[i])
    ensures ToInt(JStr(head)).IntErr?
  {
    var l := StripLeft(head);
    var t := StripRight(l);
    forall i | 0 <= i < |t| ensures !IsDigit(t[i]) {
      assert t[i] == l[i] == head[|head| - |l| + i];
    }
    NoDigitNoInt(t);
  }

  /** Text without a digit is not an integer literal. */
  lemma NoDigitNoInt(t: string)
    requires forall i :: 0 <= i < |t| ==> !IsDigit(t[i])
    ensures !IsIntLiteral(t)
  {
    if |t| > 1 {
      assert t[1..][0] == t[1];
    }
  }

  function Year(t: Term): Option<int> { YearOfCode(t.termCode) }

  /** `TermSchema.campus`: the first campus name the description contains. */
  function Campus(t: Term): (r: string)
    ensures r == "Unknown" <==> (!Contains(t.termDesc, "College Station") && !Contains(t.termDesc, "Galveston") &&
      !Contains(t.termDesc, "Qatar") && !Contains(t.termDesc, "Half Year"))
    ensures r != "Unknown" ==> Contains(t.termDesc, r)
  {
    if Contains(t.termDesc, "College Station") then "College Station"
    else if Contains(t.termDesc, "Galveston") then "Galveston"
    else if Contains(t.termDesc, "Qatar") then "Qatar"
    else if Contains(t.termDesc, "Half Year") then "Half Year"
    else "Unknown"
  }

  // ---------------------------------------------------------------------------
  // Section detail records
  // ---------------------------------------------------------------------------

  datatype Attribute = Attribute(sectionId: string, termCode: string, crn: string,
    attributeCode: string, attributeDesc: Option<string>)

  function AttributeId(a: Attribute): string { a.sectionId + "_" + a.attributeCode }

  function AttributeFromApi(data: Json, sectionId: string, termCode: string, crn: string): (r: Outcome<Attribute>)
    ensures r.Ok? ==> data.JObj? && AttributeId(r.value) == sectionId + "_" + r.value.attributeCode
    ensures r.Ok? ==> GetOr(data.fields, "SSRATTR_ATTR_CODE", JStr("")) == JStr(r.value.attributeCode)
  {
    if !data.JObj? then Fail(AttributeError)
    else
      var code :- ReqStr(GetOr(data.fields, "SSRATTR_ATTR_CODE", JStr("")));
      var desc :- OptStr(Get(data.fields, "STVATTR_DESC"));
      Ok(Attribute(sectionId, termCode, crn, code, desc))
  }

  datatype Prereq = Prereq(sectionId: string, termCode: string, crn: string,
    prereqsText: Option<string>, prereqsJson: Option<Dict>)

  /** `data.get(...)` when `data` is truthy; a truthy non-dict has no `.get`. */
  function PrereqFromApi(data: Json, sectionId: string, termCode: string, crn: string): (r: Outcome<Prereq>)
    ensures !Truthy(data) ==> r.Ok? && r.value.prereqsText.None? && r.value.prereqsJson.None?
    ensures r.Ok? ==> (r.value.prereqsJson.Some? <==> r.value.prereqsText.Some? && r.value.prereqsText.value != [])
    ensures r.Ok? && r.value.prereqsJson.Some? ==> data == JObj(r.value.prereqsJson.value)
  {
    if !Truthy(data) then Ok(Prereq(sectionId, termCode, crn, None, None))
    else if !data.JObj? then Fail(AttributeError)
    else
      var textV := Get(data.fields, "P_PRE_REQS_OUT");
      var text :- OptStr(textV);
      Ok(Prereq(sectionId, termCode, crn, text, if Truthy(textV) then Some(data.fields) else None))
  }

  datatype Restriction = Restriction(sectionId: string, termCode: string, crn: string,
    restrictionType: string, restrictionIndex: int, restrictionCode: Option<string>,
    restrictionDesc: Option<string>, includeExclude: Option<string>)

  function RestrictionId(r: Restriction): string {
    r.sectionId + "_" + r.restrictionType + "_" + IntToString(r.restrictionIndex)
  }

  const RestrictionCodeFields: seq<string> := [
    "SSRRESV_MAJR_CODE", "SSRRESV_COLL_CODE", "SSRRESV_LEVL_CODE", "SSRRESV_DEGC_CODE",
    "SSRRESV_MINR_CODE", "SSRRESV_CONC_CODE", "SSRRESV_PROGRAM", "SSRRESV_DEPT_CODE",
    "SSRRESV_CAMP_CODE", "SSRRESV_ATTR_CODE", "SSRRESV_CLASS_CODE", "SSRRESV_COHORT",
    "SSRRESV_STYP_CODE", "SSRRESV_FOSI_CODE"]

  const RestrictionDescFields: seq<string> := [
    "STVMAJR_DESC", "STVCOLL_DESC", "STVLEVL_DESC", "STVDEGC_DESC", "STVMINR_DESC",
    "STVCONC_DESC", "SPRPROG_DESC", "STVDEPT_DESC", "STVCAMP_DESC", "STVATTR_DESC",
    "STVCLAS_DESC", "STVCHRT_DESC", "STVSTYP_DESC", "STVASTY_DESC"]

  /** The value of the first field of `fields` that is truthy in `data`, or None. */
  function FirstTruthy(data: Dict, fields: seq<string>): (r: Json)
    ensures r.JNull? <==> forall k :: 0 <= k < |fields| ==> !Truthy(Get(data, fields[k]))
    ensures !r.JNull? ==> exists k :: (0 <= k < |fields| && r == Get(data, fields[k]) && Truthy(r) &&
      forall j :: 0 <= j < k ==> !Truthy(Get(data, fields[j])))
  {
    if |fields| == 0 then JNull
    else if Truthy(Get(data, fields[0])) then Get(data, fields[0])
    else
      var r := FirstTruthy(data, fields[1..]);
      assert forall k :: 1 <= k < |fields| ==> fields[1..][k - 1] == fields[k];
      r
  }

  function RestrictionFromApi(data: Json, restrictionType: string, index: int,
    sectionId: string, termCode: string, crn: string): (r: Outcome<Restriction>)
    ensures r.Ok? ==> data.JObj? && r.value.restrictionIndex == index && r.value.restrictionType == restrictionType
    ensures r.Ok? ==> RestrictionId(r.value) == sectionId + "_" + restrictionType + "_" + IntToString(index)
    ensures r.Ok? ==> (r.value.restrictionCode.Some? <==>
      exists k :: 0 <= k < |RestrictionCodeFields| && Truthy(Get(data.fields, RestrictionCodeFields[k])))
  {
    if !data.JObj? then Fail(AttributeError)
    else
      var incl :- OptStr(Get(data.fields, "SSRRESV_INCL_EXCL"));
      var code :- OptStr(FirstTruthy(data.fields, RestrictionCodeFields));
      var desc :- OptStr(FirstTruthy(data.fields, RestrictionDescFields));
      Ok(Restriction(sectionId, termCode, crn, restrictionType, index, code, desc, incl))
  }

  datatype BookstoreLink = BookstoreLink(sectionId: string, termCode: string, crn: string,
    bookstoreUrl: Option<string>, linkData: Option<Dict>)

  /** Python's `a or b`. */
  function Or(a: Json, b: Json): Json { if Truthy(a) then a else b }

  function BookstoreFromApi(data: Json, sectionId: string, termCode: string, crn: string): (r: Outcome<BookstoreLink>)
    ensures !Truthy(data) ==> r == Ok(BookstoreLink(sectionId, termCode, crn, None, None))
    ensures r.Ok? && Truthy(data) ==> r.value.linkData.Some? && data == JObj(r.value.linkData.value)
    ensures r.Ok? && r.value.bookstoreUrl.Some? && Truthy(Get(data.fields, "BOOKSTORE_URL")) ==>
      JStr(r.value.bookstoreUrl.value) == Get(data.fields, "BOOKSTORE_URL")
  {
    if !Truthy(data) then Ok(BookstoreLink(sectionId, termCode, crn, None, None))
    else if !data.JObj? then Fail(AttributeError)
    else
      var url :- OptStr(Or(Get(data.fields, "BOOKSTORE_URL"), Get(data.fields, "url")));
      Ok(BookstoreLink(sectionId, termCode, crn, url, Some(data.fields)))
  }

  datatype SectionDetails = SectionDetails(sectionId: string, termCode: string, crn: string,
    attributes: seq<Attribute>, prereqs: Option<Prereq>, restrictions: seq<Restriction>,
    bookstoreLink: Option<BookstoreLink>)
}
