// The two converters of the course loader: a scraped catalog dict becomes a
// validated course record, and a course record becomes the database row,
// tagged for insert or update.
module UpsertCourses {
  import opened Common
  import opened Json

  // ---------------------------------------------------------------------------
  // The last whitespace-separated token
  // ---------------------------------------------------------------------------

  predicate AllSpace(s: string) { forall i :: 0 <= i < |s| ==> IsSpace(s[i]) }

  /** `s.split()` is empty exactly for an all-whitespace string. */
  lemma WordsEmpty(s: string)
    ensures Words(s) == [] <==> AllSpace(s)
  {
    var t := StripLeft(s);
    if t != [] {
      assert s[|s| - |t|] == t[0];
    }
  }

  /**
   * `w` occurs in `s` as its last whitespace-separated token: it starts at
   * `k`, after the start of the string or a whitespace character, and only
   * whitespace follows it.
   */
  predicate LastTokenAt(s: string, w: string, k: nat) {
    k + |w| <= |s| && s[k..k + |w|] == w && AllSpace(s[k + |w|..]) && (k == 0 || IsSpace(s[k - 1]))
  }

  /** The last token is the first one when only whitespace follows it. */
  lemma LastTokenBase(s: string, t: string, n: nat)
    requires |t| <= |s| && t == s[|s| - |t|..] && 0 < n <= |t| && AllSpace(t[n..])
    requires |t| == |s| || IsSpace(s[|s| - |t| - 1])
    ensures LastTokenAt(s, t[..n], |s| - |t|)
  {
    var j := |s| - |t|;
    assert s[j..j + n] == t[..n];
    assert s[j + n..] == t[n..];
  }

  /**
   * A last token found after the first token of `t`, which starts at a
   * non-space and is followed by whitespace, is a last token of `s`.
   */
  lemma LastTokenStep(s: string, t: string, n: nat, w: string, k: nat) returns (k': nat)
    requires |t| <= |s| && t == s[|s| - |t|..] && 0 < n < |t| && IsSpace(t[n])
    requires w != [] && !IsSpace(w[0]) && LastTokenAt(t[n..], w, k)
    ensures LastTokenAt(s, w, k')
  {
    var j := |s| - |t| + n;
    k' := j + k;
    assert s[j..] == t[n..];
    assert s[j + k..j + k + |w|] == s[j..][k..k + |w|];
    assert s[j + k + |w|..] == s[j..][k + |w|..];
  }

  /** `Words(s)` is the first token of `s` followed by the words of what comes after it. */
  lemma WordsHead(s: string)
    requires StripLeft(s) != []
    ensures var t := StripLeft(s); var n := TokenLen(t);
      0 < n && Words(s) == [t[..n]] + Words(t[n..])
  {
  }

  /** The last word of `s` is its first one when nothing but whitespace follows that. */
  lemma LastWordFirst(s: string) returns (k: nat)
    requires StripLeft(s) != [] && Words(StripLeft(s)[TokenLen(StripLeft(s))..]) == []
    ensures Words(s) != [] && LastTokenAt(s, Words(s)[|Words(s)| - 1], k)
  {
    var t := StripLeft(s);
    var n := TokenLen(t);
    WordsHead(s);
    WordsEmpty(t[n..]);
    LastTokenBase(s, t, n);
    k := |s| - |t|;
    assert Words(s) == [t[..n]];
  }

  /** Otherwise the last word of `s` is the last word after its first token. */
  lemma LastWordLater(s: string, k0: nat) returns (k: nat)
    requires StripLeft(s) != []
    requires var rest := StripLeft(s)[TokenLen(StripLeft(s))..];
      Words(rest) != [] && LastTokenAt(rest, Words(rest)[|Words(rest)| - 1], k0)
    ensures Words(s) != [] && LastTokenAt(s, Words(s)[|Words(s)| - 1], k)
  {
    var t := StripLeft(s);
    var n := TokenLen(t);
    var wr := Words(t[n..]);
    var w := wr[|wr| - 1];
    assert n < |t| && IsSpace(t[n]) by { WordsEmpty(t[n..]); }
    assert IsWord(w) by { assert w in wr; }
    k := LastTokenStep(s, t, n, w, k0);
    WordsHead(s);
    LastOfCons(t[..n], wr);
  }

  /** Where the last word of `s` starts. */
  lemma {:induction false} LastTokenIndex(s: string) returns (k: nat)
    requires Words(s) != []
    ensures LastTokenAt(s, Words(s)[|Words(s)| - 1], k)
    decreases |s|
  {
    var t := StripLeft(s);
    assert t != [];
    var rest := t[TokenLen(t)..];
    if Words(rest) == [] {
      k := LastWordFirst(s);
    } else {
      var k0 := LastTokenIndex(rest);
      k := LastWordLater(s, k0);
    }
  }

  lemma LastOfCons<T>(x: T, ys: seq<T>)
    requires ys != []
    ensures ([x] + ys)[|ys|] == ys[|ys| - 1]
  {
  }

  /** `s.split()[-1]` is a word that ends the string, up to trailing whitespace. */
  lemma LastToken(s: string)
    requires Words(s) != []
    ensures var w := Words(s)[|Words(s)| - 1];
      IsWord(w) && exists k :: LastTokenAt(s, w, k)
  {
    var ws := Words(s);
    assert ws[|ws| - 1] in ws;
    var k := LastTokenIndex(s);
  }

  // ---------------------------------------------------------------------------
  // convert_course_to_schema
  // ---------------------------------------------------------------------------

  /** A validated catalog course. `createdAt`/`updatedAt` are clock readings. */
  datatype Course = Course(
    id: string, code: string, name: string,
    subjectShortName: string, subjectLongName: string, subjectId: string, courseNumber: string,
    credits: Option<int>, lectureHours: Option<int>, labHours: Option<int>, otherHours: Option<int>,
    description: Option<string>,
    prerequisites: Option<string>, prerequisiteCourses: seq<string>, prerequisiteGroups: seq<seq<string>>,
    corequisites: Option<string>, corequisiteCourses: seq<string>, corequisiteGroups: seq<seq<string>>,
    crossListings: seq<string>,
    createdAt: int, updatedAt: int)

  /**
   * `code.split()[-1] if code else ""`: a falsy code gives "", a string
   * gives its last token (IndexError for an all-blank one), any other
   * truthy value has no `split`.
   */
  function CourseNumber(code: Json): (r: Outcome<string>)
    ensures !Truthy(code) ==> r == Ok("")
    ensures Truthy(code) && code.JStr? ==> (r.Ok? <==> !AllSpace(code.s))
    ensures Truthy(code) && !code.JStr? ==> r == Fail(AttributeError)
    ensures Truthy(code) && r.Ok? ==> IsWord(r.value) && exists k :: LastTokenAt(code.s, r.value, k)
  {
    if !Truthy(code) then Ok("")
    else if !code.JStr? then Fail(AttributeError)
    else
      var words := Words(code.s);
      WordsEmpty(code.s);
      if words == [] then Fail(IndexError)
      else
        LastToken(code.s);
        Ok(words[|words| - 1])
  }

  /** A pydantic `Optional[int]` field (only None and ints; lax coercions are not modelled). */
  function OptInt(v: Json): (r: Outcome<Option<int>>)
    ensures r.Ok? <==> (v.JNull? || v.JInt?)
    ensures r.Ok? && v.JInt? ==> r.value == Some(v.i)
    ensures r.Ok? && v.JNull? ==> r.value == None
  {
    match v
    case JNull => Ok(None)
    case JInt(i) => Ok(Some(i))
    case _ => Fail(ValidationError)
  }

  predicate IsStrList(items: seq<Json>) { forall i :: 0 <= i < |items| ==> items[i].JStr? }

  function Strings(items: seq<Json>): (r: seq<string>)
    requires IsStrList(items)
    ensures |r| == |items| && forall i :: 0 <= i < |items| ==> r[i] == items[i].s
  {
    seq(|items|, i requires 0 <= i < |items| => items[i].s)
  }

  /** A pydantic `List[str]` field. */
  function StrList(v: Json): (r: Outcome<seq<string>>)
    ensures r.Ok? <==> v.JList? && IsStrList(v.items)
    ensures r.Ok? ==> |r.value| == |v.items| && forall i :: 0 <= i < |v.items| ==> r.value[i] == v.items[i].s
  {
    if v.JList? && IsStrList(v.items) then Ok(Strings(v.items)) else Fail(ValidationError)
  }

  predicate IsStrListList(items: seq<Json>) {
    forall i :: 0 <= i < |items| ==> items[i].JList? && IsStrList(items[i].items)
  }

  /** A pydantic `List[List[str]]` field. */
  function StrListList(v: Json): (r: Outcome<seq<seq<string>>>)
    ensures r.Ok? <==> v.JList? && IsStrListList(v.items)
    ensures r.Ok? ==> (|r.value| == |v.items| &&
      forall i :: 0 <= i < |v.items| ==> r.value[i] == Strings(v.items[i].items))
  {
    if v.JList? && IsStrListList(v.items) then
      Ok(seq(|v.items|, i requires 0 <= i < |v.items| => Strings(v.items[i].items)))
    else Fail(ValidationError)
  }

  /** The four hour fields: credits, lecture, lab and other hours. */
  function Hours(d: Dict): (r: Outcome<(Option<int>, Option<int>, Option<int>, Option<int>)>)
    ensures r.Ok? <==> OptInt(Get(d, "credits")).Ok? && OptInt(Get(d, "lecture_hours")).Ok? &&
                       OptInt(Get(d, "lab_hours")).Ok? && OptInt(Get(d, "other_hours")).Ok?
    ensures r.Ok? ==> r.value.0 == OptInt(Get(d, "credits")).value && r.value.1 == OptInt(Get(d, "lecture_hours")).value &&
                      r.value.2 == OptInt(Get(d, "lab_hours")).value && r.value.3 == OptInt(Get(d, "other_hours")).value
  {
    var credits :- OptInt(Get(d, "credits"));
    var lecture :- OptInt(Get(d, "lecture_hours"));
    var lab :- OptInt(Get(d, "lab_hours"));
    var other :- OptInt(Get(d, "other_hours"));
    Ok((credits, lecture, lab, other))
  }

  /** The text, flat course list and grouped course list of prerequisites or corequisites. */
  datatype Requisites = Requisites(text: Option<string>, courses: seq<string>, groups: seq<seq<string>>)

  /**
   * The text, flat list and grouped list of prerequisites (or corequisites)
   * under the given keys, the lists defaulting to empty when their key is
   * missing.
   */
  function RequisitesOf(d: Dict, textKey: string, coursesKey: string, groupsKey: string): (r: Outcome<Requisites>)
    ensures r.Ok? <==> OptStr(Get(d, textKey)).Ok? &&
                       StrList(GetOr(d, coursesKey, JList([]))).Ok? &&
                       StrListList(GetOr(d, groupsKey, JList([]))).Ok?
    ensures r.Ok? ==> r.value.text == OptStr(Get(d, textKey)).value
    ensures r.Ok? && coursesKey !in d ==> r.value.courses == []
    ensures r.Ok? && groupsKey !in d ==> r.value.groups == []
  {
    var text :- OptStr(Get(d, textKey));
    var courses :- StrList(GetOr(d, coursesKey, JList([])));
    var groups :- StrListList(GetOr(d, groupsKey, JList([])));
    Ok(Requisites(text, courses, groups))
  }

  /**
   * `convert_course_to_schema`: the number is the last token of the code,
   * the id is the department code followed by it, and the list fields
   * default to empty lists. `now` stands for both clock readings.
   */
  function ConvertCourseToSchema(d: Dict, deptCode: string, deptLongName: string, now: int): (r: Outcome<Course>)
    ensures r.Ok? ==> r.value.id == deptCode + r.value.courseNumber
    ensures r.Ok? ==> r.value.subjectId == deptCode && r.value.subjectShortName == deptCode
    ensures r.Ok? ==> r.value.subjectLongName == deptLongName
    ensures r.Ok? ==> GetOr(d, "code", JStr("")) == JStr(r.value.code)
    ensures r.Ok? && r.value.code == [] ==> r.value.courseNumber == []
    ensures r.Ok? && r.value.code != [] ==>
      IsWord(r.value.courseNumber) && exists k :: LastTokenAt(r.value.code, r.value.courseNumber, k)
    ensures r.Ok? && "prerequisite_courses" !in d ==> r.value.prerequisiteCourses == []
    ensures r.Ok? && "prerequisite_groups" !in d ==> r.value.prerequisiteGroups == []
    ensures r.Ok? && "corequisite_courses" !in d ==> r.value.corequisiteCourses == []
    ensures r.Ok? && "corequisite_groups" !in d ==> r.value.corequisiteGroups == []
    ensures r.Ok? && "cross_listings" !in d ==> r.value.crossListings == []
    ensures r.Ok? ==> r.value.createdAt == now && r.value.updatedAt == now
  {
    var codeValue := GetOr(d, "code", JStr(""));
    var number :- CourseNumber(codeValue);
    var code :- ReqStr(codeValue);
    var name :- ReqStr(GetOr(d, "name", JStr("")));
    var hours :- Hours(d);
    var description :- OptStr(Get(d, "description"));
    var pre :- RequisitesOf(d, "prerequisites", "prerequisite_courses", "prerequisite_groups");
    var co :- RequisitesOf(d, "corequisites", "corequisite_courses", "corequisite_groups");
    var crossListings :- StrList(GetOr(d, "cross_listings", JList([])));
    Ok(Course(deptCode + number, code, name, deptCode, deptLongName, deptCode, number,
              hours.0, hours.1, hours.2, hours.3, description,
              pre.text, pre.courses, pre.groups,
              co.text, co.courses, co.groups, crossListings, now, now))
  }

  lemma HoursAbsent(d: Dict)
    requires "credits" !in d && "lecture_hours" !in d && "lab_hours" !in d && "other_hours" !in d
    ensures Hours(d) == Ok((None, None, None, None))
  {
  }

  lemma RequisitesAbsent(d: Dict, textKey: string, coursesKey: string, groupsKey: string)
    requires textKey !in d && coursesKey !in d && groupsKey !in d
    ensures RequisitesOf(d, textKey, coursesKey, groupsKey) == Ok(Requisites(None, [], []))
  {
  }

  /** A dict holding only a code, a name and the department gives a course with empty lists and no hours. */
  lemma MinimalCourse(code: string, name: string, deptCode: string, deptLongName: string, now: int)
    requires !AllSpace(code)
    ensures var r := ConvertCourseToSchema(map["code" := JStr(code), "name" := JStr(name)], deptCode, deptLongName, now);
      r.Ok? && r.value.name == name && r.value.credits == None && r.value.description == None &&
      r.value.prerequisiteCourses == [] && r.value.prerequisiteGroups == [] &&
      r.value.corequisiteCourses == [] && r.value.crossListings == []
  {
    var d := map["code" := JStr(code), "name" := JStr(name)];
    HoursAbsent(d);
    RequisitesAbsent(d, "prerequisites", "prerequisite_courses", "prerequisite_groups");
    RequisitesAbsent(d, "corequisites", "corequisite_courses", "corequisite_groups");
    assert "description" !in d && "cross_listings" !in d;
  }

  // ---------------------------------------------------------------------------
  // convert_course_to_dict
  // ---------------------------------------------------------------------------

  /** The database row of a course. */
  datatype CourseRow = CourseRow(
    id: string, code: string, name: string, subjectId: string, subjectLongName: string, courseNumber: string,
    credits: Option<int>, lectureHours: Option<int>, labHours: Option<int>, otherHours: Option<int>,
    description: Option<string>,
    prerequisites: Option<string>, prerequisiteCourses: Option<seq<string>>, prerequisiteGroups: Option<string>,
    corequisites: Option<string>, corequisiteCourses: Option<seq<string>>, corequisiteGroups: Option<string>,
    crossListings: Option<seq<string>>,
    courseTopic: Option<string>, courseDisplayTitle: string, courseTitle: string, courseTitleLong: string,
    hasCorequisites: bool, hasPrerequisites: bool,
    createdAt: int, updatedAt: int)

  datatype Action = Insert | Update

  /** `xs if xs else None`. */
  function NoneIfEmpty<T>(xs: seq<T>): (r: Option<seq<T>>)
    ensures r.None? <==> xs == []
    ensures r.Some? ==> r.value == xs
  {
    if xs == [] then None else Some(xs)
  }

  /** `json.dumps(groups) if groups else None`, with the encoder as a parameter. */
  function EncodedIfAny(groups: seq<seq<string>>, dumps: seq<seq<string>> -> string): (r: Option<string>)
    ensures r.None? <==> groups == []
    ensures r.Some? ==> r.value == dumps(groups)
  {
    if groups == [] then None else Some(dumps(groups))
  }

  /**
   * `convert_course_to_dict`: the row and whether it is an update (the id is
   * already stored, and `updated_at` becomes `now`) or an insert.
   */
  function ConvertCourseToDict(course: Course, existingIds: set<string>, dumps: seq<seq<string>> -> string, now: int)
    : (r: (CourseRow, Action))
    ensures r.1 == Update <==> course.id in existingIds
    ensures r.0.updatedAt == (if course.id in existingIds then now else course.updatedAt)
    ensures r.0.createdAt == course.createdAt
    ensures r.0.hasPrerequisites <==> course.prerequisiteCourses != []
    ensures r.0.hasCorequisites <==> course.corequisiteCourses != []
    ensures r.0.prerequisiteCourses.None? <==> course.prerequisiteCourses == []
    ensures r.0.prerequisiteGroups.None? <==> course.prerequisiteGroups == []
    ensures r.0.corequisiteCourses.None? <==> course.corequisiteCourses == []
    ensures r.0.corequisiteGroups.None? <==> course.corequisiteGroups == []
    ensures r.0.crossListings.None? <==> course.crossListings == []
    ensures r.0.prerequisiteGroups.Some? ==> r.0.prerequisiteGroups.value == dumps(course.prerequisiteGroups)
    ensures r.0.corequisiteGroups.Some? ==> r.0.corequisiteGroups.value == dumps(course.corequisiteGroups)
    ensures r.0.courseTopic == None
  {
    var row := CourseRow(
      course.id, course.code, course.name, course.subjectId, course.subjectLongName, course.courseNumber,
      course.credits, course.lectureHours, course.labHours, course.otherHours,
      course.description,
      course.prerequisites, NoneIfEmpty(course.prerequisiteCourses), EncodedIfAny(course.prerequisiteGroups, dumps),
      course.corequisites, NoneIfEmpty(course.corequisiteCourses), EncodedIfAny(course.corequisiteGroups, dumps),
      NoneIfEmpty(course.crossListings),
      None, course.courseNumber + " " + course.name, course.name,
      course.subjectLongName + " " + course.courseNumber + " - " + course.name,
      course.corequisiteCourses != [], course.prerequisiteCourses != [],
      course.createdAt, course.updatedAt);
    if course.id in existingIds then (row.(updatedAt := now), Update) else (row, Insert)
  }

  function OrEmpty<T>(x: Option<seq<T>>): seq<T> { if x.Some? then x.value else [] }

  /**
   * The row keeps the course: every scalar field is copied, and the flat
   * lists come back from the row with None read as the empty list.
   */
  lemma RowKeepsCourse(course: Course, existingIds: set<string>, dumps: seq<seq<string>> -> string, now: int)
    ensures var row := ConvertCourseToDict(course, existingIds, dumps, now).0;
      row.id == course.id && row.code == course.code && row.name == course.name &&
      row.subjectId == course.subjectId && row.subjectLongName == course.subjectLongName &&
      row.courseNumber == course.courseNumber && row.credits == course.credits &&
      row.lectureHours == course.lectureHours && row.labHours == course.labHours &&
      row.otherHours == course.otherHours && row.description == course.description &&
      row.prerequisites == course.prerequisites && row.corequisites == course.corequisites &&
      OrEmpty(row.prerequisiteCourses) == course.prerequisiteCourses &&
      OrEmpty(row.corequisiteCourses) == course.corequisiteCourses &&
      OrEmpty(row.crossListings) == course.crossListings
  {
  }

  /**
   * The titles of a converted course: "number name" for display, and the
   * department's long name, number and name for the long title.
   */
  lemma ConvertedTitles(d: Dict, deptCode: string, deptLongName: string, existingIds: set<string>,
                        dumps: seq<seq<string>> -> string, now: int)
    requires ConvertCourseToSchema(d, deptCode, deptLongName, now).Ok?
    ensures var c := ConvertCourseToSchema(d, deptCode, deptLongName, now).value;
      var row := ConvertCourseToDict(c, existingIds, dumps, now).0;
      row.id == deptCode + c.courseNumber &&
      row.courseDisplayTitle == c.courseNumber + " " + c.name &&
      row.courseTitleLong == deptLongName + " " + c.courseNumber + " - " + c.name &&
      row.courseTitle == c.name
  {
  }
}
