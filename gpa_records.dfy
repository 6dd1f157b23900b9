// One anex.us class entry turned into a GPA record, the `GpaDataSchema`
// validation of such a record, and the slicing generator both GPA loaders use
// to batch their inserts.
module GpaRecords {
  import opened Common
  import opened Json

  /** The ten grade columns of an anex.us class entry, in the order they are summed. */
  const GradeKeys: seq<string> := ["A", "B", "C", "D", "F", "I", "S", "U", "Q", "X"]

  /** The record fields the ten counts are stored under, in the same order. */
  const GradeFields: seq<string> :=
    ["grade_a", "grade_b", "grade_c", "grade_d", "grade_f",
     "grade_i", "grade_s", "grade_u", "grade_q", "grade_x"]

  /** The six entry fields the record id is built from, in id order. */
  const IdKeys: seq<string> := ["dept", "number", "section", "year", "semester", "prof"]

  /**
   * The record dictionary `extract_class_records` builds. The six descriptive
   * fields are copied from the entry as they are (anex.us sends strings, but
   * nothing checks that here); `grades` holds `grade_a` … `grade_x` in
   * GradeFields order.
   */
  datatype GpaRecord = GpaRecord(
    id: string,
    dept: Json,
    courseNumber: Json,
    section: Json,
    professor: Json,
    year: Json,
    semester: Json,
    gpa: Option<real>,
    grades: seq<int>,
    totalStudents: int)

  /** `int(entry.get(key, 0))` for the first `n` grade columns. */
  function GradeCountsUpTo(d: Dict, n: nat): (r: Outcome<seq<int>>)
    requires n <= |GradeKeys|
    ensures r.Ok? <==> forall k :: 0 <= k < n ==> ToInt(GetOr(d, GradeKeys[k], JInt(0))).IntOk?
    ensures r.Ok? ==> (|r.value| == n &&
      forall k :: 0 <= k < n ==> r.value[k] == ToInt(GetOr(d, GradeKeys[k], JInt(0))).value)
  {
    if n == 0 then Ok([])
    else
      var prefix :- GradeCountsUpTo(d, n - 1);
      var count := ToInt(GetOr(d, GradeKeys[n - 1], JInt(0)));
      if count.IntOk? then Ok(prefix + [count.value]) else Fail(count.err)
  }

  function GradeCounts(d: Dict): Outcome<seq<int>> { GradeCountsUpTo(d, |GradeKeys|) }

  /** `float(entry["gpa"]) if entry["gpa"] != "" else None`. */
  function GpaValue(v: Json): (r: Outcome<Option<real>>)
    ensures v == JStr("") ==> r == Ok(None)
    ensures v != JStr("") ==> (r.Ok? <==> ToFloat(v).Ok?)
    ensures v != JStr("") && r.Ok? ==> r.value == Some(ToFloat(v).value)
  {
    if v == JStr("") then Ok(None)
    else
      var f :- ToFloat(v);
      Ok(Some(f))
  }

  /** `f"{dept}_{number}_{section}_{year}_{semester}_{prof}"`. */
  function RecordId(d: Dict): string
    requires HasIdKeys(d)
  {
    Join("_", seq(|IdKeys|, k requires 0 <= k < |IdKeys| => Str(d[IdKeys[k]])))
  }

  predicate HasIdKeys(d: Dict) {
    "dept" in d && "number" in d && "section" in d && "year" in d && "semester" in d && "prof" in d
  }

  /**
   * The body of the per-entry `try` in `extract_class_records`: a record, or
   * the exception that makes the loop skip the entry. A non-dict entry fails
   * at its first `.get`.
   */
  function ClassRecord(info: Json): (r: Outcome<GpaRecord>)
    ensures r.Ok? <==>
      info.JObj? && GradeCounts(info.fields).Ok? && HasIdKeys(info.fields) &&
      "gpa" in info.fields && GpaValue(info.fields["gpa"]).Ok?
    ensures r.Ok? ==>
      var d := info.fields;
      && |r.value.grades| == |GradeKeys|
      && (forall k :: 0 <= k < |GradeKeys| ==>
            r.value.grades[k] == ToInt(GetOr(d, GradeKeys[k], JInt(0))).value)
      && r.value.totalStudents == Sum(r.value.grades)
      && r.value.id == Join("_", [Str(d["dept"]), Str(d["number"]), Str(d["section"]),
                                  Str(d["year"]), Str(d["semester"]), Str(d["prof"])])
      && r.value.dept == d["dept"] && r.value.courseNumber == d["number"]
      && r.value.section == d["section"] && r.value.professor == d["prof"]
      && r.value.year == d["year"] && r.value.semester == d["semester"]
      && (r.value.gpa.None? <==> d["gpa"] == JStr(""))
  {
    if !info.JObj? then Fail(AttributeError)
    else
      var d := info.fields;
      var grades :- GradeCounts(d);
      if !HasIdKeys(d) || "gpa" !in d then Fail(KeyError)
      else
        var gpa :- GpaValue(d["gpa"]);
        var parts := seq(|IdKeys|, k requires 0 <= k < |IdKeys| => Str(d[IdKeys[k]]));
        assert parts == [Str(d["dept"]), Str(d["number"]), Str(d["section"]),
                         Str(d["year"]), Str(d["semester"]), Str(d["prof"])];
        Ok(GpaRecord(RecordId(d), d["dept"], d["number"], d["section"], d["prof"],
                     d["year"], d["semester"], gpa, grades, Sum(grades)))
  }

  // ---------------------------------------------------------------------------
  // GpaDataSchema and convert_to_schema
  // ---------------------------------------------------------------------------

  /** A validated `GpaDataSchema`; the two timestamp fields are not modelled. */
  datatype GpaData = GpaData(
    id: string,
    dept: string,
    courseNumber: string,
    section: string,
    professor: string,
    year: string,
    semester: string,
    gpa: Option<real>,
    grades: seq<int>,
    totalStudents: int)

  /** The keys `convert_to_schema` reads with `record_dict[...]`. */
  const SchemaKeys: seq<string> := ["id", "dept", "course_number", "section", "professor", "year", "semester"]

  /**
   * A pydantic `int` field in lax mode: an int, a bool (as 0 or 1), a float
   * with no fractional part, or a string holding an integer literal.
   */
  function PydInt(v: Json): (r: Outcome<int>)
    ensures v.JInt? ==> r == Ok(v.i)
    ensures v.JBool? ==> r == Ok(if v.b then 1 else 0)
    ensures v.JFloat? ==> (r.Ok? <==> v.f == v.f.Floor as real) && (r.Ok? ==> r.value as real == v.f)
    ensures v.JStr? ==> (r.Ok? <==> IsIntLiteral(Strip(v.s))) && (r.Ok? ==> r.value == IntLiteralValue(Strip(v.s)))
    ensures (v.JNull? || v.JList? || v.JObj?) ==> r == Fail(ValidationError)
  {
    match v
    case JInt(i) => Ok(i)
    case JBool(b) => Ok(if b then 1 else 0)
    case JFloat(f) => if f == f.Floor as real then Ok(f.Floor) else Fail(ValidationError)
    case JStr(s) =>
      var t := Strip(s);
      if IsIntLiteral(t) then Ok(IntLiteralValue(t)) else Fail(ValidationError)
    case _ => Fail(ValidationError)
  }

  /**
   * A pydantic `Optional[float]` field in lax mode: None, a float, an int, a
   * bool (as 0.0 or 1.0) or a string holding a decimal numeral.
   */
  function PydOptFloat(v: Json): (r: Outcome<Option<real>>)
    ensures r.Ok? <==> (v.JNull? || v.JFloat? || v.JInt? || v.JBool? || (v.JStr? && IsDecimal(Strip(v.s))))
    ensures r == Ok(None) <==> v.JNull?
    ensures v.JFloat? ==> r == Ok(Some(v.f))
    ensures v.JInt? ==> r == Ok(Some(v.i as real))
    ensures v.JBool? ==> r == Ok(Some(if v.b then 1.0 else 0.0))
    ensures v.JStr? && r.Ok? ==> r == Ok(Some(DecimalValue(Strip(v.s))))
  {
    match v
    case JNull => Ok(None)
    case JFloat(f) => Ok(Some(f))
    case JInt(i) => Ok(Some(i as real))
    case JBool(b) => Ok(Some(if b then 1.0 else 0.0))
    case JStr(s) =>
      var t := Strip(s);
      if IsDecimal(t) then Ok(Some(DecimalValue(t))) else Fail(ValidationError)
    case _ => Fail(ValidationError)
  }

  /** The ten grade fields, each `record_dict.get(field, 0)` validated as an int. */
  function SchemaGradesUpTo(d: Dict, n: nat): (r: Outcome<seq<int>>)
    requires n <= |GradeFields|
    ensures r.Ok? <==> forall k :: 0 <= k < n ==> PydInt(GetOr(d, GradeFields[k], JInt(0))).Ok?
    ensures r.Ok? ==> (|r.value| == n &&
      forall k :: 0 <= k < n ==> r.value[k] == PydInt(GetOr(d, GradeFields[k], JInt(0))).value)
  {
    if n == 0 then Ok([])
    else
      var prefix :- SchemaGradesUpTo(d, n - 1);
      var c :- PydInt(GetOr(d, GradeFields[n - 1], JInt(0)));
      Ok(prefix + [c])
  }

  predicate HasSchemaKeys(d: Dict) {
    "id" in d && "dept" in d && "course_number" in d && "section" in d &&
    "professor" in d && "year" in d && "semester" in d
  }

  /** Every required key holds a string. */
  predicate SchemaStrings(d: Dict) {
    HasSchemaKeys(d) &&
    d["id"].JStr? && d["dept"].JStr? && d["course_number"].JStr? && d["section"].JStr? &&
    d["professor"].JStr? && d["year"].JStr? && d["semester"].JStr?
  }

  /**
   * `convert_to_schema`: a missing required key raises KeyError before the
   * model is built; then every field is validated.
   */
  function ConvertToSchema(d: Dict): (r: Outcome<GpaData>)
    ensures !HasSchemaKeys(d) ==> r == Fail(KeyError)
    ensures r.Ok? ==> HasSchemaKeys(d) && |r.value.grades| == |GradeFields|
  {
    if !HasSchemaKeys(d) then Fail(KeyError)
    else
      var id :- ReqStr(d["id"]);
      var dept :- ReqStr(d["dept"]);
      var number :- ReqStr(d["course_number"]);
      var section :- ReqStr(d["section"]);
      var professor :- ReqStr(d["professor"]);
      var year :- ReqStr(d["year"]);
      var semester :- ReqStr(d["semester"]);
      var gpa :- PydOptFloat(Get(d, "gpa"));
      var grades :- SchemaGradesUpTo(d, |GradeFields|);
      var total :- PydInt(GetOr(d, "total_students", JInt(0)));
      Ok(GpaData(id, dept, number, section, professor, year, semester, gpa, grades, total))
  }

  /** A record with only the required keys validates with no gpa and every count 0. */
  lemma ConvertDefaults(d: Dict)
    requires SchemaStrings(d)
    requires "gpa" !in d && "total_students" !in d
    requires forall k :: 0 <= k < |GradeFields| ==> GradeFields[k] !in d
    ensures ConvertToSchema(d).Ok?
    ensures ConvertToSchema(d).value.gpa == None
    ensures ConvertToSchema(d).value.grades == seq(|GradeFields|, _ => 0)
    ensures ConvertToSchema(d).value.totalStudents == 0
    ensures ConvertToSchema(d).value.id == d["id"].s
  {
  }

  /** The dictionary form of a record, as `extract_class_records` returns it. */
  function AsDict(rec: GpaRecord): (d: Dict)
    requires |rec.grades| == |GradeFields|
    ensures HasSchemaKeys(d)
  {
    map["id" := JStr(rec.id), "dept" := rec.dept, "course_number" := rec.courseNumber,
        "section" := rec.section, "professor" := rec.professor, "year" := rec.year,
        "semester" := rec.semester,
        "gpa" := (match rec.gpa case None => JNull case Some(f) => JFloat(f)),
        "grade_a" := JInt(rec.grades[0]), "grade_b" := JInt(rec.grades[1]),
        "grade_c" := JInt(rec.grades[2]), "grade_d" := JInt(rec.grades[3]),
        "grade_f" := JInt(rec.grades[4]), "grade_i" := JInt(rec.grades[5]),
        "grade_s" := JInt(rec.grades[6]), "grade_u" := JInt(rec.grades[7]),
        "grade_q" := JInt(rec.grades[8]), "grade_x" := JInt(rec.grades[9]),
        "total_students" := JInt(rec.totalStudents)]
  }

  /** Where each value of a record sits in its dictionary form. */
  lemma AsDictFields(rec: GpaRecord)
    requires |rec.grades| == |GradeFields|
    ensures var d := AsDict(rec);
      && d["id"] == JStr(rec.id) && d["dept"] == rec.dept && d["course_number"] == rec.courseNumber
      && d["section"] == rec.section && d["professor"] == rec.professor
      && d["year"] == rec.year && d["semester"] == rec.semester
      && Get(d, "gpa") == (match rec.gpa case None => JNull case Some(f) => JFloat(f))
      && GetOr(d, "total_students", JInt(0)) == JInt(rec.totalStudents)
  {
  }

  lemma AsDictGrades(rec: GpaRecord)
    requires |rec.grades| == |GradeFields|
    ensures forall k :: 0 <= k < |GradeFields| ==> GetOr(AsDict(rec), GradeFields[k], JInt(0)) == JInt(rec.grades[k])
  {
    var d := AsDict(rec);
    forall k | 0 <= k < |GradeFields| ensures GetOr(d, GradeFields[k], JInt(0)) == JInt(rec.grades[k]) {
      if k < 5 {
        assert d[GradeFields[k]] == JInt(rec.grades[k]);
      } else {
        assert d[GradeFields[k]] == JInt(rec.grades[k]);
      }
    }
  }

  predicate DescriptiveStrings(rec: GpaRecord) {
    rec.dept.JStr? && rec.courseNumber.JStr? && rec.section.JStr? &&
    rec.professor.JStr? && rec.year.JStr? && rec.semester.JStr?
  }

  /**
   * An extracted record validates exactly when its six copied fields are
   * strings, and the schema then carries every value over unchanged.
   */
  lemma ConvertRecord(rec: GpaRecord)
    requires |rec.grades| == |GradeFields|
    ensures ConvertToSchema(AsDict(rec)).Ok? <==> DescriptiveStrings(rec)
    ensures ConvertToSchema(AsDict(rec)).Ok? ==>
      var g := ConvertToSchema(AsDict(rec)).value;
      && g.id == rec.id && g.dept == rec.dept.s && g.courseNumber == rec.courseNumber.s
      && g.section == rec.section.s && g.professor == rec.professor.s
      && g.year == rec.year.s && g.semester == rec.semester.s
      && g.gpa == rec.gpa && g.grades == rec.grades && g.totalStudents == rec.totalStudents
  {
    AsDictFields(rec);
    AsDictGrades(rec);
    ConvertFields(AsDict(rec), rec);
  }

  /** The same, for any dictionary that holds the record's values under the schema's keys. */
  lemma ConvertFields(d: Dict, rec: GpaRecord)
    requires |rec.grades| == |GradeFields| && HasSchemaKeys(d)
    requires && d["id"] == JStr(rec.id) && d["dept"] == rec.dept && d["course_number"] == rec.courseNumber
      && d["section"] == rec.section && d["professor"] == rec.professor
      && d["year"] == rec.year && d["semester"] == rec.semester
      && Get(d, "gpa") == (match rec.gpa case None => JNull case Some(f) => JFloat(f))
      && GetOr(d, "total_students", JInt(0)) == JInt(rec.totalStudents)
    requires forall k :: 0 <= k < |GradeFields| ==> GetOr(d, GradeFields[k], JInt(0)) == JInt(rec.grades[k])
    ensures ConvertToSchema(d).Ok? <==> DescriptiveStrings(rec)
    ensures ConvertToSchema(d).Ok? ==>
      var g := ConvertToSchema(d).value;
      && g.id == rec.id && g.dept == rec.dept.s && g.courseNumber == rec.courseNumber.s
      && g.section == rec.section.s && g.professor == rec.professor.s
      && g.year == rec.year.s && g.semester == rec.semester.s
      && g.gpa == rec.gpa && g.grades == rec.grades && g.totalStudents == rec.totalStudents
  {
    var grades := SchemaGradesUpTo(d, |GradeFields|);
    assert grades.Ok?;
    assert grades.value == rec.grades;
    assert PydOptFloat(Get(d, "gpa")) == Ok(rec.gpa);
  }

  // ---------------------------------------------------------------------------
  // chunks(lst, n): lst[i : i + n] for i in range(0, len(lst), n)
  // ---------------------------------------------------------------------------

  function Min(a: int, b: int): int { if a <= b then a else b }

  /** The slices from offset `i` on. */
  function ChunksFrom<T>(xs: seq<T>, n: nat, i: nat): seq<seq<T>>
    requires n > 0
    decreases |xs| - i
  {
    if i >= |xs| then [] else [xs[i..Min(i + n, |xs|)]] + ChunksFrom(xs, n, i + n)
  }

  /**
   * The generator's output once drained: `range` with step 0 raises
   * ValueError, a negative step over an upward range yields nothing.
   */
  function Chunks<T>(xs: seq<T>, n: int): (r: Outcome<seq<seq<T>>>)
    ensures r.Fail? <==> n == 0
    ensures n < 0 ==> r == Ok([])
  {
    if n == 0 then Fail(ValueError)
    else if n < 0 then Ok([])
    else Ok(ChunksFrom(xs, n, 0))
  }

  lemma {:induction false} ChunksFromFlatten<T>(xs: seq<T>, n: nat, i: nat)
    requires n > 0 && i <= |xs|
    ensures Flatten(ChunksFrom(xs, n, i)) == xs[i..]
    decreases |xs| - i
  {
    if i < |xs| {
      var j := Min(i + n, |xs|);
      var cs := ChunksFrom(xs, n, i);
      assert cs[1..] == ChunksFrom(xs, n, i + n);
      if i + n <= |xs| {
        ChunksFromFlatten(xs, n, i + n);
        assert xs[i..] == xs[i..j] + xs[i + n..];
      } else {
        assert ChunksFrom(xs, n, i + n) == [];
        assert xs[i..] == xs[i..j];
      }
    }
  }

  lemma {:induction false} ChunksFromSizes<T>(xs: seq<T>, n: nat, i: nat)
    requires n > 0 && i <= |xs|
    ensures var cs := ChunksFrom(xs, n, i);
      && (forall k :: 0 <= k < |cs| - 1 ==> |cs[k]| == n)
      && (|cs| > 0 ==> 0 < |cs[|cs| - 1]| <= n)
    decreases |xs| - i
  {
    if i < |xs| {
      var cs := ChunksFrom(xs, n, i);
      if i + n < |xs| {
        ChunksFromSizes(xs, n, i + n);
        assert cs[1..] == ChunksFrom(xs, n, i + n);
        forall k | 0 <= k < |cs| - 1 ensures |cs[k]| == n {
          if k > 0 { assert cs[k] == cs[1..][k - 1]; }
        }
      } else {
        assert ChunksFrom(xs, n, i + n) == [];
      }
    }
  }

  /** There are just enough chunks of `n` to hold what lies past `i`. */
  lemma {:induction false} ChunksFromCount<T>(xs: seq<T>, n: nat, i: nat)
    requires n > 0 && i <= |xs|
    ensures var c := |ChunksFrom(xs, n, i)|;
      c * n >= |xs| - i && (c - 1) * n < |xs| - i + (if c == 0 then n else 0)
    decreases |xs| - i
  {
    if i < |xs| {
      var c := |ChunksFrom(xs, n, i)|;
      if i + n < |xs| {
        ChunksFromCount(xs, n, i + n);
        var c' := |ChunksFrom(xs, n, i + n)|;
        assert c == c' + 1;
        assert c * n == c' * n + n;
        assert (c - 1) * n == c' * n;
      } else {
        assert ChunksFrom(xs, n, i + n) == [];
        assert c == 1;
      }
    }
  }

  /**
   * The chunks of a positive batch size put back together give the input;
   * every chunk but the last holds exactly `n` items, and the last one
   * between 1 and `n`.
   */
  lemma ChunksSpec<T>(xs: seq<T>, n: int)
    requires n > 0
    ensures Chunks(xs, n).Ok?
    ensures Flatten(Chunks(xs, n).value) == xs
    ensures var cs := Chunks(xs, n).value;
      && (forall k :: 0 <= k < |cs| - 1 ==> |cs[k]| == n)
      && (|cs| > 0 ==> 0 < |cs[|cs| - 1]| <= n)
      && (|cs| == 0 <==> |xs| == 0)
  {
    ChunksFromFlatten(xs, n, 0);
    ChunksFromSizes(xs, n, 0);
    ChunksFromCount(xs, n, 0);
  }

  /** Every chunk holds at most `n` items. */
  lemma ChunksBounded<T>(xs: seq<T>, n: int)
    requires n > 0
    ensures forall c :: c in Chunks(xs, n).value ==> 0 < |c| <= n
  {
    ChunksSpec(xs, n);
    var cs := Chunks(xs, n).value;
    forall c | c in cs ensures 0 < |c| <= n {
      var k :| 0 <= k < |cs| && cs[k] == c;
    }
  }
}
