// The Howdy portal sandbox: the in-memory term and class tables a `HowdyApi`
// loads, and the transforms over them (distinct sorted section tuples, the
// course and instructor filters, the sorted instructor names). The HTTP
// endpoints are parameters: the term list is given, the class lists come from
// a function of the term code, and the instructor JSON decoder is a function.
module HowdySandbox {
  import opened Common
  import opened Json

  // ---------------------------------------------------------------------------
  // _semester_sort_key
  // ---------------------------------------------------------------------------

  /** `_semester_sort_key`: fall, spring and summer rank 1, 2, 3 once stripped and lower-cased; anything else 999. */
  function SemesterSortKey(semester: Option<string>): (r: int)
    ensures r == 1 <==> semester.Some? && Lower(Strip(semester.value)) == "fall"
    ensures r == 2 <==> semester.Some? && Lower(Strip(semester.value)) == "spring"
    ensures r == 3 <==> semester.Some? && Lower(Strip(semester.value)) == "summer"
    ensures r == 1 || r == 2 || r == 3 || r == 999
  {
    var s := Lower(Strip(if semester.Some? then semester.value else ""));
    if s == "fall" then 1
    else if s == "spring" then 2
    else if s == "summer" then 3
    else 999
  }

  lemma UpperHead(s: string)
    requires |s| > 0
    ensures Upper(s) == [ToUpper(s[0])] + Upper(s[1..])
    ensures IsSpace(ToUpper(s[0])) == IsSpace(s[0])
  {
  }

  lemma UpperLast(s: string)
    requires |s| > 0
    ensures Upper(s) == Upper(s[..|s| - 1]) + [ToUpper(s[|s| - 1])]
    ensures IsSpace(ToUpper(s[|s| - 1])) == IsSpace(s[|s| - 1])
  {
  }

  lemma {:induction false} StripLeftUpper(s: string)
    ensures StripLeft(Upper(s)) == Upper(StripLeft(s))
    decreases |s|
  {
    if |s| > 0 {
      UpperHead(s);
      var u := Upper(s);
      assert u[0] == ToUpper(s[0]) && u[1..] == Upper(s[1..]);
      if IsSpace(s[0]) {
        StripLeftUpper(s[1..]);
      }
    }
  }

  lemma {:induction false} StripRightUpper(s: string)
    ensures StripRight(Upper(s)) == Upper(StripRight(s))
    decreases |s|
  {
    if |s| > 0 {
      UpperLast(s);
      var u := Upper(s);
      assert u[|u| - 1] == ToUpper(s[|s| - 1]) && u[..|u| - 1] == Upper(s[..|s| - 1]);
      if IsSpace(s[|s| - 1]) {
        StripRightUpper(s[..|s| - 1]);
      }
    }
  }

  lemma LowerUpper(t: string)
    ensures Lower(Upper(t)) == Lower(t)
  {
  }

  /** Names that strip and lower-case alike rank alike. */
  lemma SameKey(a: string, b: string)
    requires Lower(Strip(a)) == Lower(Strip(b))
    ensures SemesterSortKey(Some(a)) == SemesterSortKey(Some(b))
  {
  }

  /** The key ignores case: an upper-cased name ranks as the name itself. */
  lemma SortKeyIgnoresCase(s: string)
    ensures SemesterSortKey(Some(Upper(s))) == SemesterSortKey(Some(s))
  {
    StripLeftUpper(s);
    StripRightUpper(StripLeft(s));
    var t := Strip(s);
    assert Strip(Upper(s)) == Upper(t);
    LowerUpper(t);
    SameKey(Upper(s), s);
  }

  // ---------------------------------------------------------------------------
  // sorted(set)
  // ---------------------------------------------------------------------------

  /** `lt` is a strict total order. */
  ghost predicate StrictTotal<T(!new)>(lt: (T, T) -> bool) {
    (forall a :: !lt(a, a)) &&
    (forall a, b, c :: lt(a, b) && lt(b, c) ==> lt(a, c)) &&
    (forall a, b :: a != b ==> lt(a, b) || lt(b, a))
  }

  predicate Increasing<T>(xs: seq<T>, lt: (T, T) -> bool) {
    forall i, j :: 0 <= i < j < |xs| ==> lt(xs[i], xs[j])
  }

  /** Insert `x` into an increasing list that does not hold it. */
  function Insert<T(!new)>(xs: seq<T>, x: T, lt: (T, T) -> bool): (r: seq<T>)
    ensures |r| == |xs| + 1
    ensures forall y :: y in r <==> y in xs || y == x
  {
    if xs == [] || lt(x, xs[0]) then [x] + xs
    else [xs[0]] + Insert(xs[1..], x, lt)
  }

  lemma {:induction false} InsertIncreasing<T(!new)>(xs: seq<T>, x: T, lt: (T, T) -> bool)
    requires StrictTotal(lt) && Increasing(xs, lt) && x !in xs
    ensures Increasing(Insert(xs, x, lt), lt)
  {
    if xs != [] && !lt(x, xs[0]) {
      assert lt(xs[0], x);
      InsertIncreasing(xs[1..], x, lt);
      var r := Insert(xs, x, lt);
      forall j | 0 < j < |r| ensures lt(r[0], r[j]) {
        assert r[j] in Insert(xs[1..], x, lt);
      }
    } else if xs != [] {
      forall j | 0 < j < |xs| ensures lt(x, xs[j]) {
        assert lt(xs[0], xs[j]);
      }
    }
  }

  /** Nothing in an increasing list is below its head. */
  lemma HeadMinimal<T(!new)>(xs: seq<T>, lt: (T, T) -> bool)
    requires StrictTotal(lt) && Increasing(xs, lt) && xs != []
    ensures forall y :: y in xs ==> !lt(y, xs[0])
  {
    forall y | y in xs ensures !lt(y, xs[0]) {
      var m :| 0 <= m < |xs| && xs[m] == y;
      if m > 0 {
        assert lt(xs[0], y);
      }
    }
  }

  /** Two increasing lists with the same elements are the same list. */
  lemma {:induction false} IncreasingUnique<T(!new)>(xs: seq<T>, ys: seq<T>, lt: (T, T) -> bool)
    requires StrictTotal(lt) && Increasing(xs, lt) && Increasing(ys, lt)
    requires forall z :: z in xs <==> z in ys
    ensures xs == ys
  {
    assert xs == [] <==> ys == [] by {
      if xs != [] { assert xs[0] in xs; }
      if ys != [] { assert ys[0] in ys; }
    }
    if xs != [] {
      HeadMinimal(xs, lt);
      HeadMinimal(ys, lt);
      assert xs[0] in ys && ys[0] in xs;
      assert xs[0] == ys[0];
      assert xs == [xs[0]] + xs[1..] && ys == [ys[0]] + ys[1..];
      forall z ensures z in xs[1..] <==> z in ys[1..] {
        if z in xs[1..] {
          var k :| 1 <= k < |xs| && xs[k] == z;
          assert lt(xs[0], z) && z != xs[0];
          assert z in ys;
        }
        if z in ys[1..] {
          var k :| 1 <= k < |ys| && ys[k] == z;
          assert lt(ys[0], z) && z != ys[0];
          assert z in xs;
        }
      }
      IncreasingUnique(xs[1..], ys[1..], lt);
    }
  }

  /** `sorted(s)` for a set under a strict total order: its elements, each once, increasing. */
  method SortSet<T(!new)>(s: set<T>, lt: (T, T) -> bool) returns (r: seq<T>)
    requires StrictTotal(lt)
    ensures Increasing(r, lt) && forall x :: x in r <==> x in s
  {
    r := [];
    var rest := s;
    while rest != {}
      invariant Increasing(r, lt)
      invariant forall x :: x in r <==> x in s && x !in rest
      invariant rest <= s
      decreases rest
    {
      var x :| x in rest;
      InsertIncreasing(r, x, lt);
      r := Insert(r, x, lt);
      rest := rest - {x};
    }
  }

  /** Python's `<` on strings. */
  function StrLt(a: string, b: string): bool { LexLe(a, b) && a != b }

  lemma StrLtOrder()
    ensures StrictTotal(StrLt)
  {
    forall a, b, c | StrLt(a, b) && StrLt(b, c) ensures StrLt(a, c) {
      LexLeTrans(a, b, c);
      if a == c { LexLeAntisym(a, b); }
    }
    forall a, b | a != b ensures StrLt(a, b) || StrLt(b, a) {
      LexLeTotal(a, b);
    }
  }

  type Section = (string, string, string, string)

  /** Python's `<` on 4-tuples of strings: the first differing component decides. */
  function SectionLt(a: Section, b: Section): bool {
    StrLt(a.0, b.0) || (a.0 == b.0 && (StrLt(a.1, b.1) || (a.1 == b.1 && (StrLt(a.2, b.2) || (a.2 == b.2 && StrLt(a.3, b.3))))))
  }

  lemma SectionLtOrder()
    ensures StrictTotal(SectionLt)
  {
    StrLtOrder();
    forall a, b, c | SectionLt(a, b) && SectionLt(b, c) ensures SectionLt(a, c) {
    }
    forall a, b | a != b ensures SectionLt(a, b) || SectionLt(b, a) {
    }
  }

  // ---------------------------------------------------------------------------
  // Class-entry fields
  // ---------------------------------------------------------------------------

  function Field(c: Dict, key: string): string { Str(GetOr(c, key, JStr(""))) }

  /** The (subject, course, section, crn) tuple of a class entry. */
  function SectionOf(c: Dict): Section {
    (Field(c, "SWV_CLASS_SEARCH_SUBJECT"), Field(c, "SWV_CLASS_SEARCH_COURSE"),
     Field(c, "SWV_CLASS_SEARCH_SECTION"), Field(c, "SWV_CLASS_SEARCH_CRN"))
  }

  /** The class entries of a term: none for a term that was not loaded. */
  function ClassesOf(byTerm: map<string, seq<Dict>>, termCode: string): seq<Dict> {
    if termCode in byTerm then byTerm[termCode] else []
  }

  predicate IsOpen(c: Dict) { Get(c, "STUSEAT_OPEN") == JStr("Y") }
  predicate IsClosed(c: Dict) { !IsOpen(c) }

  /** `sorted(out, key=lambda x: x.get("STUSEAT_OPEN") != "Y")`: a stable sort on a boolean key. */
  function OpenFirst(xs: seq<Dict>): seq<Dict> {
    Filter(xs, IsOpen) + Filter(xs, IsClosed)
  }

  lemma FilterSplitMultiset(xs: seq<Dict>)
    ensures multiset(Filter(xs, IsOpen)) + multiset(Filter(xs, IsClosed)) == multiset(xs)
  {
    FilterPartition(xs, IsOpen, IsClosed);
  }

  /**
   * The open-first order is a permutation in which no closed section comes
   * before an open one, and the open and the closed sections each keep
   * their relative order.
   */
  lemma OpenFirstSpec(xs: seq<Dict>)
    ensures multiset(OpenFirst(xs)) == multiset(xs)
    ensures forall i, j :: 0 <= i < j < |OpenFirst(xs)| && IsOpen(OpenFirst(xs)[j]) ==> IsOpen(OpenFirst(xs)[i])
    ensures Filter(OpenFirst(xs), IsOpen) == Filter(xs, IsOpen)
    ensures Filter(OpenFirst(xs), IsClosed) == Filter(xs, IsClosed)
  {
    FilterSplitMultiset(xs);
    var o := Filter(xs, IsOpen);
    var n := Filter(xs, IsClosed);
    var r := o + n;
    forall i, j | 0 <= i < j < |r| && IsOpen(r[j]) ensures IsOpen(r[i]) {
      assert r[i] in o;
    }
    FilterAll(o, IsOpen);
    FilterAll(n, IsClosed);
    FilterNone(n, IsOpen);
    FilterNone(o, IsClosed);
    FilterAppend(o, n, IsOpen);
    FilterAppend(o, n, IsClosed);
  }

  // ---------------------------------------------------------------------------
  // The instructor JSON of a class entry
  // ---------------------------------------------------------------------------

  /** The decoded instructor list of a class entry: None when the raw field is None or does not decode to a list. */
  function Instructors(c: Dict, decode: Json -> Json): Option<seq<Json>> {
    var raw := Get(c, "SWV_CLASS_SEARCH_INSTRCTR_JSON");
    if raw == JNull then None
    else
      var parsed := decode(raw);
      if parsed.JList? then Some(parsed.items) else None
  }

  /** The names of the instructor objects `items[..n]` that carry a NAME. */
  function NamesIn(items: seq<Json>, n: nat): set<string>
    requires n <= |items|
  {
    if n == 0 then {}
    else
      var i := items[n - 1];
      NamesIn(items, n - 1) + (if i.JObj? && "NAME" in i.fields then {Str(i.fields["NAME"])} else {})
  }

  /** The instructor names of the first `n` classes. */
  function NamesUpTo(classes: seq<Dict>, decode: Json -> Json, n: nat): set<string>
    requires n <= |classes|
  {
    if n == 0 then {}
    else
      var more := Instructors(classes[n - 1], decode);
      NamesUpTo(classes, decode, n - 1) + (if more.Some? then NamesIn(more.value, |more.value|) else {})
  }

  predicate NamedAt(items: seq<Json>, j: nat) { j < |items| && items[j].JObj? && "NAME" in items[j].fields }

  lemma {:induction false} NamesInSpec(items: seq<Json>, n: nat)
    requires n <= |items|
    ensures forall x :: x in NamesIn(items, n) <==> exists j :: 0 <= j < n && NamedAt(items, j) && x == Str(items[j].fields["NAME"])
  {
    if n > 0 {
      NamesInSpec(items, n - 1);
    }
  }

  /**
   * A name is collected exactly when some class, whose instructor field
   * decodes to a list, lists an object with that NAME.
   */
  lemma {:induction false} NamesSpec(classes: seq<Dict>, decode: Json -> Json, n: nat)
    requires n <= |classes|
    ensures forall x :: x in NamesUpTo(classes, decode, n) <==>
      exists k, j :: 0 <= k < n && 0 <= j && Instructors(classes[k], decode).Some? && NamedAt(Instructors(classes[k], decode).value, j) &&
        x == Str(Instructors(classes[k], decode).value[j].fields["NAME"])
  {
    if n > 0 {
      NamesSpec(classes, decode, n - 1);
      var more := Instructors(classes[n - 1], decode);
      if more.Some? {
        NamesInSpec(more.value, |more.value|);
      }
    }
  }

  /** The first instructor object of `items` from index `j` whose NAME is `name`. */
  function FirstMatch(items: seq<Json>, name: string, j: nat): (r: Option<nat>)
    requires j <= |items|
    ensures r.Some? ==> j <= r.value < |items| && items[r.value].JObj? && Get(items[r.value].fields, "NAME") == JStr(name)
    ensures r.Some? ==> forall m :: j <= m < r.value ==> !(items[m].JObj? && Get(items[m].fields, "NAME") == JStr(name))
    ensures r.None? ==> forall m :: j <= m < |items| ==> !(items[m].JObj? && Get(items[m].fields, "NAME") == JStr(name))
    decreases |items| - j
  {
    if j == |items| then None
    else if items[j].JObj? && Get(items[j].fields, "NAME") == JStr(name) then Some(j)
    else FirstMatch(items, name, j + 1)
  }

  /** The matching instructor of a class entry, if any. */
  function MatchOf(c: Dict, name: string, decode: Json -> Json): Option<Dict> {
    var items := Instructors(c, decode);
    if items.None? then None
    else
      var m := FirstMatch(items.value, name, 0);
      if m.None? then None else Some(items.value[m.value].fields)
  }

  function Teaches(name: string, decode: Json -> Json): Dict -> bool {
    c => MatchOf(c, name, decode).Some?
  }

  const CvPrefix: string := "https://compass-ssb.tamu.edu/pls/PROD/bwykfupd.p_showdoc?doctype_in=CV&pidm_in="

  /** The CV link of a matching instructor that has one. */
  function CvOf(i: Dict): Option<string> {
    if Get(i, "HAS_CV") == JStr("Y") && Truthy(Get(i, "MORE")) then Some(CvPrefix + Str(Get(i, "MORE"))) else None
  }

  /** The CV link of class `k`'s matching instructor, if it has one. */
  function CvAt(classes: seq<Dict>, name: string, decode: Json -> Json, k: nat): Option<string>
    requires k < |classes|
  {
    var m := MatchOf(classes[k], name, decode);
    if m.Some? then CvOf(m.value) else None
  }

  /** `cv_url` after the first `n` classes: each class with a link overwrites it. */
  function CvUpTo(classes: seq<Dict>, name: string, decode: Json -> Json, n: nat): Option<string>
    requires n <= |classes|
  {
    if n == 0 then None
    else if CvAt(classes, name, decode, n - 1).Some? then CvAt(classes, name, decode, n - 1)
    else CvUpTo(classes, name, decode, n - 1)
  }

  /** The link comes from the last class whose matching instructor has one; None when no class has one. */
  lemma {:induction false} CvIsLast(classes: seq<Dict>, name: string, decode: Json -> Json, n: nat)
    requires n <= |classes|
    ensures CvUpTo(classes, name, decode, n).None? <==> forall k :: 0 <= k < n ==> CvAt(classes, name, decode, k).None?
    ensures CvUpTo(classes, name, decode, n).Some? ==>
      exists k :: 0 <= k < n && CvUpTo(classes, name, decode, n) == CvAt(classes, name, decode, k) &&
        forall m :: k < m < n ==> CvAt(classes, name, decode, m).None?
  {
    CvNoneAll(classes, name, decode, n);
    if CvUpTo(classes, name, decode, n).Some? {
      var k := CvLastIndex(classes, name, decode, n);
    }
  }

  /** No link after `n` classes exactly when none of them has a matching instructor with one. */
  lemma {:induction false} CvNoneAll(classes: seq<Dict>, name: string, decode: Json -> Json, n: nat)
    requires n <= |classes|
    ensures CvUpTo(classes, name, decode, n).None? <==> forall k :: 0 <= k < n ==> CvAt(classes, name, decode, k).None?
  {
    if n > 0 {
      var p := n - 1;
      CvNoneAll(classes, name, decode, p);
      if CvAt(classes, name, decode, p).None? {
        assert CvUpTo(classes, name, decode, n) == CvUpTo(classes, name, decode, p);
      } else {
        assert CvUpTo(classes, name, decode, n) == CvAt(classes, name, decode, p);
      }
    }
  }

  /** The class the link comes from: it has one, and no later class does. */
  lemma {:induction false} CvLastIndex(classes: seq<Dict>, name: string, decode: Json -> Json, n: nat) returns (k: nat)
    requires n <= |classes| && CvUpTo(classes, name, decode, n).Some?
    ensures k < n && CvUpTo(classes, name, decode, n) == CvAt(classes, name, decode, k)
    ensures forall m :: k < m < n ==> CvAt(classes, name, decode, m).None?
  {
    var p := n - 1;
    if CvAt(classes, name, decode, p).Some? {
      k := p;
    } else {
      assert CvUpTo(classes, name, decode, n) == CvUpTo(classes, name, decode, p);
      k := CvLastIndex(classes, name, decode, p);
    }
  }

  // ---------------------------------------------------------------------------
  // The loaded tables
  // ---------------------------------------------------------------------------

  /** `get_all_terms`: every term, or with `current` those whose description contains a configured semester. */
  function CurrentTerms(data: seq<Dict>, current: bool, semesters: seq<string>): (r: seq<Dict>)
    ensures !current ==> r == data
    ensures current ==> forall t :: t in r <==> t in data && exists s :: s in semesters && Contains(Field(t, "STVTERM_DESC"), s)
  {
    if !current then data
    else Filter(data, (t: Dict) => exists s :: s in semesters && Contains(Field(t, "STVTERM_DESC"), s))
  }

  predicate HasCode(t: Dict) { Get(t, "STVTERM_CODE") != JNull }

  function CodeOf(t: Dict): string { Str(Get(t, "STVTERM_CODE")) }

  /** `term_codes_to_desc` over the first `n` terms; a later term with the same code wins. */
  function DescriptionsUpTo(terms: seq<Dict>, n: nat): map<string, string>
    requires n <= |terms|
  {
    if n == 0 then map[]
    else
      var t := terms[n - 1];
      var m := DescriptionsUpTo(terms, n - 1);
      if HasCode(t) then m[CodeOf(t) := Str(Get(t, "STVTERM_DESC"))] else m
  }

  /** `classes_by_term` over the first `n` terms, one fetch per code. */
  function ClassesUpTo(terms: seq<Dict>, fetch: string -> seq<Dict>, n: nat): map<string, seq<Dict>>
    requires n <= |terms|
  {
    if n == 0 then map[]
    else
      var t := terms[n - 1];
      var m := ClassesUpTo(terms, fetch, n - 1);
      if HasCode(t) then m[CodeOf(t) := fetch(CodeOf(t))] else m
  }

  /** Both tables are keyed by exactly the codes of the terms that have one, and hold each code's own classes. */
  lemma {:induction false} TablesSpec(terms: seq<Dict>, fetch: string -> seq<Dict>, n: nat)
    requires n <= |terms|
    ensures forall k :: k in DescriptionsUpTo(terms, n) <==> exists i :: 0 <= i < n && HasCode(terms[i]) && CodeOf(terms[i]) == k
    ensures forall k :: k in ClassesUpTo(terms, fetch, n) <==> k in DescriptionsUpTo(terms, n)
    ensures forall k :: k in ClassesUpTo(terms, fetch, n) ==> ClassesUpTo(terms, fetch, n)[k] == fetch(k)
  {
    if n > 0 {
      TablesSpec(terms, fetch, n - 1);
    }
  }

  /** The description kept for a code is that of the last term with the code. */
  lemma {:induction false} DescriptionIsLast(terms: seq<Dict>, n: nat, i: nat)
    requires i < n <= |terms| && HasCode(terms[i])
    requires forall j :: i < j < n && HasCode(terms[j]) ==> CodeOf(terms[j]) != CodeOf(terms[i])
    ensures CodeOf(terms[i]) in DescriptionsUpTo(terms, n)
    ensures DescriptionsUpTo(terms, n)[CodeOf(terms[i])] == Str(Get(terms[i], "STVTERM_DESC"))
  {
    if i < n - 1 {
      DescriptionIsLast(terms, n - 1, i);
    }
  }

  /** The sandbox client: the semester filter it was configured with and the tables `load` fills. */
  class HowdyApi {
    var semestersFilter: seq<string>
    var terms: seq<Dict>
    var termCodesToDesc: map<string, string>
    var classesByTerm: map<string, seq<Dict>>

    /** A client with the given filter (["Spring 2026"] by default) and empty tables. */
    constructor(semestersFilter: seq<string>)
      ensures this.semestersFilter == semestersFilter
      ensures terms == [] && termCodesToDesc == map[] && classesByTerm == map[]
    {
      this.semestersFilter := semestersFilter;
      terms := [];
      termCodesToDesc := map[];
      classesByTerm := map[];
    }

    /** `load`: the term list from the endpoint, filtered, and the class list of each term code. */
    method Load(allTerms: seq<Dict>, current: bool, fetch: string -> seq<Dict>)
      modifies this
      ensures semestersFilter == old(semestersFilter)
      ensures terms == CurrentTerms(allTerms, current, semestersFilter)
      ensures termCodesToDesc == DescriptionsUpTo(terms, |terms|)
      ensures classesByTerm == ClassesUpTo(terms, fetch, |terms|)
    {
      terms := CurrentTerms(allTerms, current, semestersFilter);
      termCodesToDesc := DescriptionsUpTo(terms, |terms|);
      classesByTerm := ClassesUpTo(terms, fetch, |terms|);
    }

    /** `get_term_general_info`: the distinct section tuples of the term, in increasing order. */
    method GetTermGeneralInfo(termCode: string) returns (r: seq<Section>)
      ensures Increasing(r, SectionLt)
      ensures forall s :: s in r <==> exists c :: c in ClassesOf(classesByTerm, termCode) && SectionOf(c) == s
    {
      var classes := ClassesOf(classesByTerm, termCode);
      var classList: set<Section> := {};
      for i := 0 to |classes|
        invariant forall s :: s in classList <==> exists k :: 0 <= k < i && SectionOf(classes[k]) == s
      {
        classList := classList + {SectionOf(classes[i])};
      }
      SectionLtOrder();
      r := SortSet(classList, SectionLt);
    }

    /**
     * `filter_by_course`: the classes of the term with that subject (any
     * case) and number, open sections first. A course string without a space
     * cannot be unpacked into subject and number.
     */
    method FilterByCourse(termCode: string, course: string) returns (r: Outcome<seq<Dict>>)
      ensures (' ' in course) <==> r.Ok?
      ensures r.Ok? ==> r.value == OpenFirst(Filter(ClassesOf(classesByTerm, termCode), CourseMatch(course)))
    {
      if ' ' !in course {
        return Fail(ValueError);
      }
      var classes := ClassesOf(classesByTerm, termCode);
      var out: seq<Dict> := [];
      for i := 0 to |classes|
        invariant out == Filter(classes[..i], CourseMatch(course))
      {
        assert classes[..i + 1] == classes[..i] + [classes[i]];
        FilterSnoc(classes[..i], classes[i], CourseMatch(course));
        if CourseMatch(course)(classes[i]) {
          out := out + [classes[i]];
        }
      }
      assert classes[..|classes|] == classes;
      return Ok(OpenFirst(out));
    }

    /** `get_all_instructors`: the distinct instructor names of the term, in increasing order. */
    method GetAllInstructors(termCode: string, decode: Json -> Json) returns (r: seq<string>)
      ensures Increasing(r, StrLt)
      ensures forall x :: x in r <==> x in NamesUpTo(ClassesOf(classesByTerm, termCode), decode, |ClassesOf(classesByTerm, termCode)|)
    {
      var classes := ClassesOf(classesByTerm, termCode);
      var out: set<string> := {};
      for i := 0 to |classes|
        invariant out == NamesUpTo(classes, decode, i)
      {
        var items := Instructors(classes[i], decode);
        if items.Some? {
          var names := CollectNames(items.value);
          out := out + names;
        }
      }
      StrLtOrder();
      r := SortSet(out, StrLt);
    }

    /**
     * `filter_by_instructor`: each class of the term that lists the
     * instructor, once, and the CV link of the last such class whose
     * matching instructor has one.
     */
    method FilterByInstructor(termCode: string, name: string, decode: Json -> Json) returns (out: seq<Dict>, cvUrl: Option<string>)
      ensures out == Filter(ClassesOf(classesByTerm, termCode), Teaches(name, decode))
      ensures cvUrl == CvUpTo(ClassesOf(classesByTerm, termCode), name, decode, |ClassesOf(classesByTerm, termCode)|)
    {
      var classes := ClassesOf(classesByTerm, termCode);
      out := [];
      cvUrl := None;
      for i := 0 to |classes|
        invariant out == Filter(classes[..i], Teaches(name, decode))
        invariant cvUrl == CvUpTo(classes, name, decode, i)
      {
        out, cvUrl := FilterClass(classes, i, name, decode, out, cvUrl);
      }
      assert classes[..|classes|] == classes;
    }
  }

  /** `course.split(" ", 1)` unpacked into subject and number, then the subject/number test. */
  function CourseMatch(course: string): Dict -> bool {
    var k := IndexOfSpace(course);
    var major := course[..k];
    var number := if k < |course| then course[k + 1..] else "";
    c => Lower(Field(c, "SWV_CLASS_SEARCH_SUBJECT")) == Lower(major) && Field(c, "SWV_CLASS_SEARCH_COURSE") == number
  }

  /** Index of the first ' ', or the length when there is none. */
  function IndexOfSpace(s: string): (k: nat)
    ensures k <= |s| && (k < |s| ==> s[k] == ' ') && ' ' !in s[..k]
    ensures k == |s| <==> ' ' !in s
  {
    if s == [] then 0
    else if s[0] == ' ' then 0
    else
      var k := 1 + IndexOfSpace(s[1..]);
      assert s[..k] == [s[0]] + s[1..][..k - 1];
      k
  }

  /** The inner loop of `get_all_instructors` for one class. */
  method CollectNames(items: seq<Json>) returns (names: set<string>)
    ensures names == NamesIn(items, |items|)
  {
    names := {};
    for j := 0 to |items|
      invariant names == NamesIn(items, j)
    {
      var i := items[j];
      if i.JObj? && "NAME" in i.fields {
        names := names + {Str(i.fields["NAME"])};
      }
    }
  }

  /** One class of `filter_by_instructor`: kept when it lists the instructor, whose CV link replaces the last one. */
  method FilterClass(classes: seq<Dict>, i: nat, name: string, decode: Json -> Json, out0: seq<Dict>, cvUrl0: Option<string>)
    returns (out: seq<Dict>, cvUrl: Option<string>)
    requires i < |classes|
    requires out0 == Filter(classes[..i], Teaches(name, decode)) && cvUrl0 == CvUpTo(classes, name, decode, i)
    ensures out == Filter(classes[..i + 1], Teaches(name, decode)) && cvUrl == CvUpTo(classes, name, decode, i + 1)
  {
    assert classes[..i + 1] == classes[..i] + [classes[i]];
    FilterSnoc(classes[..i], classes[i], Teaches(name, decode));
    out, cvUrl := out0, cvUrl0;
    var m := FindInstructor(classes[i], name, decode);
    if m.Some? {
      out := out + [classes[i]];
      var cv := CvOf(m.value);
      if cv.Some? {
        cvUrl := cv;
      }
    }
  }

  /** The inner loop of `filter_by_instructor`: stop at the first instructor with the name. */
  method FindInstructor(c: Dict, name: string, decode: Json -> Json) returns (m: Option<Dict>)
    ensures m == MatchOf(c, name, decode)
  {
    var raw := Get(c, "SWV_CLASS_SEARCH_INSTRCTR_JSON");
    if raw == JNull {
      return None;
    }
    var parsed := decode(raw);
    if !parsed.JList? {
      return None;
    }
    var items := parsed.items;
    for j := 0 to |items|
      invariant FirstMatch(items, name, 0) == FirstMatch(items, name, j)
    {
      if items[j].JObj? && Get(items[j].fields, "NAME") == JStr(name) {
        return Some(items[j].fields);
      }
    }
    return None;
  }
}
