// The course-code normaliser of the first-generation review summariser. The
// same logic is carried by the old professors pipeline and by the database
// summary module: a department-alias table and a cross-listing table keyed by
// (department, number), a context-aware variant that completes bare numbers
// with the professor's department, review grouping, the professor's primary
// department, tag aggregation and normalisation statistics.
module LegacySummarizer {
  import opened Common
  import opened CourseCodes

  /** A review as the summariser reads it from the database. */
  datatype ReviewData = ReviewData(
    id: string,
    professorId: string,
    courseCode: Option<string>,
    reviewText: Option<string>,
    clarityRating: Option<real>,
    difficultyRating: Option<real>,
    helpfulRating: Option<real>,
    ratingTags: Option<seq<string>>,
    grade: Option<string>)

  /** The two normalisation tables of the summariser object. */
  datatype Tables = Tables(aliases: map<string, string>, crossListings: map<(string, string), string>)

  /** The tables the summariser starts with: the same aliases and cross-listings as the newer normaliser's built-in ones. */
  const DefaultTables := Tables(DeptAliases, FallbackCrossListings)

  /** The department an alias stands for, or the department itself. */
  function Alias(t: Tables, dept: string): string {
    if dept in t.aliases then t.aliases[dept] else dept
  }

  // ---------------------------------------------------------------------------
  // Matching `([A-Z]+)\s*(\d+[A-Z]*)` and `(\d+[A-Z]*)`
  // ---------------------------------------------------------------------------

  predicate NotDigit(c: char) { !IsDigit(c) }

  /** `\d+[A-Z]*` taken greedily at the start of `s`; empty when `s` does not start with a digit. */
  function NumberPart(s: string): (r: string)
    ensures |r| <= |s| && r == s[..|r|]
    ensures r != [] <==> (s != [] && IsDigit(s[0]))
    ensures r != [] ==> IsBareNumber(r)
  {
    var d := SpanLen(s, IsDigit);
    var u := SpanLen(s[d..], IsUpper);
    if d == 0 then []
    else
      var r := s[..d + u];
      assert r[..d] == s[..d] && r[d..] == s[d..][..u];
      SpanLenExact(r, IsDigit, d);
      r
  }

  /** `re.match(r"([A-Z]+)\s*(\d+[A-Z]*)", s)`: the department and the number, both maximal. */
  function MatchCode(s: string): (r: Option<(string, string)>)
    ensures r.Some? ==> r.value.0 != [] && AllUpper(r.value.0) && IsBareNumber(r.value.1)
    ensures r.Some? ==> |r.value.0| <= |s| && r.value.0 == s[..|r.value.0|]
  {
    var n := SpanLen(s, IsUpper);
    var rest := s[n..][SpanLen(s[n..], IsSpace)..];
    var number := NumberPart(rest);
    if n == 0 || number == [] then None else Some((s[..n], number))
  }

  /** `re.search(r"(\d+[A-Z]*)", s)`: the number that starts at the first digit. */
  function FirstNumber(s: string): (r: Option<string>)
    ensures r.None? <==> forall i :: 0 <= i < |s| ==> !IsDigit(s[i])
    ensures r.Some? ==> IsBareNumber(r.value)
    ensures r.Some? ==> var k := SpanLen(s, NotDigit); k + |r.value| <= |s| && s[k..k + |r.value|] == r.value
  {
    var k := SpanLen(s, NotDigit);
    if k == |s| then None
    else
      NumberAt(s, k);
      Some(NumberPart(s[k..]))
  }

  /** The number that starts at the first digit `k` is non-empty and lies in `s` from `k`. */
  lemma NumberAt(s: string, k: nat)
    requires k < |s| && k == SpanLen(s, NotDigit)
    ensures IsDigit(s[k])
    ensures var r := NumberPart(s[k..]);
      r != [] && IsBareNumber(r) && k + |r| <= |s| && s[k..k + |r|] == r
  {
    var r := NumberPart(s[k..]);
    assert IsDigit(s[k..][0]);
    assert r == s[k..][..|r|];
    assert s[k..k + |r|] == s[k..][..|r|];
  }

  /** A capital run followed by a number, with nothing after, matches as exactly those two parts. */
  lemma {:induction false} PlainCodeMatch(dept: string, number: string)
    requires dept != [] && AllUpper(dept) && IsBareNumber(number)
    ensures MatchCode(dept + number) == Some((dept, number))
  {
    var s := dept + number;
    SpanLenExact(s, IsUpper, |dept|);
    assert s[|dept|..] == number && s[..|dept|] == dept;
    SpanLenExact(number, IsSpace, 0);
    assert number[0..] == number;
    var d := SpanLen(number, IsDigit);
    SpanLenExact(number[d..], IsUpper, |number| - d);
    assert number[..d + (|number| - d)] == number;
  }

  /** Only capitals and digits: what `CleanCode` leaves untouched. */
  predicate CodeChars(v: string) {
    forall i :: 0 <= i < |v| ==> IsUpper(v[i]) || IsDigit(v[i])
  }

  /** A capital run followed by a number is made of capitals and digits. */
  lemma PlainCodeChars(dept: string, number: string)
    requires AllUpper(dept) && IsBareNumber(number)
    ensures CodeChars(dept + number)
  {
    var s := dept + number;
    var d := SpanLen(number, IsDigit);
    forall i | 0 <= i < |s| ensures IsUpper(s[i]) || IsDigit(s[i]) {
      if i < |dept| {
        assert s[i] == dept[i];
      } else if i < |dept| + d {
        assert s[i] == number[i - |dept|];
      } else {
        assert s[i] == number[d..][i - |dept| - d];
      }
    }
  }

  // ---------------------------------------------------------------------------
  // normalize_course_code
  // ---------------------------------------------------------------------------

  /** The table lookups once a department and number are known: alias first, then the original department. */
  function Resolved(t: Tables, dept: string, number: string): string {
    var a := Alias(t, dept);
    if (a, number) in t.crossListings then t.crossListings[(a, number)]
    else if (dept, number) in t.crossListings then t.crossListings[(dept, number)]
    else a + number
  }

  /** `normalize_course_code`. */
  function NormalizeCourseCode(t: Tables, code: Option<string>): (r: string)
    ensures !Present(code) ==> r == "Unknown"
    ensures Present(code) && MatchCode(CleanCode(code.value)).None? ==> r == Upper(Strip(code.value))
  {
    if !Present(code) then "Unknown"
    else
      match MatchCode(CleanCode(code.value))
      case None => Upper(Strip(code.value))
      case Some((dept, number)) => Resolved(t, dept, number)
  }

  /**
   * Tables whose outputs are fixed points: every alias target is a capital
   * run that is its own alias, and every cross-listing target is a code of
   * capitals and digits that parses and resolves to itself.
   */
  predicate Settled(t: Tables) {
    AliasesSettled(t) && forall k :: k in t.crossListings ==> SettledCode(t, t.crossListings[k])
  }

  predicate AliasesSettled(t: Tables) {
    forall d :: d in t.aliases ==> SettledAlias(t, t.aliases[d])
  }

  predicate SettledAlias(t: Tables, a: string) {
    a != [] && AllUpper(a) && Alias(t, a) == a
  }

  predicate SettledCode(t: Tables, v: string) {
    CodeChars(v) && MatchCode(v).Some? && Resolved(t, MatchCode(v).value.0, MatchCode(v).value.1) == v
  }

  /** Upper-casing a stripped string leaves nothing to strip. */
  lemma UpperStripped(s: string)
    ensures Strip(Upper(Strip(s))) == Upper(Strip(s))
    ensures Upper(Upper(Strip(s))) == Upper(Strip(s))
  {
    var o := Upper(Strip(s));
    var st := Strip(s);
    assert st == [] || (!IsSpace(st[0]) && !IsSpace(st[|st| - 1]));
    StripUnchanged(o);
    UpperUnchanged(o);
  }

  /** A code that parses resolves to a settled code: to a cross-listing target or to a plain code. */
  lemma {:induction false} ResolvedSettled(t: Tables, dept: string, number: string)
    requires Settled(t) && dept != [] && AllUpper(dept) && IsBareNumber(number)
    ensures SettledCode(t, Resolved(t, dept, number))
  {
    var a := Alias(t, dept);
    if (a, number) in t.crossListings {
      assert SettledCode(t, t.crossListings[(a, number)]);
    } else if (dept, number) in t.crossListings {
      assert SettledCode(t, t.crossListings[(dept, number)]);
    } else {
      AliasSettled(t, dept);
      PlainSettled(t, a, number);
    }
  }

  /** What a parsed code resolves to is settled. */
  lemma ParsedResultSettled(t: Tables, s: string)
    requires Settled(t) && MatchCode(s).Some?
    ensures SettledCode(t, Resolved(t, MatchCode(s).value.0, MatchCode(s).value.1))
  {
    var m := MatchCode(s).value;
    ResolvedSettled(t, m.0, m.1);
  }

  /** A settled department joined to a number that no cross-listing names is settled. */
  lemma PlainSettled(t: Tables, a: string, number: string)
    requires SettledAlias(t, a) && IsBareNumber(number) && (a, number) !in t.crossListings
    ensures SettledCode(t, a + number)
  {
    PlainCodeMatch(a, number);
    PlainCodeChars(a, number);
    assert Resolved(t, a, number) == a + number;
  }

  /** Under settled aliases, the alias of a capital run is a capital run that is its own alias. */
  lemma AliasSettled(t: Tables, dept: string)
    requires AliasesSettled(t) && dept != [] && AllUpper(dept)
    ensures SettledAlias(t, Alias(t, dept))
  {
    if dept in t.aliases {
      assert SettledAlias(t, t.aliases[dept]);
    }
  }

  /** A code that does not parse comes back upper-cased and stripped, and that form does not parse either. */
  lemma UnparsedIdempotent(t: Tables, code: string)
    requires !IsBlank(code) && MatchCode(CleanCode(code)).None?
    ensures NormalizeCourseCode(t, Some(NormalizeCourseCode(t, Some(code)))) == NormalizeCourseCode(t, Some(code))
  {
    var r := Upper(Strip(code));
    UpperStripped(code);
    CleanOfNormal(code);
    assert Present(Some(code)) && Present(Some(r));
  }

  /** Cleaning the upper-cased, stripped code gives the same as cleaning the code. */
  lemma CleanOfNormal(code: string)
    ensures CleanCode(Upper(Strip(code))) == CleanCode(code)
  {
    UpperStripped(code);
  }

  /** A code of capitals and digits is already clean, so it is parsed as it stands. */
  lemma CodeCharsNormalize(t: Tables, v: string)
    requires CodeChars(v) && MatchCode(v).Some?
    ensures NormalizeCourseCode(t, Some(v)) == Resolved(t, MatchCode(v).value.0, MatchCode(v).value.1)
  {
    CleanCodeUnchanged(v);
  }

  /** A code that parses comes back as a settled code, which normalises to itself. */
  lemma ParsedCodeIdempotent(t: Tables, code: string)
    requires Settled(t) && !IsBlank(code) && MatchCode(CleanCode(code)).Some?
    ensures NormalizeCourseCode(t, Some(NormalizeCourseCode(t, Some(code)))) == NormalizeCourseCode(t, Some(code))
  {
    var c := CleanCode(code);
    var r := Resolved(t, MatchCode(c).value.0, MatchCode(c).value.1);
    assert NormalizeCourseCode(t, Some(code)) == r;
    ParsedResultSettled(t, c);
    ParsedIdempotent(t, r);
  }


  lemma ParsedIdempotent(t: Tables, v: string)
    requires SettledCode(t, v)
    ensures NormalizeCourseCode(t, Some(v)) == v
  {
    CodeCharsNormalize(t, v);
  }

  /**
   * With settled tables, normalising a normalised code changes nothing; the
   * exception is a blank code, which becomes "" and then "Unknown".
   */
  lemma NormalizeIdempotent(t: Tables, code: string)
    requires Settled(t) && !IsBlank(code)
    ensures NormalizeCourseCode(t, Some(NormalizeCourseCode(t, Some(code)))) == NormalizeCourseCode(t, Some(code))
  {
    if MatchCode(CleanCode(code)).None? {
      UnparsedIdempotent(t, code);
    } else {
      ParsedCodeIdempotent(t, code);
    }
  }

  /** The departments the built-in aliases point to. */
  const AliasTargets: set<string> := {"CSCE", "ECEN", "MATH", "ENGR", "PHYS", "CHEM", "MGMT", "MKTG", "FINC", "ACCT", "IDIS"}

  lemma DefaultAliasTargets()
    ensures forall d :: d in DeptAliases ==> DeptAliases[d] in AliasTargets
  {
  }

  lemma DefaultTargetsSettled()
    ensures forall a :: a in AliasTargets ==> SettledAlias(DefaultTables, a)
  {
    forall a | a in AliasTargets ensures SettledAlias(DefaultTables, a) {
      if a in {"CSCE", "ECEN", "IDIS"} {
        UnaliasedSettled(a);
      } else {
        SelfAliasSettled(a);
      }
    }
  }

  /** The targets that are not themselves aliases are settled. */
  lemma UnaliasedSettled(a: string)
    requires a in {"CSCE", "ECEN", "IDIS"}
    ensures SettledAlias(DefaultTables, a)
  {
    assert a !in DeptAliases;
  }

  /** The targets that the alias table maps to themselves are settled. */
  lemma SelfAliasSettled(a: string)
    requires a in AliasTargets - {"CSCE", "ECEN", "IDIS"}
    ensures SettledAlias(DefaultTables, a)
  {
    assert a in DeptAliases && DeptAliases[a] == a;
  }

  /** A built-in cross-listing target, written as department and number, is settled. */
  lemma DefaultCrossSettled(dept: string, number: string)
    requires (dept, number) in FallbackCrossListings && FallbackCrossListings[(dept, number)] == dept + number
    requires SettledAlias(DefaultTables, dept) && IsBareNumber(number)
    ensures SettledCode(DefaultTables, dept + number)
  {
    PlainCodeMatch(dept, number);
    PlainCodeChars(dept, number);
  }

  lemma DefaultAliasesSettled()
    ensures AliasesSettled(DefaultTables)
  {
    DefaultAliasTargets();
    DefaultTargetsSettled();
  }

  lemma CsceSettled()
    ensures SettledAlias(DefaultTables, "CSCE")
  {
    assert "CSCE" !in DeptAliases;
  }

  lemma Csce222Settled()
    ensures SettledCode(DefaultTables, "CSCE222")
  {
    CsceSettled();
    assert "CSCE" + "222" == "CSCE222";
    DefaultCrossSettled("CSCE", "222");
  }

  lemma Csce314Settled()
    ensures SettledCode(DefaultTables, "CSCE314")
  {
    CsceSettled();
    assert "CSCE" + "314" == "CSCE314";
    DefaultCrossSettled("CSCE", "314");
  }

  lemma FallbackTargets()
    ensures forall k :: k in FallbackCrossListings ==> FallbackCrossListings[k] == "CSCE222" || FallbackCrossListings[k] == "CSCE314"
  {
  }

  lemma DefaultCrossListingsSettled()
    ensures forall k :: k in FallbackCrossListings ==> SettledCode(DefaultTables, FallbackCrossListings[k])
  {
    Csce222Settled();
    Csce314Settled();
    FallbackTargets();
  }

  /** The built-in tables are settled. */
  lemma DefaultSettled()
    ensures Settled(DefaultTables)
  {
    DefaultAliasesSettled();
    DefaultCrossListingsSettled();
  }

  // ---------------------------------------------------------------------------
  // extract_course_number and normalize_course_code_with_context
  // ---------------------------------------------------------------------------

  /** A bare number is matched whole by `\d+[A-Z]*`. */
  lemma NumberPartWhole(number: string)
    requires IsBareNumber(number)
    ensures NumberPart(number) == number
  {
    var d := SpanLen(number, IsDigit);
    SpanLenExact(number[d..], IsUpper, |number| - d);
    assert number[..d + (|number| - d)] == number;
  }

  /** `extract_course_number`: the first number of the cleaned code, or "Unknown". */
  function ExtractCourseNumber(code: Option<string>): (r: string)
    ensures !Present(code) ==> r == "Unknown"
    ensures r == "Unknown" || IsBareNumber(r)
    ensures Present(code) ==> (r == "Unknown" <==> FirstNumber(CleanCode(code.value)).None?)
  {
    assert !IsBareNumber("Unknown") by {
      assert SpanLen("Unknown", IsDigit) == 0;
    }
    if !Present(code) then "Unknown"
    else
      match FirstNumber(CleanCode(code.value))
      case Some(n) => n
      case None => "Unknown"
  }

  /** The first number of a plain code is its number part. */
  lemma FirstNumberOfPlain(dept: string, number: string)
    requires AllUpper(dept) && IsBareNumber(number)
    ensures FirstNumber(dept + number) == Some(number)
  {
    var s := dept + number;
    SpanLenExact(s, NotDigit, |dept|);
    assert s[|dept|..] == number;
    NumberPartWhole(number);
  }

  /** A plain code is clean, and its first number is its number part. */
  lemma PlainCodeFacts(dept: string, number: string)
    requires AllUpper(dept) && IsBareNumber(number)
    ensures dept + number != [] && CleanCode(dept + number) == dept + number
    ensures FirstNumber(dept + number) == Some(number)
  {
    PlainCodeChars(dept, number);
    CleanCodeUnchanged(dept + number);
    FirstNumberOfPlain(dept, number);
  }

  /** The number of a plain code is its number part: "CSCE121" gives "121". */
  lemma ExtractPlainNumber(dept: string, number: string)
    requires AllUpper(dept) && IsBareNumber(number)
    ensures ExtractCourseNumber(Some(dept + number)) == number
  {
    PlainCodeFacts(dept, number);
    ExtractClean(dept + number, number);
  }

  /** A clean code yields its first number. */
  lemma ExtractClean(s: string, n: string)
    requires s != [] && CleanCode(s) == s && FirstNumber(s) == Some(n)
    ensures ExtractCourseNumber(Some(s)) == n
  {
  }

  /** `partial_expansions`: the departments one- or two-letter prefixes are read as. */
  const PartialExpansions: map<string, string> :=
    map["M" := "MATH", "C" := "CSCE", "E" := "ECEN", "P" := "PHYS", "CH" := "CHEM", "A" := "ACCT"]

  /** `re.match(r"([A-Z]{1,3})", s)`: up to three leading capitals, empty when there is no match. */
  function PartialDept(s: string): (r: string)
    ensures |r| <= 3 && |r| <= |s| && r == s[..|r|] && AllUpper(r)
    ensures r == [] <==> (s == [] || !IsUpper(s[0]))
  {
    var n := SpanLen(s, IsUpper);
    s[..if n < 3 then n else 3]
  }

  /** A number completed with a department: an expansion of the leading letters, or the professor's department. */
  function CompleteNumber(cleaned: string, number: string, professorDept: string): string {
    var partial := PartialDept(cleaned);
    if partial != [] && !StartsWith(professorDept, partial) && partial in PartialExpansions then
      PartialExpansions[partial] + number
    else professorDept + number
  }

  /** `normalize_course_code_with_context` once the code is known to be present and has been cleaned. */
  function ContextResolved(t: Tables, cleaned: string, code: string, professorDept: string): string {
    match MatchCode(cleaned)
    case Some((dept, number)) =>
      var a := Alias(t, dept);
      if (a, number) in t.crossListings then t.crossListings[(a, number)] else a + number
    case None =>
      match FirstNumber(cleaned)
      case Some(number) => CompleteNumber(cleaned, number, professorDept)
      case None => Upper(Strip(code))
  }

  /** `normalize_course_code_with_context`. */
  function NormalizeWithContext(t: Tables, code: Option<string>, professorDept: string): (r: string)
    ensures !Present(code) ==> r == "Unknown"
    ensures Present(code) ==> r == ContextResolved(t, CleanCode(code.value), code.value, professorDept)
  {
    if !Present(code) then "Unknown"
    else ContextResolved(t, CleanCode(code.value), code.value, professorDept)
  }

  /** A code of digits only is clean, has no department, and is its own number. */
  lemma DigitsOnly(code: string)
    requires code != [] && AllDigits(code)
    ensures CleanCode(code) == code && MatchCode(code).None? && FirstNumber(code) == Some(code) && PartialDept(code) == []
  {
    CleanCodeUnchanged(code);
    assert SpanLen(code, IsUpper) == 0;
    assert SpanLen(code, NotDigit) == 0;
    SpanLenExact(code, IsDigit, |code|);
    assert code[|code|..] == [];
    NumberPartWhole(code);
    assert code[0..] == code;
  }

  /** A code of digits only gets the professor's department: ("152", "MATH") gives "MATH152". */
  lemma WithContextBareNumber(t: Tables, code: string, professorDept: string)
    requires code != [] && AllDigits(code)
    ensures NormalizeWithContext(t, Some(code), professorDept) == professorDept + code
  {
    DigitsOnly(code);
  }

  /** "M152" is clean and matches the department-and-number pattern as "M" and "152". */
  lemma M152Facts()
    ensures CleanCode("M152") == "M152" && MatchCode("M152") == Some(("M", "152"))
  {
    PlainCodeMatch("M", "152");
    PlainCodeChars("M", "152");
    assert "M" + "152" == "M152";
    CleanCodeUnchanged("M152");
  }

  /** A parsed department that no alias and no cross-listing names is kept as it stands. */
  lemma ContextPlain(t: Tables, cleaned: string, code: string, professorDept: string, dept: string, number: string)
    requires MatchCode(cleaned) == Some((dept, number)) && dept !in t.aliases && (dept, number) !in t.crossListings
    ensures ContextResolved(t, cleaned, code, professorDept) == dept + number
  {
  }

  /** "M152" already matches the department-and-number pattern, so the partial expansion never sees it. */
  lemma WithContextLetterPrefix(professorDept: string)
    ensures NormalizeWithContext(DefaultTables, Some("M152"), professorDept) == "M152"
  {
    M152Facts();
    MUnlisted();
    WithContextClean(DefaultTables, "M152", professorDept);
    ContextPlain(DefaultTables, "M152", "M152", professorDept, "M", "152");
  }

  lemma MUnlisted()
    ensures "M" !in DefaultTables.aliases && ("M", "152") !in DefaultTables.crossListings
  {
  }

  /** A code that is already clean is resolved as it stands. */
  lemma WithContextClean(t: Tables, s: string, professorDept: string)
    requires s != [] && CleanCode(s) == s
    ensures NormalizeWithContext(t, Some(s), professorDept) == ContextResolved(t, s, s, professorDept)
  {
  }

  /** What `normalize_course_code` makes of a code that parses. */
  lemma NormalizeParsed(t: Tables, code: string)
    requires code != [] && MatchCode(CleanCode(code)).Some?
    ensures NormalizeCourseCode(t, Some(code)) == Resolved(t, MatchCode(CleanCode(code)).value.0, MatchCode(CleanCode(code)).value.1)
  {
  }

  /** On a parsed code the context-aware lookup tries the aliased department only. */
  lemma ContextParsed(t: Tables, cleaned: string, code: string, professorDept: string)
    requires MatchCode(cleaned).Some?
    ensures var (d, n) := MatchCode(cleaned).value;
      ContextResolved(t, cleaned, code, professorDept) ==
        if (Alias(t, d), n) in t.crossListings then t.crossListings[(Alias(t, d), n)] else Alias(t, d) + n
  {
  }

  /**
   * The context-aware normaliser parses like `normalize_course_code` but looks
   * a cross-listing up by the aliased department only: the two agree unless
   * just the original department has an entry.
   */
  lemma WithContextAgrees(t: Tables, code: string, professorDept: string)
    requires code != [] && MatchCode(CleanCode(code)).Some?
    ensures var (d, n) := MatchCode(CleanCode(code)).value;
      ((Alias(t, d), n) in t.crossListings || (d, n) !in t.crossListings) ==>
        NormalizeWithContext(t, Some(code), professorDept) == NormalizeCourseCode(t, Some(code))
    ensures var (d, n) := MatchCode(CleanCode(code)).value;
      ((Alias(t, d), n) !in t.crossListings && (d, n) in t.crossListings) ==>
        NormalizeWithContext(t, Some(code), professorDept) == Alias(t, d) + n
  {
    NormalizeParsed(t, code);
    ContextParsed(t, CleanCode(code), code, professorDept);
  }

  /** On a code that does not parse but holds a number, the number is completed with a department. */
  lemma ContextCompletes(t: Tables, cleaned: string, code: string, professorDept: string)
    requires MatchCode(cleaned).None? && FirstNumber(cleaned).Some?
    ensures var n := FirstNumber(cleaned).value;
      var r := ContextResolved(t, cleaned, code, professorDept);
      var partial := PartialDept(cleaned);
      (partial == [] || StartsWith(professorDept, partial) || partial !in PartialExpansions ==> r == professorDept + n) &&
      (partial != [] && !StartsWith(professorDept, partial) && partial in PartialExpansions ==>
        r == PartialExpansions[partial] + n && partial in {"M", "C", "E", "P", "CH", "A"})
  {
  }

  /**
   * A code that does not parse but holds a number becomes that number behind
   * a department: the professor's when it extends the leading letters or
   * there are none, else one of the fixed expansions.
   */
  lemma WithContextCompletes(t: Tables, code: string, professorDept: string)
    requires code != [] && MatchCode(CleanCode(code)).None? && FirstNumber(CleanCode(code)).Some?
    ensures var n := FirstNumber(CleanCode(code)).value;
      var r := NormalizeWithContext(t, Some(code), professorDept);
      var partial := PartialDept(CleanCode(code));
      (partial == [] || StartsWith(professorDept, partial) || partial !in PartialExpansions ==> r == professorDept + n) &&
      (partial != [] && !StartsWith(professorDept, partial) && partial in PartialExpansions ==>
        r == PartialExpansions[partial] + n && partial in {"M", "C", "E", "P", "CH", "A"})
  {
    ContextCompletes(t, CleanCode(code), code, professorDept);
  }

  // ---------------------------------------------------------------------------
  // Grouping keys
  // ---------------------------------------------------------------------------

  /** `str.isdigit()` on the ASCII digits: non-empty and digits only. */
  predicate IsDigitString(s: string) {
    s != [] && AllDigits(s)
  }

  /**
   * The key of `group_reviews_by_course_number`: a number of digits only goes
   * behind the professor's department, anything else through the
   * context-aware normaliser.
   */
  function NumberKey(t: Tables, professorDept: string, code: Option<string>): string {
    var number := ExtractCourseNumber(code);
    if number != "Unknown" && IsDigitString(number) then professorDept + number
    else NormalizeWithContext(t, code, professorDept)
  }

  /** A code whose number is digits only is keyed by the professor's department and that number. */
  lemma NumberKeyDigits(t: Tables, professorDept: string, code: Option<string>)
    requires IsDigitString(ExtractCourseNumber(code))
    ensures NumberKey(t, professorDept, code) == professorDept + ExtractCourseNumber(code)
  {
    assert ExtractCourseNumber(code) != "Unknown" by {
      assert !IsDigit("Unknown"[0]);
    }
  }

  /** Digits only are a bare number. */
  lemma DigitsBare(number: string)
    requires IsDigitString(number)
    ensures IsBareNumber(number)
  {
    SpanLenExact(number, IsDigit, |number|);
    assert number[|number|..] == [];
  }

  /**
   * Grouping by number ignores the written department: "CSCE121" and
   * "ENGR121" both land under the professor's department followed by "121".
   */
  lemma NumberKeyOfPlain(t: Tables, professorDept: string, dept: string, number: string)
    requires AllUpper(dept) && IsDigitString(number)
    ensures NumberKey(t, professorDept, Some(dept + number)) == professorDept + number
  {
    DigitsBare(number);
    ExtractPlainNumber(dept, number);
    NumberKeyDigits(t, professorDept, Some(dept + number));
  }

  /** A review's key when grouping by number. */
  function NumberKeyOf(t: Tables, professorDept: string): ReviewData -> string {
    (r: ReviewData) => NumberKey(t, professorDept, r.courseCode)
  }

  /** A review's key when grouping by full code. */
  function CodeKeyOf(t: Tables): ReviewData -> string {
    (r: ReviewData) => NormalizeCourseCode(t, r.courseCode)
  }

  // ---------------------------------------------------------------------------
  // Counting (`dict.get(k, 0) + 1`, `Counter`)
  // ---------------------------------------------------------------------------

  function Same(s: string): string { s }

  /** How many times `x` occurs in `xs`. */
  function Occurrences(xs: seq<string>, x: string): nat {
    |WithKey(xs, Same, x)|
  }

  lemma OccurrencesSnoc(xs: seq<string>, y: string, x: string)
    ensures Occurrences(xs + [y], x) == Occurrences(xs, x) + (if y == x then 1 else 0)
  {
    assert (xs + [y])[..|xs|] == xs;
  }

  /** An element occurs in a list exactly when it is counted at least once. */
  lemma {:induction false} OccurrencesPositive(xs: seq<string>, x: string)
    ensures x in xs <==> Occurrences(xs, x) > 0
  {
    if |xs| > 0 {
      var p := xs[..|xs| - 1];
      OccurrencesPositive(p, x);
      OccurrencesSnoc(p, xs[|xs| - 1], x);
      assert xs == p + [xs[|xs| - 1]];
    }
  }

  // ---------------------------------------------------------------------------
  // get_professor_primary_department
  // ---------------------------------------------------------------------------

  /** The department of a review: the leading capitals of its normalised code, if any. */
  function DeptOf(t: Tables, code: Option<string>): (r: Option<string>)
    ensures r.Some? ==> r.value != [] && AllUpper(r.value)
  {
    if !Present(code) then None
    else
      var n := NormalizeCourseCode(t, code);
      var k := SpanLen(n, IsUpper);
      if k == 0 then None else Some(n[..k])
  }

  /** The departments of the reviews that have one, in review order. */
  function Depts(t: Tables, reviews: seq<ReviewData>): seq<string> {
    if |reviews| == 0 then []
    else
      var d := DeptOf(t, reviews[|reviews| - 1].courseCode);
      Depts(t, reviews[..|reviews| - 1]) + (if d.Some? then [d.value] else [])
  }

  /**
   * `max(keys, key=count)` over keys in first-seen order: `m` has the highest
   * count, and no key seen before it has the same count.
   */
  predicate IsFirstMax(xs: seq<string>, m: string) {
    m in xs &&
    (forall y :: y in xs ==> Occurrences(xs, y) <= Occurrences(xs, m)) &&
    (forall y :: y in xs && Occurrences(xs, y) == Occurrences(xs, m) ==> FirstIndex(xs, m) <= FirstIndex(xs, y))
  }

  /** At most one element is the first maximum, so the primary department is well defined. */
  lemma FirstMaxUnique(xs: seq<string>, a: string, b: string)
    requires IsFirstMax(xs, a) && IsFirstMax(xs, b)
    ensures a == b
  {
    assert FirstIndex(xs, a) == FirstIndex(xs, b);
    assert xs[FirstIndex(xs, a)] == a;
  }

  /** A maximum found scanning the distinct elements in first-seen order, keeping the earlier on ties, is the first maximum. */
  lemma FirstMaxOfOrder(xs: seq<string>, p: nat)
    requires p < |Dedup(xs)|
    requires forall q :: 0 <= q < |Dedup(xs)| ==> Occurrences(xs, Dedup(xs)[q]) <= Occurrences(xs, Dedup(xs)[p])
    requires forall q :: 0 <= q < |Dedup(xs)| && Occurrences(xs, Dedup(xs)[q]) == Occurrences(xs, Dedup(xs)[p]) ==> p <= q
    ensures IsFirstMax(xs, Dedup(xs)[p])
  {
    DedupSpec(xs);
    FirstMaxAmong(xs, Dedup(xs), p);
  }

  /** The same, for any listing of the distinct elements in first-seen order. */
  lemma FirstMaxAmong(xs: seq<string>, order: seq<string>, p: nat)
    requires p < |order|
    requires forall x :: x in order <==> x in xs
    requires forall i, j :: 0 <= i < j < |order| ==> FirstIndex(xs, order[i]) < FirstIndex(xs, order[j])
    requires forall q :: 0 <= q < |order| ==> Occurrences(xs, order[q]) <= Occurrences(xs, order[p])
    requires forall q :: 0 <= q < |order| && Occurrences(xs, order[q]) == Occurrences(xs, order[p]) ==> p <= q
    ensures IsFirstMax(xs, order[p])
  {
    var m := order[p];
    forall y | y in xs
      ensures Occurrences(xs, y) <= Occurrences(xs, m)
      ensures Occurrences(xs, y) == Occurrences(xs, m) ==> FirstIndex(xs, m) <= FirstIndex(xs, y)
    {
      var q := FirstIndex(order, y);
      assert order[q] == y;
      if Occurrences(xs, y) == Occurrences(xs, m) && p < q {
        assert FirstIndex(xs, order[p]) < FirstIndex(xs, order[q]);
      }
    }
    assert m in xs;
  }

  // ---------------------------------------------------------------------------
  // aggregate_tags
  // ---------------------------------------------------------------------------

  /** A review's tags; a missing list adds nothing. */
  function TagsOf(r: ReviewData): seq<string> {
    if r.ratingTags.Some? then r.ratingTags.value else []
  }

  /** Every review's tags, one review after another. */
  function AllTags(reviews: seq<ReviewData>): seq<string> {
    if |reviews| == 0 then [] else AllTags(reviews[..|reviews| - 1]) + TagsOf(reviews[|reviews| - 1])
  }

  /** `dict(Counter(all_tags))`: each distinct tag with its number of occurrences. */
  function TagCounts(all: seq<string>): (r: map<string, nat>)
    ensures forall x :: x in r <==> x in all
  {
    map x | x in all :: Occurrences(all, x)
  }

  /** Counts never go up along `s`. */
  predicate NonIncreasing(count: string -> nat, s: seq<string>) {
    forall i, j :: 0 <= i < j < |s| ==> count(s[i]) >= count(s[j])
  }

  /** Puts `x` after every element counted at least as often as it. */
  function InsertByCount(count: string -> nat, x: string, s: seq<string>): (r: seq<string>)
    ensures |r| == |s| + 1
    ensures forall y :: y in r <==> y == x || y in s
  {
    if |s| == 0 then [x]
    else if count(s[0]) >= count(x) then [s[0]] + InsertByCount(count, x, s[1..])
    else [x] + s
  }

  /** A stable sort by count, highest first: `sorted(xs, key=count, reverse=True)`. */
  function SortByCount(count: string -> nat, xs: seq<string>): (r: seq<string>)
    ensures |r| == |xs|
    ensures forall y :: y in r <==> y in xs
  {
    if |xs| == 0 then [] else InsertByCount(count, xs[|xs| - 1], SortByCount(count, xs[..|xs| - 1]))
  }

  lemma {:induction false} InsertSorted(count: string -> nat, x: string, s: seq<string>)
    requires NonIncreasing(count, s)
    ensures NonIncreasing(count, InsertByCount(count, x, s))
  {
    if |s| > 0 {
      HeadDominates(count, s);
      if count(s[0]) >= count(x) {
        InsertSorted(count, x, s[1..]);
        ConsSorted(count, s[0], InsertByCount(count, x, s[1..]));
      } else {
        ConsSorted(count, x, s);
      }
    }
  }

  /** The first element of a sorted list is counted at least as often as every element. */
  lemma HeadDominates(count: string -> nat, s: seq<string>)
    requires NonIncreasing(count, s) && |s| > 0
    ensures forall y :: y in s ==> count(s[0]) >= count(y)
  {
    forall y | y in s ensures count(s[0]) >= count(y) {
      var k :| 0 <= k < |s| && s[k] == y;
    }
  }

  /** An element counted at least as often as all of a sorted list can go in front of it. */
  lemma ConsSorted(count: string -> nat, h: string, s: seq<string>)
    requires NonIncreasing(count, s) && forall y :: y in s ==> count(h) >= count(y)
    ensures NonIncreasing(count, [h] + s)
  {
    var r := [h] + s;
    forall i, j | 0 <= i < j < |r| ensures count(r[i]) >= count(r[j]) {
      if i > 0 {
        assert r[i] == s[i - 1] && r[j] == s[j - 1];
      } else {
        assert r[j] == s[j - 1];
      }
    }
  }

  lemma {:induction false} InsertNoDuplicates(count: string -> nat, x: string, s: seq<string>)
    requires NoDuplicates(s) && x !in s
    ensures NoDuplicates(InsertByCount(count, x, s))
  {
    if |s| > 0 && count(s[0]) >= count(x) {
      var t := s[1..];
      var rt := InsertByCount(count, x, t);
      InsertNoDuplicates(count, x, t);
      var r := InsertByCount(count, x, s);
      forall i, j | 0 <= i < j < |r| ensures r[i] != r[j] {
        if i > 0 {
          assert r[i] == rt[i - 1] && r[j] == rt[j - 1];
        } else {
          assert r[j] in rt;
          assert s[0] !in t;
        }
      }
    }
  }

  /** The sort orders by count and, on a list without repeats, is a permutation without repeats. */
  lemma {:induction false} SortByCountSpec(count: string -> nat, xs: seq<string>)
    ensures NonIncreasing(count, SortByCount(count, xs))
    ensures NoDuplicates(xs) ==> NoDuplicates(SortByCount(count, xs))
  {
    if |xs| > 0 {
      var p := xs[..|xs| - 1];
      SortByCountSpec(count, p);
      InsertSorted(count, xs[|xs| - 1], SortByCount(count, p));
      if NoDuplicates(xs) {
        assert xs[|xs| - 1] !in p;
        InsertNoDuplicates(count, xs[|xs| - 1], SortByCount(count, p));
      }
    }
  }

  /** A tag's count in `all`, as a key for the sort. */
  function CountIn(all: seq<string>): string -> nat {
    (x: string) => Occurrences(all, x)
  }

  /** `[tag for tag, count in Counter(all).most_common(10)]`. */
  function TopTags(all: seq<string>): seq<string> {
    var sorted := SortByCount(CountIn(all), Dedup(all));
    if |sorted| <= 10 then sorted else sorted[..10]
  }

  /**
   * The common tags: at most ten distinct tags, all from the input, in
   * non-increasing count order, and no tag left out is counted more often
   * than any tag listed.
   */
  lemma TopTagsSpec(all: seq<string>)
    ensures |TopTags(all)| <= 10 && |TopTags(all)| == (if |Dedup(all)| <= 10 then |Dedup(all)| else 10)
    ensures NoDuplicates(TopTags(all))
    ensures forall i, j :: 0 <= i < j < |TopTags(all)| ==> Occurrences(all, TopTags(all)[i]) >= Occurrences(all, TopTags(all)[j])
    ensures forall x :: x in TopTags(all) ==> x in all
    ensures forall x :: x in all && x !in TopTags(all) ==>
      |TopTags(all)| == 10 && forall i :: 0 <= i < 10 ==> Occurrences(all, TopTags(all)[i]) >= Occurrences(all, x)
  {
    var d := Dedup(all);
    DedupSpec(all);
    var count := CountIn(all);
    var sorted := SortByCount(count, d);
    SortByCountSpec(count, d);
    var top := TopTags(all);
    assert forall i :: 0 <= i < |top| ==> top[i] == sorted[i];
    forall x | x in all && x !in top
      ensures |top| == 10 && forall i :: 0 <= i < 10 ==> Occurrences(all, top[i]) >= Occurrences(all, x)
    {
      var k :| 0 <= k < |sorted| && sorted[k] == x;
      assert k >= |top|;
    }
  }

  /** The counter's values add up to the number of tags. */
  lemma TagCountsSum(all: seq<string>)
    ensures forall x :: x in TagCounts(all) ==> TagCounts(all)[x] == Occurrences(all, x)
    ensures var d := Dedup(all);
      Sum(seq(|d|, j requires 0 <= j < |d| => Occurrences(all, d[j]))) == |all|
  {
    var d := Dedup(all);
    DedupSpec(all);
    WithKeySizes(all, Same, d);
    assert seq(|d|, j requires 0 <= j < |d| => Occurrences(all, d[j])) ==
      seq(|d|, j requires 0 <= j < |d| => |WithKey(all, Same, d[j])|);
  }

  /** `aggregate_tags`: the loop gathering the tags, then the counter and its ten most common tags. */
  method AggregateTags(reviews: seq<ReviewData>) returns (commonTags: seq<string>, tagCounts: map<string, nat>)
    ensures commonTags == TopTags(AllTags(reviews)) && tagCounts == TagCounts(AllTags(reviews))
  {
    var all: seq<string> := [];
    for i := 0 to |reviews|
      invariant all == AllTags(reviews[..i])
    {
      assert reviews[..i + 1][..i] == reviews[..i];
      if reviews[i].ratingTags.Some? && reviews[i].ratingTags.value != [] {
        all := all + reviews[i].ratingTags.value;
      }
    }
    assert reviews[..|reviews|] == reviews;
    tagCounts := TagCounts(all);
    commonTags := TopTags(all);
  }

  // ---------------------------------------------------------------------------
  // get_normalization_stats
  // ---------------------------------------------------------------------------

  /** `[r.course_code for r in reviews if r.course_code]`. */
  function OriginalCodes(reviews: seq<ReviewData>): (r: seq<string>)
    ensures forall i :: 0 <= i < |r| ==> r[i] != ""
  {
    if |reviews| == 0 then []
    else
      var c := reviews[|reviews| - 1].courseCode;
      OriginalCodes(reviews[..|reviews| - 1]) + (if Present(c) then [c.value] else [])
  }

  /** `normalize_course_code` on a code that is present, as a function value. */
  function NormalizeWith(t: Tables): string -> string {
    (code: string) => NormalizeCourseCode(t, Some(code))
  }

  /** `set(xs)`. */
  function SetOf(xs: seq<string>): set<string> {
    set x | x in xs
  }

  /** The distinct originals that `normalize` sends to `k`. */
  function OriginsOf(originals: seq<string>, normalize: string -> string, k: string): set<string> {
    set o | o in originals && normalize(o) == k
  }

  /** The statistics `get_normalization_stats` reports. */
  datatype NormalizationStats = NormalizationStats(
    totalReviews: nat,
    uniqueOriginalCodes: nat,
    uniqueNormalizedCodes: nat,
    coursesMerged: int,
    mergedCourseDetails: map<string, set<string>>)

  /** A function maps a set onto at most as many values. */
  lemma {:induction false} ImageCardinality(s: set<string>, f: string -> string)
    ensures |set x | x in s :: f(x)| <= |s|
    decreases |s|
  {
    if s != {} {
      var y :| y in s;
      var rest := s - {y};
      ImageCardinality(rest, f);
      assert (set x | x in s :: f(x)) == (set x | x in rest :: f(x)) + {f(y)};
    }
  }

  /** Normalising cannot create distinct codes: the merge count is never negative. */
  lemma MergedNonNegative(t: Tables, originals: seq<string>)
    ensures |SetOf(MapSeq(originals, NormalizeWith(t)))| <= |SetOf(originals)|
  {
    var f := NormalizeWith(t);
    var normalized := MapSeq(originals, f);
    ImageCardinality(SetOf(originals), f);
    assert SetOf(normalized) == set x | x in SetOf(originals) :: f(x) by {
      forall y | y in SetOf(normalized) ensures y in set x | x in SetOf(originals) :: f(x) {
        var i :| 0 <= i < |normalized| && normalized[i] == y;
        assert originals[i] in SetOf(originals);
      }
    }
  }

  /** The `merged_courses` loop over `zip(original_codes, normalized_codes)`. */
  method MergeOrigins(originals: seq<string>, normalized: seq<string>, normalize: string -> string)
    returns (merged: map<string, set<string>>)
    requires normalized == MapSeq(originals, normalize)
    ensures forall k :: k in merged <==> k in normalized
    ensures forall k :: k in merged ==> merged[k] == OriginsOf(originals, normalize, k)
  {
    merged := map[];
    for i := 0 to |originals|
      invariant forall k :: k in merged <==> k in normalized[..i]
      invariant forall k :: k in merged ==> merged[k] == OriginsOf(originals[..i], normalize, k)
    {
      var orig, norm := originals[i], normalized[i];
      assert originals[..i + 1] == originals[..i] + [orig];
      assert normalized[..i + 1] == normalized[..i] + [norm];
      forall k ensures OriginsOf(originals[..i + 1], normalize, k) ==
        OriginsOf(originals[..i], normalize, k) + (if norm == k then {orig} else {})
      {
      }
      if norm !in merged {
        merged := merged[norm := {}];
        assert OriginsOf(originals[..i], normalize, norm) == {};
      }
      merged := merged[norm := merged[norm] + {orig}];
    }
    assert originals[..|originals|] == originals;
    assert normalized[..|normalized|] == normalized;
  }

  // ---------------------------------------------------------------------------
  // add_course_mapping and add_cross_listing
  // ---------------------------------------------------------------------------

  /** A capital run followed by a number is resolved through the tables as it stands. */
  lemma NormalizePlain(t: Tables, dept: string, number: string)
    requires dept != [] && AllUpper(dept) && IsBareNumber(number)
    ensures NormalizeCourseCode(t, Some(dept + number)) == Resolved(t, dept, number)
  {
    PlainCodeMatch(dept, number);
    PlainCodeChars(dept, number);
    CodeCharsNormalize(t, dept + number);
  }

  /**
   * After `add_course_mapping(from, to)`, a code written with the old
   * department comes out under the new one, unless a cross-listing names it.
   */
  lemma MappingTakesEffect(t: Tables, fromDept: string, toDept: string, number: string)
    requires Upper(fromDept) != [] && AllUpper(Upper(fromDept)) && IsBareNumber(number)
    requires (Upper(toDept), number) !in t.crossListings && (Upper(fromDept), number) !in t.crossListings
    ensures NormalizeCourseCode(Tables(t.aliases[Upper(fromDept) := Upper(toDept)], t.crossListings),
      Some(Upper(fromDept) + number)) == Upper(toDept) + number
  {
    NormalizePlain(Tables(t.aliases[Upper(fromDept) := Upper(toDept)], t.crossListings), Upper(fromDept), number);
  }

  /**
   * After `add_cross_listing(dept, number, canonical)`, that course comes out
   * as the canonical code, provided no alias renames the department first.
   */
  lemma CrossListingTakesEffect(t: Tables, dept: string, number: string, canonical: string)
    requires Upper(dept) != [] && AllUpper(Upper(dept)) && Upper(dept) !in t.aliases && IsBareNumber(number)
    ensures NormalizeCourseCode(Tables(t.aliases, t.crossListings[(Upper(dept), number) := Upper(canonical)]),
      Some(Upper(dept) + number)) == Upper(canonical)
  {
    NormalizePlain(Tables(t.aliases, t.crossListings[(Upper(dept), number) := Upper(canonical)]), Upper(dept), number);
  }

  // ---------------------------------------------------------------------------
  // The summariser object
  // ---------------------------------------------------------------------------

  /** `ReviewSummarizer` without its database session and model: the two mutable tables. */
  class ReviewSummarizer {
    var deptAliases: map<string, string>
    var crossListings: map<(string, string), string>

    constructor()
      ensures deptAliases == DeptAliases && crossListings == FallbackCrossListings
    {
      deptAliases := DeptAliases;
      crossListings := FallbackCrossListings;
    }

    function CurrentTables(): Tables
      reads this
    {
      Tables(deptAliases, crossListings)
    }

    /** `add_course_mapping`: both sides upper-cased. */
    method AddCourseMapping(fromDept: string, toDept: string)
      modifies this
      ensures deptAliases == old(deptAliases)[Upper(fromDept) := Upper(toDept)]
      ensures crossListings == old(crossListings)
    {
      deptAliases := deptAliases[Upper(fromDept) := Upper(toDept)];
    }

    /** `add_cross_listing`: the department and the canonical code upper-cased, the number as given. */
    method AddCrossListing(dept: string, number: string, canonical: string)
      modifies this
      ensures crossListings == old(crossListings)[(Upper(dept), number) := Upper(canonical)]
      ensures deptAliases == old(deptAliases)
    {
      crossListings := crossListings[(Upper(dept), number) := Upper(canonical)];
    }

    /** `group_reviews_by_course_number`: a partition of the reviews by their number key, in input order. */
    method GroupReviewsByCourseNumber(reviews: seq<ReviewData>, professorDept: string)
      returns (grouped: Groups<string, ReviewData>)
      ensures grouped == GroupBy(reviews, NumberKeyOf(CurrentTables(), professorDept))
      ensures forall k :: k in grouped.members <==> k in Keys(reviews, NumberKeyOf(CurrentTables(), professorDept))
      ensures forall k :: k in grouped.members ==>
        grouped.members[k] == WithKey(reviews, NumberKeyOf(CurrentTables(), professorDept), k)
    {
      grouped := GroupInOrder(reviews, NumberKeyOf(CurrentTables(), professorDept));
      GroupByPartition(reviews, NumberKeyOf(CurrentTables(), professorDept));
    }

    /** `_group_by_full_course_code`: a partition of the reviews by their normalised code, in input order. */
    method GroupByFullCourseCode(reviews: seq<ReviewData>) returns (grouped: Groups<string, ReviewData>)
      ensures grouped == GroupBy(reviews, CodeKeyOf(CurrentTables()))
      ensures forall k :: k in grouped.members <==> k in Keys(reviews, CodeKeyOf(CurrentTables()))
      ensures forall k :: k in grouped.members ==> grouped.members[k] == WithKey(reviews, CodeKeyOf(CurrentTables()), k)
    {
      grouped := GroupInOrder(reviews, CodeKeyOf(CurrentTables()));
      GroupByPartition(reviews, CodeKeyOf(CurrentTables()));
    }

    /** `group_reviews_by_normalized_course`: by number only when asked to and a department is given. */
    method GroupReviewsByNormalizedCourse(reviews: seq<ReviewData>, groupByNumberOnly: bool, professorDept: Option<string>)
      returns (grouped: Groups<string, ReviewData>)
      ensures groupByNumberOnly && Present(professorDept) ==>
        grouped == GroupBy(reviews, NumberKeyOf(CurrentTables(), professorDept.value))
      ensures !(groupByNumberOnly && Present(professorDept)) ==> grouped == GroupBy(reviews, CodeKeyOf(CurrentTables()))
      ensures WellFormed(grouped) && Sum(Sizes(grouped)) == |reviews|
    {
      if groupByNumberOnly && Present(professorDept) {
        grouped := GroupReviewsByCourseNumber(reviews, professorDept.value);
        GroupBySizes(reviews, NumberKeyOf(CurrentTables(), professorDept.value));
      } else {
        grouped := GroupByFullCourseCode(reviews);
        GroupBySizes(reviews, CodeKeyOf(CurrentTables()));
      }
    }

    /** `get_normalization_stats`. */
    method GetNormalizationStats(reviews: seq<ReviewData>) returns (stats: NormalizationStats)
      ensures var originals := OriginalCodes(reviews);
        var normalize := NormalizeWith(CurrentTables());
        var normalized := MapSeq(originals, normalize);
        stats.totalReviews == |originals| &&
        stats.uniqueOriginalCodes == |SetOf(originals)| &&
        stats.uniqueNormalizedCodes == |SetOf(normalized)| &&
        stats.coursesMerged == |SetOf(originals)| - |SetOf(normalized)| && stats.coursesMerged >= 0 &&
        (forall k :: k in stats.mergedCourseDetails <==> k in normalized && |OriginsOf(originals, normalize, k)| > 1) &&
        (forall k :: k in stats.mergedCourseDetails ==> stats.mergedCourseDetails[k] == OriginsOf(originals, normalize, k))
    {
      var originals := OriginalCodes(reviews);
      var normalize := NormalizeWith(CurrentTables());
      var normalized := MapSeq(originals, normalize);
      var uniqueOriginal := |SetOf(originals)|;
      var uniqueNormalized := |SetOf(normalized)|;
      MergedNonNegative(CurrentTables(), originals);
      var merged := MergeOrigins(originals, normalized, normalize);
      var details := map k | k in merged && |merged[k]| > 1 :: merged[k];
      stats := NormalizationStats(|originals|, uniqueOriginal, uniqueNormalized, uniqueOriginal - uniqueNormalized, details);
    }

    /**
     * `get_professor_primary_department`: "UNKN" when no review yields a
     * department, else the most frequent one, ties going to the first seen.
     */
    method PrimaryDepartment(reviews: seq<ReviewData>) returns (dept: string)
      ensures var ds := Depts(CurrentTables(), reviews);
        (ds == [] ==> dept == "UNKN") && (ds != [] ==> IsFirstMax(ds, dept))
    {
      var order, counts := CountDepartments(CurrentTables(), reviews);
      ghost var ds := Depts(CurrentTables(), reviews);
      DedupSpec(ds);
      if |order| == 0 {
        return "UNKN";
      }
      dept := MostCounted(ds, order, counts);
    }
  }

  /** The counting loop of `get_professor_primary_department`: the dictionary's keys in insertion order and its counts. */
  method CountDepartments(t: Tables, reviews: seq<ReviewData>) returns (order: seq<string>, counts: map<string, nat>)
    ensures order == Dedup(Depts(t, reviews))
    ensures forall d :: d in counts <==> d in Depts(t, reviews)
    ensures forall d :: d in counts ==> counts[d] == Occurrences(Depts(t, reviews), d)
  {
    counts := map[];
    order := [];
    ghost var ds: seq<string> := [];
    for i := 0 to |reviews|
      invariant ds == Depts(t, reviews[..i])
      invariant order == Dedup(ds)
      invariant forall d :: d in counts <==> d in ds
      invariant forall d :: d in counts ==> counts[d] == Occurrences(ds, d)
    {
      var d := DeptOf(t, reviews[i].courseCode);
      DeptsSnoc(t, reviews, i);
      if d.Some? {
        order, counts := CountOne(ds, order, counts, d.value);
        ds := ds + [d.value];
      }
    }
    assert reviews[..|reviews|] == reviews;
  }

  /** The departments of one more review: the department of that review, if it has one, is appended. */
  lemma DeptsSnoc(t: Tables, reviews: seq<ReviewData>, i: nat)
    requires i < |reviews|
    ensures var d := DeptOf(t, reviews[i].courseCode);
      Depts(t, reviews[..i + 1]) == Depts(t, reviews[..i]) + (if d.Some? then [d.value] else [])
  {
    assert reviews[..i + 1][..i] == reviews[..i];
  }

  /** One step of the counting loop: `dept_counts[dept] = dept_counts.get(dept, 0) + 1`. */
  method CountOne(ghost ds: seq<string>, order: seq<string>, counts: map<string, nat>, x: string)
    returns (order': seq<string>, counts': map<string, nat>)
    requires order == Dedup(ds)
    requires forall d :: d in counts <==> d in ds
    requires forall d :: d in counts ==> counts[d] == Occurrences(ds, d)
    ensures order' == Dedup(ds + [x])
    ensures forall d :: d in counts' <==> d in ds + [x]
    ensures forall d :: d in counts' ==> counts'[d] == Occurrences(ds + [x], d)
  {
    forall y ensures Occurrences(ds + [x], y) == Occurrences(ds, y) + (if x == y then 1 else 0) {
      OccurrencesSnoc(ds, x, y);
    }
    DedupSnoc(ds, x);
    DedupMembers(ds);
    if x in counts {
      counts' := counts[x := counts[x] + 1];
      order' := order;
    } else {
      OccurrencesPositive(ds, x);
      counts' := counts[x := 1];
      order' := order + [x];
    }
  }

  /** `max(keys, key=counts)`: the first key, in insertion order, with the highest count. */
  method MostCounted(ghost ds: seq<string>, order: seq<string>, counts: map<string, nat>) returns (dept: string)
    requires order == Dedup(ds) && |order| > 0
    requires forall d :: d in counts <==> d in ds
    requires forall d :: d in counts ==> counts[d] == Occurrences(ds, d)
    ensures IsFirstMax(ds, dept)
  {
    DedupMembers(ds);
    assert forall q :: 0 <= q < |order| ==> order[q] in counts;
    dept := order[0];
    ghost var p := 0;
    for j := 1 to |order|
      invariant p < j && dept == order[p]
      invariant forall q :: 0 <= q < j ==> counts[order[q]] <= counts[dept]
      invariant forall q :: 0 <= q < j && counts[order[q]] == counts[dept] ==> p <= q
    {
      if counts[order[j]] > counts[dept] {
        dept := order[j];
        p := j;
      }
    }
    FirstMaxOfOrder(ds, p);
  }
}
