// Course-code normalisation of the hierarchical summariser: merged numbers such
// as "221222" are split, department aliases are resolved, and cross-listed
// codes are mapped to one canonical code, either through the table loaded from
// the course catalogue or through a small built-in fallback table.
module CourseCodes {
  import opened Common

  /** Old and alternative department codes, and the code each stands for. */
  const DeptAliases: map<string, string> := map[
    "CPCS" := "CSCE", "CPSC" := "CSCE", "COSC" := "CSCE", "CS" := "CSCE",
    "ELEN" := "ECEN", "EE" := "ECEN", "ELEC" := "ECEN",
    "MATH" := "MATH", "MATHS" := "MATH",
    "ENGR" := "ENGR", "ENGI" := "ENGR",
    "PHYS" := "PHYS", "PHY" := "PHYS",
    "CHEM" := "CHEM", "CHM" := "CHEM",
    "MGMT" := "MGMT", "MKTG" := "MKTG", "FINC" := "FINC", "ACCT" := "ACCT",
    "ID" := "IDIS"]

  /** Cross-listings known without the catalogue, keyed by (department, number). */
  const FallbackCrossListings: map<(string, string), string> := map[
    ("CSCE", "222") := "CSCE222", ("ECEN", "222") := "CSCE222",
    ("CSCE", "314") := "CSCE314", ("ECEN", "314") := "CSCE314"]

  function ResolveDept(dept: string): string {
    if dept in DeptAliases then DeptAliases[dept] else dept
  }

  // ---------------------------------------------------------------------------
  // Splitting merged course numbers
  // ---------------------------------------------------------------------------

  /** A plausible course number: its integer value lies in 100..999. */
  predicate InCourseRange(d: string)
    requires AllDigits(d)
  {
    100 <= DigitsValue(d) <= 999
  }

  /** A 3-digit string is a plausible course number exactly when it does not start with '0'. */
  lemma ThreeDigitRange(d: string)
    requires |d| == 3 && AllDigits(d)
    ensures DigitsValue(d) == 100 * DigitValue(d[0]) + 10 * DigitValue(d[1]) + DigitValue(d[2])
    ensures InCourseRange(d) <==> d[0] != '0'
  {
    var d1, d2 := d[..1], d[..2];
    assert d2[..1] == d1 && d1[..0] == [] && d2[1] == d[1] && d1[0] == d[0];
    assert DigitsValue(d1) == DigitValue(d[0]);
    assert DigitsValue(d2) == 10 * DigitValue(d[0]) + DigitValue(d[1]);
    assert DigitsValue(d) == 10 * DigitsValue(d2) + DigitValue(d[2]);
  }

  /** The plausible numbers among the 3-digit chunks at offsets 0, 3, 6, ... */
  function Triples(d: string): (r: seq<string>)
    requires AllDigits(d)
    ensures forall k :: 0 <= k < |r| ==> |r[k]| == 3 && AllDigits(r[k]) && InCourseRange(r[k])
    decreases |d|
  {
    if |d| < 3 then []
    else (if InCourseRange(d[..3]) then [d[..3]] else []) + Triples(d[3..])
  }

  /** `_extract_course_numbers` once the non-digits are removed. */
  function NumbersOfDigits(d: string): (r: seq<string>)
    requires AllDigits(d)
    ensures r == [] <==> d == []
    ensures forall k :: 0 <= k < |r| ==> AllDigits(r[k]) && |r[k]| > 0
  {
    if d == [] then []
    else if |d| >= 6 && |Triples(d)| > 1 then Triples(d)
    else if (|d| == 4 || |d| == 5) && InCourseRange(d[..3]) then [d[..3]]
    else if |d| >= 3 && InCourseRange(d[..3]) then [d[..3]]
    else [d]
  }

  /** `_extract_course_numbers`: the course numbers hidden in a number string. */
  function CourseNumbers(s: string): seq<string> {
    NumbersOfDigits(DigitsOf(s))
  }

  /** The chunk loop of `_extract_course_numbers` (its 6-or-more-digit case). */
  method SplitTriples(d: string) returns (numbers: seq<string>)
    requires AllDigits(d)
    ensures numbers == Triples(d)
  {
    numbers := [];
    var i := 0;
    while i + 3 <= |d|
      invariant 0 <= i <= |d|
      invariant Triples(d) == numbers + Triples(d[i..])
    {
      assert d[i..][3..] == d[i + 3..];
      assert d[i..][..3] == d[i..i + 3];
      if InCourseRange(d[i..i + 3]) {
        numbers := numbers + [d[i..i + 3]];
      }
      i := i + 3;
    }
  }

  method ExtractCourseNumbers(s: string) returns (numbers: seq<string>)
    ensures numbers == CourseNumbers(s)
  {
    var d := DigitsOf(s);
    if d == [] {
      return [];
    }
    if |d| >= 6 {
      var chunks := SplitTriples(d);
      if |chunks| > 1 {
        return chunks;
      }
    }
    if (|d| == 4 || |d| == 5) && InCourseRange(d[..3]) {
      return [d[..3]];
    }
    if |d| >= 3 && InCourseRange(d[..3]) {
      return [d[..3]];
    }
    return [d];
  }

  /** No numbers come back exactly when the string holds no digit. */
  lemma NumbersNeedDigits(s: string)
    ensures CourseNumbers(s) == [] <==> forall i :: 0 <= i < |s| ==> !IsDigit(s[i])
  {
    DigitsOfEmpty(s);
  }

  /** One or two digits come back unchanged, as the only element. */
  lemma ShortNumbersKept(s: string)
    requires 0 < |DigitsOf(s)| < 3
    ensures CourseNumbers(s) == [DigitsOf(s)]
  {
  }

  /** When the first three digits are a plausible number, the result starts with them and holds only 3-digit numbers. */
  lemma LeadingNumberFirst(s: string)
    requires |DigitsOf(s)| >= 3 && InCourseRange(DigitsOf(s)[..3])
    ensures |CourseNumbers(s)| > 0 && CourseNumbers(s)[0] == DigitsOf(s)[..3]
    ensures forall k :: 0 <= k < |CourseNumbers(s)| ==> |CourseNumbers(s)[k]| == 3
  {
    var d := DigitsOf(s);
    if |d| >= 6 && |Triples(d)| > 1 {
      assert Triples(d) == [d[..3]] + Triples(d[3..]);
    }
  }

  /** "221222" holds two course numbers. */
  lemma MergedNumbersSplit()
    ensures CourseNumbers("221222") == ["221", "222"]
  {
    var d := "221222";
    DigitsOfDigits(d);
    assert DigitsValue("22") == 22 by {
      assert "22"[..1] == "2";
      assert DigitsValue("2") == 2 by { assert "2"[..0] == []; }
    }
    assert DigitsValue("221") == 221 by { assert "221"[..2] == "22"; }
    assert DigitsValue("222") == 222 by {
      assert "222"[..2] == "22";
    }
    assert d[3..] == "222" && d[..3] == "221";
    assert Triples(d) == ["221"] + Triples("222");
    assert "222"[..3] == "222" && "222"[3..] == [];
  }

  // ---------------------------------------------------------------------------
  // Whole course codes
  // ---------------------------------------------------------------------------

  /** The input upper-cased, stripped, without punctuation, with single spaces. */
  function CleanCode(code: string): string {
    Strip(CollapseSpaces(Filter(Upper(Strip(code)), (c: char) => IsWordChar(c) || IsSpace(c))))
  }

  /** A cleaned code has no surrounding whitespace and no two whitespace characters in a row. */
  lemma CleanCodeShape(code: string)
    ensures var r := CleanCode(code);
      (r == [] || (!IsSpace(r[0]) && !IsSpace(r[|r| - 1]))) &&
      SingleSpaced(r)
  {
    var kept := Filter(Upper(Strip(code)), (c: char) => IsWordChar(c) || IsSpace(c));
    var collapsed := CollapseSpaces(kept);
    StripTrimmed(collapsed);
    StripSingleSpaced(collapsed);
  }

  /** A match of `([A-Z]+)\s*(\d+)` at the start of a string: its two groups and the spaces between them. */
  datatype CodeMatch = CodeMatch(dept: string, spaces: nat, number: string)

  /**
   * `m` is a match of the pattern at the start of `s`: upper-case letters,
   * whitespace, then digits not followed by another digit.
   */
  predicate Matches(s: string, m: CodeMatch) {
    var at := |m.dept| + m.spaces;
    m.dept != [] && AllUpper(m.dept) && m.number != [] && AllDigits(m.number) &&
    at + |m.number| <= |s| && s[..|m.dept|] == m.dept && s[at..at + |m.number|] == m.number &&
    (forall i :: |m.dept| <= i < at ==> IsSpace(s[i])) &&
    (at + |m.number| < |s| ==> !IsDigit(s[at + |m.number|]))
  }

  /** `re.match(r"([A-Z]+)\s*(\d+)", s)`: both runs are maximal, as the greedy pattern takes them. */
  function MatchDeptNumber(s: string): (r: Option<CodeMatch>)
    ensures r.Some? ==> Matches(s, r.value)
    ensures r.None? ==> (SpanLen(s, IsUpper) == 0 ||
      SpanLen(s[SpanLen(s, IsUpper)..][SpanLen(s[SpanLen(s, IsUpper)..], IsSpace)..], IsDigit) == 0)
  {
    var n := SpanLen(s, IsUpper);
    var afterDept := s[n..];
    var gap := SpanLen(afterDept, IsSpace);
    var rest := afterDept[gap..];
    var m := SpanLen(rest, IsDigit);
    if n == 0 || m == 0 then None
    else
      MatchFound(s, n, gap, m);
      Some(CodeMatch(s[..n], gap, rest[..m]))
  }

  /** The three maximal runs found make a match of the pattern. */
  lemma MatchFound(s: string, n: nat, gap: nat, m: nat)
    requires n == SpanLen(s, IsUpper) && gap == SpanLen(s[n..], IsSpace) && m == SpanLen(s[n..][gap..], IsDigit)
    requires n > 0 && m > 0
    ensures Matches(s, CodeMatch(s[..n], gap, s[n..][gap..][..m]))
  {
    UpperRun(s, n);
    DigitRun(s[n..][gap..], m);
    GapRun(s, n, gap);
    NumberSlice(s, n, gap, m);
  }

  /** The run of digits read off the remainder is the same stretch of `s`. */
  lemma NumberSlice(s: string, n: nat, gap: nat, m: nat)
    requires n + gap <= |s| && m == SpanLen(s[n..][gap..], IsDigit)
    ensures n + gap + m <= |s| && s[n + gap..n + gap + m] == s[n..][gap..][..m]
    ensures n + gap + m < |s| ==> !IsDigit(s[n + gap + m])
  {
    var rest := s[n..][gap..];
    assert rest == s[n + gap..];
    if n + gap + m < |s| {
      assert s[n + gap + m] == rest[m];
    }
  }

  lemma UpperRun(s: string, n: nat)
    requires n == SpanLen(s, IsUpper)
    ensures AllUpper(s[..n])
  {
    forall i | 0 <= i < n ensures IsUpper(s[..n][i]) {
      assert IsUpper(s[i]);
    }
  }

  lemma DigitRun(rest: string, m: nat)
    requires m == SpanLen(rest, IsDigit)
    ensures AllDigits(rest[..m])
  {
    forall i | 0 <= i < m ensures IsDigit(rest[..m][i]) {
      assert IsDigit(rest[i]);
    }
  }

  lemma GapRun(s: string, n: nat, gap: nat)
    requires n <= |s| && gap == SpanLen(s[n..], IsSpace)
    ensures n + gap <= |s| && forall i :: n <= i < n + gap ==> IsSpace(s[i])
  {
    var a := s[n..];
    forall i | n <= i < n + gap ensures IsSpace(s[i]) {
      assert IsSpace(a[i - n]);
    }
  }

  /** The codes of a cleaned string. */
  function CodesOfClean(cleaned: string): (r: seq<string>)
    ensures r == [] <==> MatchDeptNumber(cleaned).None?
    ensures r != [] ==> (var m := MatchDeptNumber(cleaned).value;
      |r| == |CourseNumbers(m.number)| &&
      forall k :: 0 <= k < |r| ==> r[k] == ResolveDept(m.dept) + CourseNumbers(m.number)[k])
  {
    match MatchDeptNumber(cleaned)
    case None => []
    case Some(m) =>
      var nums := CourseNumbers(m.number);
      DigitsOfDigits(m.number);
      seq(|nums|, k requires 0 <= k < |nums| => ResolveDept(m.dept) + nums[k])
  }

  /** `extract_all_course_codes`: the alias-resolved department joined to each course number. */
  function ExtractAllCourseCodes(code: string): (r: seq<string>)
    ensures code == [] ==> r == []
  {
    if code == [] then [] else CodesOfClean(CleanCode(code))
  }

  /** A code made of capitals and digits only is already clean. */
  lemma CleanCodeUnchanged(s: string)
    requires forall i :: 0 <= i < |s| ==> IsUpper(s[i]) || IsDigit(s[i])
    ensures CleanCode(s) == s
  {
    var keep := (c: char) => IsWordChar(c) || IsSpace(c);
    assert Strip(s) == s by { StripUnchanged(s); }
    assert Upper(s) == s by { UpperUnchanged(s); }
    assert Filter(s, keep) == s by { FilterAll(s, keep); }
    assert CollapseSpaces(s) == s by { CollapseNoSpace(s); }
  }

  /** A department written in capitals directly followed by its digits matches as exactly those two parts. */
  lemma PlainCodeMatched(dept: string, number: string)
    requires dept != [] && AllUpper(dept) && number != [] && AllDigits(number)
    ensures MatchDeptNumber(dept + number) == Some(CodeMatch(dept, 0, number))
  {
    var s := dept + number;
    SpanLenExact(s, IsUpper, |dept|);
    assert s[|dept|..] == number && s[..|dept|] == dept;
    assert number[0..] == number;
    SpanLenExact(number, IsSpace, 0);
    SpanLenExact(number, IsDigit, |number|);
    assert number[..|number|] == number;
  }

  /** Such a code yields the resolved department joined to each of its course numbers. */
  lemma PlainCodeParsed(dept: string, number: string)
    requires dept != [] && AllUpper(dept) && number != [] && AllDigits(number)
    ensures ExtractAllCourseCodes(dept + number) == CodesOfClean(dept + number)
    ensures MatchDeptNumber(dept + number) == Some(CodeMatch(dept, 0, number))
  {
    var s := dept + number;
    assert CleanCode(s) == s by {
      forall i | 0 <= i < |s| ensures IsUpper(s[i]) || IsDigit(s[i]) {
        if i < |dept| { assert s[i] == dept[i]; } else { assert s[i] == number[i - |dept|]; }
      }
      CleanCodeUnchanged(s);
    }
    PlainCodeMatched(dept, number);
  }

  /** A three-digit number that is a plausible course number is its own only course number. */
  lemma ThreeDigitNumberKept(number: string)
    requires |number| == 3 && AllDigits(number) && number[0] != '0'
    ensures CourseNumbers(number) == [number]
  {
    DigitsOfDigits(number);
    ThreeDigitRange(number);
    assert number[..3] == number;
  }

  /** A match with a single course number gives a single code. */
  lemma SingleNumberCodes(cleaned: string, m: CodeMatch)
    requires MatchDeptNumber(cleaned) == Some(m) && CourseNumbers(m.number) == [m.number]
    ensures CodesOfClean(cleaned) == [ResolveDept(m.dept) + m.number]
  {
    var r := CodesOfClean(cleaned);
    assert |r| == 1 && r[0] == ResolveDept(m.dept) + m.number;
    assert r == [r[0]];
  }

  /**
   * A department followed by one plausible three-digit number gives exactly
   * one code, under the department its alias stands for ("CPSC221" becomes
   * "CSCE221").
   */
  lemma SingleCodeResolved(dept: string, number: string)
    requires dept != [] && AllUpper(dept)
    requires |number| == 3 && AllDigits(number) && number[0] != '0'
    ensures ExtractAllCourseCodes(dept + number) == [ResolveDept(dept) + number]
  {
    PlainCodeParsed(dept, number);
    ThreeDigitNumberKept(number);
    SingleNumberCodes(dept + number, CodeMatch(dept, 0, number));
  }

  /** `_normalize_code_string`: the first extracted code, if any. */
  function NormalizeCodeString(code: string): Option<string> {
    var codes := ExtractAllCourseCodes(code);
    if codes == [] then None else Some(codes[0])
  }

  // ---------------------------------------------------------------------------
  // Canonical codes
  // ---------------------------------------------------------------------------

  /** Python truthiness of an optional string. */
  predicate Present(o: Option<string>) { o.Some? && o.value != "" }

  /** `^\d+[A-Z]*$`: a number with an optional letter suffix and no department. */
  predicate IsBareNumber(s: string) {
    var n := SpanLen(s, IsDigit);
    n > 0 && AllUpper(s[n..])
  }

  /**
   * `_infer_department_for_course_number` without a database: the professor's
   * department, upper-cased and stripped, when it is a run of letters.
   */
  function InferDept(professorDept: Option<string>): (r: Option<string>)
    ensures r.Some? ==> r.value != [] && AllUpper(r.value)
    ensures r.Some? <==> (Present(professorDept) && Upper(Strip(professorDept.value)) != [] &&
      AllUpper(Upper(Strip(professorDept.value))))
  {
    if Present(professorDept) then
      var d := Upper(Strip(professorDept.value));
      if d != [] && AllUpper(d) then Some(d) else None
    else None
  }

  /** The code with the inferred department put in front of a bare number. */
  function WithInferredDept(code: string, professorId: Option<string>, professorDept: Option<string>): string {
    var stripped := Upper(Strip(code));
    if IsBareNumber(stripped) && (Present(professorId) || Present(professorDept)) && InferDept(professorDept).Some? then
      InferDept(professorDept).value + stripped
    else code
  }

  /** `re.match(r"([A-Z]+)(\d+)", s)`: department letters directly followed by digits. */
  function SplitCode(s: string): (r: Option<(string, string)>)
    ensures r.Some? ==> (|r.value.0| + |r.value.1| <= |s| && s[..|r.value.0| + |r.value.1|] == r.value.0 + r.value.1 &&
      r.value.0 != [] && AllUpper(r.value.0) && r.value.1 != [] && AllDigits(r.value.1))
  {
    var n := SpanLen(s, IsUpper);
    var m := SpanLen(s[n..], IsDigit);
    if n == 0 || m == 0 then None
    else
      PrefixSplit(s, n, m);
      Some((s[..n], s[n..][..m]))
  }

  /** The first `n + m` characters are the first `n` followed by the next `m`. */
  lemma PrefixSplit(s: string, n: nat, m: nat)
    requires n + m <= |s|
    ensures s[..n + m] == s[..n] + s[n..][..m]
  {
    assert s[n..][..m] == s[n..n + m];
    assert s[..n + m] == s[..n] + s[n..n + m];
  }

  /** The canonical form of one extracted code: the loaded table first, then the fallback table. */
  function Canonical(crossListings: map<string, string>, code: string): (r: string)
    ensures code in crossListings ==> r == crossListings[code]
    ensures code !in crossListings && SplitCode(code).Some? && SplitCode(code).value in FallbackCrossListings ==>
      r == FallbackCrossListings[SplitCode(code).value]
    ensures code !in crossListings && (SplitCode(code).None? || SplitCode(code).value !in FallbackCrossListings) ==>
      r == code
  {
    if code in crossListings then crossListings[code]
    else match SplitCode(code)
      case Some(key) => if key in FallbackCrossListings then FallbackCrossListings[key] else code
      case None => code
  }

  /** The cross-listing loop: each code's canonical form, added unless already present. */
  function CanonicalCodes(crossListings: map<string, string>, codes: seq<string>): (r: seq<string>)
    ensures NoDuplicates(r)
    ensures |codes| > 0 ==> |r| > 0
    ensures forall x :: x in r <==> exists n :: n in codes && x == Canonical(crossListings, n)
  {
    if |codes| == 0 then []
    else
      var prev := CanonicalCodes(crossListings, codes[..|codes| - 1]);
      var c := Canonical(crossListings, codes[|codes| - 1]);
      assert forall n :: n in codes <==> n in codes[..|codes| - 1] || n == codes[|codes| - 1] by {
        assert codes == codes[..|codes| - 1] + [codes[|codes| - 1]];
      }
      if c in prev then prev else prev + [c]
  }

  /** `normalize_course_codes`: the distinct canonical codes, in the order first produced. */
  function NormalizedCodes(crossListings: map<string, string>, code: Option<string>,
    professorId: Option<string>, professorDept: Option<string>): (r: seq<string>)
    ensures |r| > 0 && NoDuplicates(r)
    ensures !Present(code) ==> r == ["UNKNOWN"]
  {
    if !Present(code) then ["UNKNOWN"]
    else
      var c := WithInferredDept(code.value, professorId, professorDept);
      var codes := ExtractAllCourseCodes(c);
      if codes == [] then [Upper(Strip(c))]
      else CanonicalCodes(crossListings, codes)
  }

  /** `normalize_course_code`: the first of them. */
  function NormalizedCode(crossListings: map<string, string>, code: Option<string>): string {
    NormalizedCodes(crossListings, code, None, None)[0]
  }

  /** Department letters directly followed by an all-digit number split into exactly those two parts. */
  lemma {:induction false} SplitPlainCode(dept: string, number: string)
    requires dept != [] && AllUpper(dept) && number != [] && AllDigits(number)
    ensures SplitCode(dept + number) == Some((dept, number))
  {
    var s := dept + number;
    SpanLenExact(s, IsUpper, |dept|);
    assert s[|dept|..] == number;
    SpanLenExact(number, IsDigit, |number|);
    assert s[..|dept|] == dept && number[..|number|] == number;
  }

  lemma CrossListedPair(crossListings: map<string, string>, code: string, dept: string, number: string)
    requires code == dept + number && code !in crossListings
    requires dept != [] && AllUpper(dept) && number != [] && AllDigits(number)
    requires (dept, number) in FallbackCrossListings
    ensures Canonical(crossListings, code) == FallbackCrossListings[(dept, number)]
  {
    SplitPlainCode(dept, number);
  }

  lemma EcenFallback(crossListings: map<string, string>, code: string, dept: string, number: string)
    requires dept == "ECEN" && number == "222" && code == dept + number && code !in crossListings
    ensures Canonical(crossListings, code) == "CSCE222"
  {
    CrossListedPair(crossListings, code, dept, number);
  }

  lemma CsceFallback(crossListings: map<string, string>, code: string, dept: string, number: string)
    requires dept == "CSCE" && number == "222" && code == dept + number && code !in crossListings
    ensures Canonical(crossListings, code) == "CSCE222"
  {
    CrossListedPair(crossListings, code, dept, number);
  }

  /** ECEN 222 and CSCE 222 are the same course: both normalise to CSCE222 when the catalogue says nothing about them. */
  lemma DiscreteStructuresCrossListed(crossListings: map<string, string>, ecen: string, csce: string)
    requires ecen == "ECEN222" && csce == "CSCE222"
    requires ecen !in crossListings && csce !in crossListings
    ensures Canonical(crossListings, ecen) == csce
    ensures Canonical(crossListings, csce) == csce
  {
    EcenFallback(crossListings, ecen, "ECEN", "222");
    CsceFallback(crossListings, csce, "CSCE", "222");
  }

  /** A bare number taught by a professor of a lettered department gets that department: ("202", "ECON") gives "ECON202". */
  lemma BareNumberGetsDept(code: string, dept: string)
    requires code == "202" && dept == "ECON"
    ensures WithInferredDept(code, None, Some(dept)) == "ECON202"
  {
    StripUnchanged(code);
    UpperUnchanged(code);
    StripUnchanged(dept);
    UpperUnchanged(dept);
    SpanLenExact(code, IsDigit, 3);
    assert code[3..] == [];
  }

  // ---------------------------------------------------------------------------
  // Loading the cross-listing table
  // ---------------------------------------------------------------------------

  /** A catalogue row: the course's own code and the raw codes it is cross-listed with. */
  datatype CrossListingRow = CrossListingRow(canonical: string, crossListings: seq<string>)

  /** The normalised forms of raw codes, those without one dropped. */
  function NormalizedCross(codes: seq<string>): seq<string> {
    KeptValues(codes, NormalizeCodeString)
  }

  /** The values `f` gives the elements, in order, the elements it gives none dropped. */
  function KeptValues(xs: seq<string>, f: string -> Option<string>): seq<string> {
    if |xs| == 0 then []
    else
      var last := f(xs[|xs| - 1]);
      KeptValues(xs[..|xs| - 1], f) + (if last.Some? then [last.value] else [])
  }

  /** The groups of the first loop: keys in first-seen order, each group starting with its key. */
  function BuildGroups(rows: seq<CrossListingRow>): (r: (seq<string>, map<string, seq<string>>))
    ensures forall k :: k in r.0 <==> k in r.1
    ensures forall k :: k in r.1 ==> |r.1[k]| > 0 && r.1[k][0] == k
  {
    if |rows| == 0 then ([], map[])
    else AddRow(BuildGroups(rows[..|rows| - 1]), rows[|rows| - 1])
  }

  /** One row joins the group of its canonical code, which starts with that code. */
  function AddRow(prev: (seq<string>, map<string, seq<string>>), row: CrossListingRow): (r: (seq<string>, map<string, seq<string>>))
    requires forall k :: k in prev.0 <==> k in prev.1
    requires forall k :: k in prev.1 ==> |prev.1[k]| > 0 && prev.1[k][0] == k
    ensures forall k :: k in r.0 <==> k in r.1
    ensures forall k :: k in r.1 ==> |r.1[k]| > 0 && r.1[k][0] == k
  {
    var keys := if row.canonical in prev.1 then prev.0 else prev.0 + [row.canonical];
    var base := if row.canonical in prev.1 then prev.1[row.canonical] else [row.canonical];
    (keys, prev.1[row.canonical := base + NormalizedCross(row.crossListings)])
  }

  /** Every code of a list mapped to one value. */
  function ConstMap(codes: seq<string>, v: string): (r: map<string, string>)
    ensures forall c :: c in r <==> c in codes
    ensures forall c :: c in r ==> r[c] == v
  {
    map c | c in codes :: v
  }

  lemma ConstMapSnoc(m: map<string, string>, codes: seq<string>, c: string, v: string)
    ensures m + ConstMap(codes + [c], v) == (m + ConstMap(codes, v))[c := v]
  {
  }

  /** Every code of a group mapped to the group's least code. */
  function GroupMapping(group: seq<string>): map<string, string>
    requires |group| > 0
  {
    ConstMap(group, MinOf(group))
  }

  /** The second loop: the groups applied in key order, a later group overriding an earlier one. */
  function ApplyGroups(m: map<string, string>, keys: seq<string>, groups: map<string, seq<string>>): map<string, string>
    requires forall k :: k in keys ==> k in groups && |groups[k]| > 0
  {
    if |keys| == 0 then m
    else ApplyGroups(m, keys[..|keys| - 1], groups) + GroupMapping(groups[keys[|keys| - 1]])
  }

  /** The third loop: every catalogue course not yet mapped maps to itself. */
  function MapToSelf(m: map<string, string>, courses: seq<string>): map<string, string> {
    if |courses| == 0 then m
    else
      var prev := MapToSelf(m, courses[..|courses| - 1]);
      var c := courses[|courses| - 1];
      if c in prev then prev else prev[c := c]
  }

  /** The table after `_load_cross_listings_from_db`. */
  function Loaded(m: map<string, string>, rows: seq<CrossListingRow>, courses: seq<string>): map<string, string> {
    var g := BuildGroups(rows);
    MapToSelf(ApplyGroups(m, g.0, g.1), courses)
  }

  /** Every code maps to one that sorts no later than itself. */
  predicate MapsDown(m: map<string, string>) {
    forall c :: c in m ==> LexLe(m[c], c)
  }

  lemma {:induction false} ApplyGroupsMapsDown(m: map<string, string>, keys: seq<string>, groups: map<string, seq<string>>)
    requires forall k :: k in keys ==> k in groups && |groups[k]| > 0
    requires MapsDown(m)
    ensures MapsDown(ApplyGroups(m, keys, groups))
    ensures forall c :: c in m ==> c in ApplyGroups(m, keys, groups)
    ensures forall k, c :: k in keys && c in groups[k] ==> c in ApplyGroups(m, keys, groups)
  {
    if |keys| > 0 {
      ApplyGroupsMapsDown(m, keys[..|keys| - 1], groups);
    }
  }

  lemma {:induction false} MapToSelfMapsDown(m: map<string, string>, courses: seq<string>)
    requires MapsDown(m)
    ensures MapsDown(MapToSelf(m, courses))
    ensures forall c :: c in m ==> c in MapToSelf(m, courses) && MapToSelf(m, courses)[c] == m[c]
    ensures forall c :: c in courses ==> c in MapToSelf(m, courses)
  {
    if |courses| > 0 {
      MapToSelfMapsDown(m, courses[..|courses| - 1]);
      LexLeRefl(courses[|courses| - 1]);
    }
  }

  /**
   * After loading, every entry maps a code to the least code of a group it is
   * in, or to itself, so never to a code that sorts after it; every code of
   * every group and every catalogue course has an entry.
   */
  lemma LoadedMapsDown(rows: seq<CrossListingRow>, courses: seq<string>)
    ensures MapsDown(Loaded(map[], rows, courses))
    ensures forall c :: c in courses ==> c in Loaded(map[], rows, courses)
    ensures forall r :: r in rows ==> r.canonical in Loaded(map[], rows, courses)
  {
    var g := BuildGroups(rows);
    ApplyGroupsMapsDown(map[], g.0, g.1);
    var applied := ApplyGroups(map[], g.0, g.1);
    MapToSelfMapsDown(applied, courses);
    forall r | r in rows ensures r.canonical in g.1 && r.canonical in g.1[r.canonical] {
      GroupKeyPresent(rows, r);
    }
  }

  lemma {:induction false} GroupKeyPresent(rows: seq<CrossListingRow>, r: CrossListingRow)
    requires r in rows
    ensures r.canonical in BuildGroups(rows).1
    ensures r.canonical in BuildGroups(rows).1[r.canonical]
  {
    var p := rows[..|rows| - 1];
    if r != rows[|rows| - 1] {
      assert r in p;
      GroupKeyPresent(p, r);
    }
  }

  // ---------------------------------------------------------------------------
  // The normaliser object
  // ---------------------------------------------------------------------------

  /** The grouping key of `group_reviews_by_normalized_course`. */
  function ReviewKey<R>(crossListings: map<string, string>, codeOf: R -> Option<string>): R -> string {
    (r: R) => NormalizedCode(crossListings, codeOf(r))
  }

  /** The normalised forms of a row's raw cross-listed codes, appended to its group. */
  method AppendNormalized(group: seq<string>, codes: seq<string>) returns (r: seq<string>)
    ensures r == group + NormalizedCross(codes)
  {
    r := group;
    var j := 0;
    while j < |codes|
      invariant 0 <= j <= |codes|
      invariant r == group + NormalizedCross(codes[..j])
    {
      assert codes[..j + 1][..j] == codes[..j];
      var normalized := NormalizeCodeString(codes[j]);
      if normalized.Some? {
        r := r + [normalized.value];
      }
      j := j + 1;
    }
    assert codes[..j] == codes;
  }

  /** The body of the first loop, for one row. */
  method GroupRow(keys0: seq<string>, groups0: map<string, seq<string>>, row: CrossListingRow)
    returns (keys: seq<string>, groups: map<string, seq<string>>)
    requires forall k :: k in keys0 <==> k in groups0
    requires forall k :: k in groups0 ==> |groups0[k]| > 0 && groups0[k][0] == k
    ensures (keys, groups) == AddRow((keys0, groups0), row)
  {
    keys := keys0;
    var base := if row.canonical in groups0 then groups0[row.canonical] else [row.canonical];
    if row.canonical !in groups0 {
      keys := keys + [row.canonical];
    }
    var group := AppendNormalized(base, row.crossListings);
    groups := groups0[row.canonical := group];
  }

  /** The first loop of `_load_cross_listings_from_db`: the groups keyed by canonical code, in first-seen order. */
  method GroupRows(rows: seq<CrossListingRow>) returns (keys: seq<string>, groups: map<string, seq<string>>)
    ensures (keys, groups) == BuildGroups(rows)
  {
    keys, groups := [], map[];
    var i := 0;
    while i < |rows|
      invariant 0 <= i <= |rows|
      invariant (keys, groups) == BuildGroups(rows[..i])
    {
      assert rows[..i + 1][..i] == rows[..i];
      keys, groups := GroupRow(keys, groups, rows[i]);
      i := i + 1;
    }
    assert rows[..i] == rows;
  }

  class CourseNormalizer {
    /** Maps a normalised code such as "ECEN222" to its canonical code. */
    var crossListings: map<string, string>

    /** A normaliser without a catalogue session: the loaded table starts empty. */
    constructor()
      ensures crossListings == map[]
    {
      crossListings := map[];
    }

    /** `_load_cross_listings_from_db` over the rows of its two queries. */
    method LoadCrossListings(rows: seq<CrossListingRow>, courses: seq<string>)
      modifies this
      ensures crossListings == Loaded(old(crossListings), rows, courses)
    {
      var keys, groups := GroupRows(rows);
      ApplyGroupMappings(keys, groups);
      MapCoursesToSelf(courses);
    }

    /** The second loop: each group's codes mapped to the group's least code. */
    method ApplyGroupMappings(keys: seq<string>, groups: map<string, seq<string>>)
      requires forall k :: k in keys ==> k in groups && |groups[k]| > 0
      modifies this
      ensures crossListings == ApplyGroups(old(crossListings), keys, groups)
    {
      var n := 0;
      while n < |keys|
        invariant 0 <= n <= |keys|
        invariant crossListings == ApplyGroups(old(crossListings), keys[..n], groups)
      {
        MapGroup(groups[keys[n]]);
        assert keys[..n + 1][..n] == keys[..n];
        n := n + 1;
      }
      assert keys[..n] == keys;
    }

    /** The inner loop: every code of one group mapped to the group's least code. */
    method MapGroup(group: seq<string>)
      requires |group| > 0
      modifies this
      ensures crossListings == old(crossListings) + GroupMapping(group)
    {
      var canonical := MinOf(group);
      var j := 0;
      while j < |group|
        invariant 0 <= j <= |group|
        invariant crossListings == old(crossListings) + ConstMap(group[..j], canonical)
      {
        ConstMapSnoc(old(crossListings), group[..j], group[j], canonical);
        assert group[..j + 1] == group[..j] + [group[j]];
        crossListings := crossListings[group[j] := canonical];
        j := j + 1;
      }
      assert group[..j] == group;
    }

    /** The third loop: catalogue courses not yet in the table map to themselves. */
    method MapCoursesToSelf(courses: seq<string>)
      modifies this
      ensures crossListings == MapToSelf(old(crossListings), courses)
    {
      var k := 0;
      while k < |courses|
        invariant 0 <= k <= |courses|
        invariant crossListings == MapToSelf(old(crossListings), courses[..k])
      {
        assert courses[..k + 1][..k] == courses[..k];
        if courses[k] !in crossListings {
          crossListings := crossListings[courses[k] := courses[k]];
        }
        k := k + 1;
      }
      assert courses[..k] == courses;
    }

    /** `normalize_course_codes`. */
    method NormalizeCourseCodes(code: Option<string>, professorId: Option<string>, professorDept: Option<string>)
      returns (canonicalCodes: seq<string>)
      ensures canonicalCodes == NormalizedCodes(crossListings, code, professorId, professorDept)
    {
      if !Present(code) {
        return ["UNKNOWN"];
      }
      var c := WithInferredDept(code.value, professorId, professorDept);
      var codes := ExtractAllCourseCodes(c);
      if codes == [] {
        return [Upper(Strip(c))];
      }
      canonicalCodes := Canonicalize(codes);
    }

    /** The cross-listing loop of `normalize_course_codes`. */
    method Canonicalize(codes: seq<string>) returns (canonicalCodes: seq<string>)
      ensures canonicalCodes == CanonicalCodes(crossListings, codes)
    {
      canonicalCodes := [];
      var i := 0;
      while i < |codes|
        invariant 0 <= i <= |codes|
        invariant canonicalCodes == CanonicalCodes(crossListings, codes[..i])
      {
        assert codes[..i + 1][..i] == codes[..i];
        var normalized := codes[i];
        var canonical: string;
        if normalized in crossListings {
          canonical := crossListings[normalized];
        } else {
          var split := SplitCode(normalized);
          if split.Some? && split.value in FallbackCrossListings {
            canonical := FallbackCrossListings[split.value];
          } else {
            canonical := normalized;
          }
        }
        if canonical !in canonicalCodes {
          canonicalCodes := canonicalCodes + [canonical];
        }
        i := i + 1;
      }
      assert codes[..i] == codes;
    }

    /** `normalize_course_code`: the first canonical code. */
    method NormalizeCourseCode(code: Option<string>, professorId: Option<string>, professorDept: Option<string>)
      returns (normalized: string)
      ensures normalized == NormalizedCodes(crossListings, code, professorId, professorDept)[0]
      ensures !Present(code) ==> normalized == "UNKNOWN"
    {
      var codes := NormalizeCourseCodes(code, professorId, professorDept);
      normalized := codes[0];
    }

    /**
     * `group_reviews_by_normalized_course`: every review lands in exactly one
     * group, keyed by its normalised code, and each group keeps input order.
     */
    method GroupReviews<R>(reviews: seq<R>, codeOf: R -> Option<string>) returns (grouped: Groups<string, R>)
      ensures grouped == GroupBy(reviews, ReviewKey(crossListings, codeOf))
      ensures forall k :: k in grouped.members <==> k in Keys(reviews, ReviewKey(crossListings, codeOf))
      ensures forall k :: k in grouped.members ==> grouped.members[k] == WithKey(reviews, ReviewKey(crossListings, codeOf), k)
    {
      grouped := GroupInOrder(reviews, ReviewKey(crossListings, codeOf));
      GroupByPartition(reviews, ReviewKey(crossListings, codeOf));
    }
  }
}
