// The database summary service of the professors pipeline. Its course-code
// normaliser, groupings, primary department and tag aggregation are the same
// code as the first-generation summariser and are modelled once, in
// LegacySummarizer; this module adds what is its own: the worked normalisation
// samples, the text prepared for the summariser and the dispatch on its form,
// the candidate key sentences, the hybrid extractive-then-abstractive summary,
// the stored records with their ids, and the minimum group size.
module SummaryDb {
  import opened Common
  import opened CourseCodes
  import opened LegacySummarizer
  import Summarizer

  // ---------------------------------------------------------------------------
  // Cleaning codes of one of three shapes: "DEPT123", "DEPT 123", "DEPT-123"
  // ---------------------------------------------------------------------------

  /** Capitals and digits are kept by the punctuation filter and hold no space and no lower-case letter. */
  lemma CodeCharsFacts(s: string)
    requires CodeChars(s)
    ensures NoSpace(s) && Filter(s, (c: char) => IsWordChar(c) || IsSpace(c)) == s && Upper(s) == s
  {
    FilterAll(s, (c: char) => IsWordChar(c) || IsSpace(c));
    UpperUnchanged(s);
  }

  /** A number as `\d+[A-Z]*` matches it is made of digits and capitals. */
  lemma BareNumberChars(b: string)
    requires IsBareNumber(b)
    ensures CodeChars(b)
  {
    var n := SpanLen(b, IsDigit);
    forall i | 0 <= i < |b| ensures IsUpper(b[i]) || IsDigit(b[i]) {
      if i >= n { assert b[i] == b[n..][i - n]; }
    }
  }

  /** Cleaning, one step at a time: strip, upper-case, drop punctuation, collapse spaces, strip. */
  lemma CleanSteps(s: string, f: string)
    requires Strip(s) == s && Upper(s) == s && Filter(s, (c: char) => IsWordChar(c) || IsSpace(c)) == f
    requires CollapseSpaces(f) == f && Strip(f) == f
    ensures CleanCode(s) == f
  {
  }

  /** Code parts around a middle without lower-case letters: nothing to strip and nothing to upper-case. */
  lemma Surrounded(a: string, m: string, b: string)
    requires a != [] && b != [] && CodeChars(a) && CodeChars(b) && forall i :: 0 <= i < |m| ==> !IsLower(m[i])
    ensures Strip(a + m + b) == a + m + b && Upper(a + m + b) == a + m + b
  {
    var s := a + m + b;
    assert s[0] == a[0] && s[|s| - 1] == b[|b| - 1];
    StripUnchanged(s);
    forall i | 0 <= i < |s| ensures !IsLower(s[i]) {
      if i < |a| { assert s[i] == a[i]; }
      else if i < |a| + |m| { assert s[i] == m[i - |a|]; }
      else { assert s[i] == b[i - |a| - |m|]; }
    }
    UpperUnchanged(s);
  }

  /** Two code parts side by side form a code with nothing to strip. */
  lemma CodeCharsAppend(a: string, b: string)
    requires a != [] && b != [] && CodeChars(a) && CodeChars(b)
    ensures CodeChars(a + b) && Strip(a + b) == a + b
  {
    forall i | 0 <= i < |a + b| ensures IsUpper((a + b)[i]) || IsDigit((a + b)[i]) {
      if i >= |a| { assert (a + b)[i] == b[i - |a|]; }
    }
    assert (a + b)[0] == a[0] && (a + b)[|a + b| - 1] == b[|b| - 1];
    StripUnchanged(a + b);
  }

  /** The punctuation filter drops a mark between two code parts. */
  lemma FilterDrop(a: string, c: char, b: string)
    requires CodeChars(a) && CodeChars(b) && !IsWordChar(c) && !IsSpace(c)
    ensures Filter(a + [c] + b, (c: char) => IsWordChar(c) || IsSpace(c)) == a + b
  {
    var keep := (c: char) => IsWordChar(c) || IsSpace(c);
    FilterAppend(a + [c], b, keep);
    FilterSnoc(a, c, keep);
    CodeCharsFacts(a);
    CodeCharsFacts(b);
    assert Filter(a + [c], keep) == a;
  }

  /** The punctuation filter keeps a space between two code parts. */
  lemma FilterKeepSpace(a: string, b: string)
    requires CodeChars(a) && CodeChars(b)
    ensures Filter(a + [' '] + b, (c: char) => IsWordChar(c) || IsSpace(c)) == a + [' '] + b
  {
    var keep := (c: char) => IsWordChar(c) || IsSpace(c);
    FilterAppend(a + [' '], b, keep);
    FilterSnoc(a, ' ', keep);
    CodeCharsFacts(a);
    CodeCharsFacts(b);
  }

  /** A single space between two runs without spaces is already collapsed. */
  lemma {:induction false} CollapseSpacedParts(a: string, b: string)
    requires NoSpace(a) && NoSpace(b) && b != []
    ensures CollapseSpaces(a + [' '] + b) == a + [' '] + b
  {
    var s := a + [' '] + b;
    if a == [] {
      assert s == [' '] + b;
      assert SpanLen(s, IsSpace) == 1 by { SpanLenExact(s, IsSpace, 1); }
      assert s[1..] == b;
      CollapseNoSpace(b);
    } else {
      assert s[0] == a[0] && !IsSpace(a[0]);
      assert s[1..] == a[1..] + [' '] + b;
      CollapseSpacedParts(a[1..], b);
      assert s == [a[0]] + (a[1..] + [' '] + b);
    }
  }

  /** "DEPT 123" is already clean. */
  lemma CleanSpaced(a: string, b: string)
    requires a != [] && b != [] && CodeChars(a) && CodeChars(b)
    ensures CleanCode(a + [' '] + b) == a + [' '] + b
  {
    Surrounded(a, [' '], b);
    FilterKeepSpace(a, b);
    CodeCharsFacts(a);
    CodeCharsFacts(b);
    CollapseSpacedParts(a, b);
    CleanSteps(a + [' '] + b, a + [' '] + b);
  }

  /** "DEPT-123" loses its mark. */
  lemma CleanPunct(a: string, c: char, b: string)
    requires a != [] && b != [] && CodeChars(a) && CodeChars(b) && !IsWordChar(c) && !IsSpace(c)
    ensures CleanCode(a + [c] + b) == a + b
  {
    Surrounded(a, [c], b);
    FilterDrop(a, c, b);
    CodeCharsAppend(a, b);
    CodeCharsFacts(a + b);
    CollapseNoSpace(a + b);
    CleanSteps(a + [c] + b, a + b);
  }

  /** A code of letters and digits is cleaned into its upper-case form. */
  lemma CleanAlnum(s: string)
    requires s != [] && forall i :: 0 <= i < |s| ==> IsAlpha(s[i]) || IsDigit(s[i])
    ensures CleanCode(s) == Upper(s)
  {
    var u := Upper(s);
    StripUnchanged(s);
    assert CodeChars(u);
    CodeCharsFacts(u);
    CollapseNoSpace(u);
    StripUnchanged(u);
  }

  /** `re.match(r"([A-Z]+)\s*(\d+[A-Z]*)", ...)` on "DEPT 123": the two parts around the space. */
  lemma {:induction false} SpacedCodeMatch(dept: string, number: string)
    requires dept != [] && AllUpper(dept) && IsBareNumber(number)
    ensures MatchCode(dept + [' '] + number) == Some((dept, number))
  {
    var s := dept + [' '] + number;
    SpanLenExact(s, IsUpper, |dept|);
    assert s[..|dept|] == dept;
    var rest := s[|dept|..];
    assert rest == [' '] + number;
    SpanLenExact(rest, IsSpace, 1);
    assert rest[1..] == number;
    BareNumberPart(number);
  }

  /** A bare number is its own number part. */
  lemma BareNumberPart(number: string)
    requires IsBareNumber(number)
    ensures NumberPart(number) == number
  {
    var d := SpanLen(number, IsDigit);
    SpanLenExact(number[d..], IsUpper, |number| - d);
    assert number[..d + (|number| - d)] == number;
  }

  /** A code whose cleaned form parses is resolved from its two parts. */
  lemma NormalizeVia(t: Tables, code: string, cleaned: string, dept: string, number: string)
    requires code != [] && CleanCode(code) == cleaned && MatchCode(cleaned) == Some((dept, number))
    ensures NormalizeCourseCode(t, Some(code)) == Resolved(t, dept, number)
  {
  }

  /** "DEPT 123" is resolved from DEPT and 123. */
  lemma NormalizeSpaced(t: Tables, code: string, dept: string, number: string)
    requires code == dept + [' '] + number && dept != [] && AllUpper(dept) && IsBareNumber(number)
    ensures NormalizeCourseCode(t, Some(code)) == Resolved(t, dept, number)
  {
    BareNumberChars(number);
    CleanSpaced(dept, number);
    SpacedCodeMatch(dept, number);
    NormalizeVia(t, code, code, dept, number);
  }

  /** "DEPT-123", with any punctuation mark, is resolved from DEPT and 123. */
  lemma NormalizePunct(t: Tables, code: string, dept: string, mark: char, number: string)
    requires code == dept + [mark] + number && dept != [] && AllUpper(dept) && IsBareNumber(number)
    requires !IsWordChar(mark) && !IsSpace(mark)
    ensures NormalizeCourseCode(t, Some(code)) == Resolved(t, dept, number)
  {
    BareNumberChars(number);
    CleanPunct(dept, mark, number);
    PlainCodeMatch(dept, number);
    NormalizeVia(t, code, dept + number, dept, number);
  }

  /** A code of letters and digits whose upper-case form is DEPT123 is resolved from DEPT and 123. */
  lemma NormalizeAlnum(t: Tables, code: string, dept: string, number: string)
    requires code != [] && forall i :: 0 <= i < |code| ==> IsAlpha(code[i]) || IsDigit(code[i])
    requires Upper(code) == dept + number && dept != [] && AllUpper(dept) && IsBareNumber(number)
    ensures NormalizeCourseCode(t, Some(code)) == Resolved(t, dept, number)
  {
    CleanAlnum(code);
    PlainCodeMatch(dept, number);
    NormalizeVia(t, code, dept + number, dept, number);
  }

  /** Capitals alone do not match: the pattern needs a digit after them. */
  lemma MatchLetters(u: string)
    requires AllUpper(u)
    ensures MatchCode(u).None?
  {
    SpanLenExact(u, IsUpper, |u|);
    assert u[|u|..] == [];
  }

  /** Letters upper-cased are capitals. */
  lemma UpperLetters(s: string)
    requires forall i :: 0 <= i < |s| ==> IsAlpha(s[i])
    ensures AllUpper(Upper(s))
  {
    var u := Upper(s);
    forall i | 0 <= i < |u| ensures IsUpper(u[i]) {
      assert u[i] == ToUpper(s[i]);
    }
  }

  /** A code whose cleaned form does not parse is returned upper-cased and stripped. */
  lemma NormalizeUnparsedVia(t: Tables, code: string, cleaned: string)
    requires code != [] && CleanCode(code) == cleaned && MatchCode(cleaned).None?
    ensures NormalizeCourseCode(t, Some(code)) == Upper(Strip(code))
  {
  }

  /** A code of letters only does not parse and comes back upper-cased. */
  lemma NormalizeLetters(t: Tables, code: string)
    requires code != [] && forall i :: 0 <= i < |code| ==> IsAlpha(code[i])
    ensures NormalizeCourseCode(t, Some(code)) == Upper(code)
  {
    assert CleanCode(code) == Upper(code) by { CleanAlnum(code); }
    assert Strip(code) == code by { StripUnchanged(code); }
    assert MatchCode(Upper(code)).None? by { UpperLetters(code); MatchLetters(Upper(code)); }
    NormalizeUnparsedVia(t, code, Upper(code));
  }

  // ---------------------------------------------------------------------------
  // The worked samples of the service's entry point
  // ---------------------------------------------------------------------------

  lemma ResolvedToCsce222(dept: string, number: string)
    requires (dept == "CPSC" || dept == "CSCE" || dept == "ECEN") && number == "222"
    ensures Resolved(DefaultTables, dept, number) == "CSCE222"
  {
    var a := if dept == "ECEN" then "ECEN" else "CSCE";
    AliasOfSample(dept, a);
    assert (a, number) in FallbackCrossListings && FallbackCrossListings[(a, number)] == "CSCE222";
  }

  lemma ResolvedToCsce314(dept: string, number: string)
    requires (dept == "CS" || dept == "CSCE") && number == "314"
    ensures Resolved(DefaultTables, dept, number) == "CSCE314"
  {
    AliasOfSample(dept, "CSCE");
    assert ("CSCE", number) in FallbackCrossListings && FallbackCrossListings[("CSCE", number)] == "CSCE314";
  }

  /** The aliases of the departments in the samples. */
  lemma AliasOfSample(dept: string, a: string)
    requires ((dept == "CPSC" || dept == "CS" || dept == "CSCE") && a == "CSCE") || (dept == "ECEN" && a == "ECEN")
    ensures Alias(DefaultTables, dept) == a
  {
    if dept == "CPSC" || dept == "CS" {
      assert DeptAliases[dept] == "CSCE";
    } else {
      NotAnAlias(dept);
    }
  }

  lemma NotAnAlias(dept: string)
    requires dept == "CSCE" || dept == "ECEN"
    ensures dept !in DeptAliases
  {
  }

  lemma UpperCsce222(code: string)
    requires code == "csce222"
    ensures (forall i :: 0 <= i < |code| ==> IsAlpha(code[i]) || IsDigit(code[i])) && Upper(code) == "CSCE" + "222"
  {
  }

  lemma UpperUnknown(code: string)
    requires code == "Unknown"
    ensures (forall i :: 0 <= i < |code| ==> IsAlpha(code[i])) && Upper(code) == "UNKNOWN"
  {
  }

  lemma SampleCpsc222(code: string)
    requires code == "CPSC 222"
    ensures NormalizeCourseCode(DefaultTables, Some(code)) == "CSCE222"
  {
    NormalizeSpaced(DefaultTables, code, "CPSC", "222");
    ResolvedToCsce222("CPSC", "222");
  }

  lemma SampleLowerCsce222(code: string)
    requires code == "csce222"
    ensures NormalizeCourseCode(DefaultTables, Some(code)) == "CSCE222"
  {
    UpperCsce222(code);
    NormalizeAlnum(DefaultTables, code, "CSCE", "222");
    ResolvedToCsce222("CSCE", "222");
  }

  lemma SampleEcen222(code: string)
    requires code == "ECEN-222"
    ensures NormalizeCourseCode(DefaultTables, Some(code)) == "CSCE222"
  {
    NormalizePunct(DefaultTables, code, "ECEN", '-', "222");
    ResolvedToCsce222("ECEN", "222");
  }

  lemma SampleCs314(code: string)
    requires code == "CS 314"
    ensures NormalizeCourseCode(DefaultTables, Some(code)) == "CSCE314"
  {
    NormalizeSpaced(DefaultTables, code, "CS", "314");
    ResolvedToCsce314("CS", "314");
  }

  lemma SampleCsce314(code: string)
    requires code == "CSCE314"
    ensures NormalizeCourseCode(DefaultTables, Some(code)) == "CSCE314"
  {
    NormalizeAlnum(DefaultTables, code, "CSCE", "314");
    ResolvedToCsce314("CSCE", "314");
  }

  lemma SampleUnknown(code: string)
    requires code == "Unknown"
    ensures NormalizeCourseCode(DefaultTables, Some(code)) == "UNKNOWN"
  {
    UpperUnknown(code);
    NormalizeLetters(DefaultTables, code);
  }

  /**
   * The normalisations the service checks on start-up, with the built-in
   * tables: the Computer Science spellings and the Electrical Engineering
   * cross-listing of 222 all reach CSCE222, both spellings of 314 reach
   * CSCE314, and a code without a number is returned upper-cased.
   */
  lemma SampleNormalizations(code: string)
    ensures code == "CPSC 222" || code == "csce222" || code == "ECEN-222" ==>
      NormalizeCourseCode(DefaultTables, Some(code)) == "CSCE222"
    ensures code == "CS 314" || code == "CSCE314" ==> NormalizeCourseCode(DefaultTables, Some(code)) == "CSCE314"
    ensures code == "Unknown" ==> NormalizeCourseCode(DefaultTables, Some(code)) == "UNKNOWN"
  {
    if code == "CPSC 222" {
      SampleCpsc222(code);
    } else if code == "csce222" {
      SampleLowerCsce222(code);
    } else if code == "ECEN-222" {
      SampleEcen222(code);
    } else if code == "CS 314" {
      SampleCs314(code);
    } else if code == "CSCE314" {
      SampleCsce314(code);
    } else if code == "Unknown" {
      SampleUnknown(code);
    }
  }

  // ---------------------------------------------------------------------------
  // extract_key_sentences: the candidate sentences
  // ---------------------------------------------------------------------------

  /** `review.review_text and len(review.review_text.strip()) > 10`. */
  predicate HasText(r: ReviewData) {
    r.reviewText.Some? && |Strip(r.reviewText.value)| > 10
  }

  /** The review text, or "" when there is none. */
  function TextOf(r: ReviewData): string {
    if r.reviewText.Some? then r.reviewText.value else ""
  }

  /** A sentence as it enters the pool: prefixed with the review's own course code in overall summaries. */
  function Contextualized(r: ReviewData, isCourseSpecific: bool, sentence: string): string {
    if !isCourseSpecific && Present(r.courseCode) then "In " + r.courseCode.value + ": " + sentence else sentence
  }

  /** Each of a review's sentences contextualized, in order. */
  function InContext(r: ReviewData, isCourseSpecific: bool, sentences: seq<string>): (out: seq<string>)
    ensures |out| == |sentences|
    ensures forall k :: 0 <= k < |sentences| ==> out[k] == Contextualized(r, isCourseSpecific, sentences[k])
  {
    if |sentences| == 0 then []
    else
      var n := |sentences| - 1;
      InContext(r, isCourseSpecific, sentences[..n]) + [Contextualized(r, isCourseSpecific, sentences[n])]
  }

  /** The sentences one review adds: its pieces between terminator runs, stripped, longer than 20 characters. */
  function ReviewSentences(r: ReviewData, isCourseSpecific: bool): seq<string> {
    if HasText(r) then InContext(r, isCourseSpecific, Summarizer.LongPieces(Summarizer.SplitTerminators(TextOf(r))))
    else []
  }

  /** `all_sentences`: the sentences of every review, in review order. */
  function CandidateSentences(reviews: seq<ReviewData>, isCourseSpecific: bool): seq<string> {
    if |reviews| == 0 then []
    else CandidateSentences(reviews[..|reviews| - 1], isCourseSpecific) + ReviewSentences(reviews[|reviews| - 1], isCourseSpecific)
  }

  /**
   * `extract_key_sentences`: every candidate when there are no more than
   * asked for; otherwise the ranking's choice, which the model takes as a
   * parameter.
   */
  function KeySentences(reviews: seq<ReviewData>, numSentences: int, isCourseSpecific: bool,
                        select: seq<string> -> seq<string>): seq<string> {
    var all := CandidateSentences(reviews, isCourseSpecific);
    if |all| <= numSentences then all else select(all)
  }

  /** `s` is a meaningful sentence of some review with text, contextualized for that review. */
  ghost predicate FromReview(reviews: seq<ReviewData>, isCourseSpecific: bool, s: string) {
    exists i, m :: 0 <= i < |reviews| && HasText(reviews[i]) && Summarizer.Meaningful(m) &&
      s == Contextualized(reviews[i], isCourseSpecific, m)
  }

  /**
   * Every candidate is a meaningful sentence (stripped, terminator-free,
   * longer than 20 characters) from a review with text, contextualized for
   * that review.
   */
  lemma {:induction false} CandidateSentencesSpec(reviews: seq<ReviewData>, isCourseSpecific: bool)
    ensures forall s :: s in CandidateSentences(reviews, isCourseSpecific) ==> FromReview(reviews, isCourseSpecific, s)
  {
    if |reviews| > 0 {
      var n := |reviews| - 1;
      var init := reviews[..n];
      CandidateSentencesSpec(init, isCourseSpecific);
      ReviewSentencesSpec(reviews[n], isCourseSpecific);
      forall s | s in CandidateSentences(reviews, isCourseSpecific)
        ensures FromReview(reviews, isCourseSpecific, s)
      {
        if s in CandidateSentences(init, isCourseSpecific) {
          FromReviewPrefix(reviews, n, isCourseSpecific, s);
        } else {
          assert s in ReviewSentences(reviews[n], isCourseSpecific);
          var m :| Summarizer.Meaningful(m) && s == Contextualized(reviews[n], isCourseSpecific, m);
          assert FromReview(reviews, isCourseSpecific, s);
        }
      }
    }
  }

  /** A sentence from a prefix of the reviews comes from the reviews. */
  lemma FromReviewPrefix(reviews: seq<ReviewData>, n: nat, isCourseSpecific: bool, s: string)
    requires n <= |reviews| && FromReview(reviews[..n], isCourseSpecific, s)
    ensures FromReview(reviews, isCourseSpecific, s)
  {
    var i, m :| 0 <= i < n && HasText(reviews[..n][i]) && Summarizer.Meaningful(m) &&
      s == Contextualized(reviews[..n][i], isCourseSpecific, m);
    assert reviews[..n][i] == reviews[i];
  }

  /** The sentences of one review are meaningful sentences of its text, contextualized. */
  lemma ReviewSentencesSpec(r: ReviewData, isCourseSpecific: bool)
    ensures forall s :: s in ReviewSentences(r, isCourseSpecific) ==>
      HasText(r) && exists m :: Summarizer.Meaningful(m) && s == Contextualized(r, isCourseSpecific, m)
  {
    if HasText(r) {
      var split := Summarizer.SplitTerminators(TextOf(r));
      var pieces := Summarizer.LongPieces(split);
      Summarizer.LongPiecesMeaningful(split);
      forall s | s in ReviewSentences(r, isCourseSpecific)
        ensures exists m :: Summarizer.Meaningful(m) && s == Contextualized(r, isCourseSpecific, m)
      {
        var k :| 0 <= k < |pieces| && s == InContext(r, isCourseSpecific, pieces)[k];
        assert Summarizer.Meaningful(pieces[k]);
      }
    }
  }

  /** In a course-specific summary the candidates carry no prefix: each is a meaningful sentence of some review. */
  lemma CourseSpecificUnprefixed(reviews: seq<ReviewData>)
    ensures forall s :: s in CandidateSentences(reviews, true) ==> Summarizer.Meaningful(s)
  {
    CandidateSentencesSpec(reviews, true);
    forall s | s in CandidateSentences(reviews, true) ensures Summarizer.Meaningful(s) {
      assert FromReview(reviews, true, s);
    }
  }

  /** In an overall summary a sentence from a review with a course code starts with "In " and that code. */
  lemma OverallPrefixed(r: ReviewData, m: string)
    requires Present(r.courseCode)
    ensures StartsWith(Contextualized(r, false, m), "In " + r.courseCode.value + ": ")
  {
    var p := "In " + r.courseCode.value + ": ";
    assert (p + m)[..|p|] == p;
  }

  lemma CandidateStep(reviews: seq<ReviewData>, isCourseSpecific: bool, i: nat)
    requires i < |reviews|
    ensures CandidateSentences(reviews[..i + 1], isCourseSpecific) ==
      CandidateSentences(reviews[..i], isCourseSpecific) + ReviewSentences(reviews[i], isCourseSpecific)
  {
    assert reviews[..i + 1][..i] == reviews[..i];
  }

  lemma InContextStep(before: seq<string>, r: ReviewData, isCourseSpecific: bool, pieces: seq<string>, j: nat)
    requires j < |pieces|
    ensures before + InContext(r, isCourseSpecific, Summarizer.LongPieces(pieces[..j + 1])) ==
      if |Strip(pieces[j])| > 20
      then before + InContext(r, isCourseSpecific, Summarizer.LongPieces(pieces[..j])) + [Contextualized(r, isCourseSpecific, Strip(pieces[j]))]
      else before + InContext(r, isCourseSpecific, Summarizer.LongPieces(pieces[..j]))
  {
    assert pieces[..j + 1][..j] == pieces[..j];
    var l := Summarizer.LongPieces(pieces[..j]);
    if |Strip(pieces[j])| > 20 {
      assert Summarizer.LongPieces(pieces[..j + 1]) == l + [Strip(pieces[j])];
      assert (l + [Strip(pieces[j])])[..|l|] == l;
      var c := InContext(r, isCourseSpecific, l);
      assert before + (c + [Contextualized(r, isCourseSpecific, Strip(pieces[j]))]) ==
        before + c + [Contextualized(r, isCourseSpecific, Strip(pieces[j]))];
    } else {
      assert Summarizer.LongPieces(pieces[..j + 1]) == l + [];
      assert l + [] == l;
    }
  }

  /** The sentence loop of one review. */
  method AddReviewSentences(all: seq<string>, r: ReviewData, isCourseSpecific: bool) returns (out: seq<string>)
    requires HasText(r)
    ensures out == all + ReviewSentences(r, isCourseSpecific)
  {
    var pieces := Summarizer.SplitTerminators(r.reviewText.value);
    out := all;
    assert pieces[..0] == [];
    for j := 0 to |pieces|
      invariant out == all + InContext(r, isCourseSpecific, Summarizer.LongPieces(pieces[..j]))
    {
      InContextStep(all, r, isCourseSpecific, pieces, j);
      var sentence := Strip(pieces[j]);
      if |sentence| > 20 {
        out := out + [Contextualized(r, isCourseSpecific, sentence)];
      }
    }
    assert pieces[..|pieces|] == pieces;
  }

  /** The loops of `extract_key_sentences`, then the count check. */
  method ExtractKeySentences(reviews: seq<ReviewData>, numSentences: int, isCourseSpecific: bool,
                             select: seq<string> -> seq<string>) returns (sentences: seq<string>)
    ensures sentences == KeySentences(reviews, numSentences, isCourseSpecific, select)
  {
    var all: seq<string> := [];
    for i := 0 to |reviews|
      invariant all == CandidateSentences(reviews[..i], isCourseSpecific)
    {
      CandidateStep(reviews, isCourseSpecific, i);
      if HasText(reviews[i]) {
        all := AddReviewSentences(all, reviews[i], isCourseSpecific);
      } else {
        assert all + [] == all;
      }
    }
    assert reviews[..|reviews|] == reviews;
    if |all| <= numSentences {
      return all;
    }
    sentences := select(all);
  }

  /** With no more candidates than asked for, the key sentences are all the candidates, in order. */
  lemma KeySentencesFew(reviews: seq<ReviewData>, numSentences: int, isCourseSpecific: bool,
                        select: seq<string> -> seq<string>)
    requires |CandidateSentences(reviews, isCourseSpecific)| <= numSentences
    ensures KeySentences(reviews, numSentences, isCourseSpecific, select) == CandidateSentences(reviews, isCourseSpecific)
  {
  }

  // ---------------------------------------------------------------------------
  // generate_hybrid_summary
  // ---------------------------------------------------------------------------

  /**
   * The language models, which the model takes as parameters: the ranking
   * that picks key sentences, the abstractive and the hierarchical summary
   * of a text of a given maximum length, and the short summary of
   * `generate_summary`.
   */
  datatype Models = Models(
    select: seq<string> -> seq<string>,
    abstractive: (string, int) -> string,
    hierarchical: (string, int) -> string,
    generate: string -> string)

  /** The dictionary the hybrid summary returns; the two optional fields are present only on success. */
  datatype HybridResult = HybridResult(
    summary: string,
    approach: string,
    numReviews: nat,
    extractiveLength: nat,
    finalLength: nat,
    keySentencesCount: Option<nat>,
    isCourseSpecific: Option<bool>)

  const NoReviewsMessage := "No reviews available for summarization."
  const NoContentMessage := "No meaningful content found in reviews."

  /** The message the exception handler builds when the missing hierarchical method is looked up. */
  const MissingHierarchicalMessage :=
    "Error generating summary: 'ReviewSummarizer' object has no attribute 'generate_hierarchical_summary'"

  /** Above this many characters the extractive text is not handed to the abstractive model. */
  const ExtractiveLimit := 10000

  /** The extractive text: the key sentences joined with single spaces. */
  function Extractive(reviews: seq<ReviewData>, numKeySentences: int, isCourseSpecific: bool, m: Models): string {
    Join(" ", KeySentences(reviews, numKeySentences, isCourseSpecific, m.select))
  }

  function Succeeded(reviews: seq<ReviewData>, key: seq<string>, extractive: string, summary: string,
                     approach: string, isCourseSpecific: bool): HybridResult {
    HybridResult(summary, approach, |reviews|, |extractive|, |summary|, Some(|key|), Some(isCourseSpecific))
  }

  /**
   * The hybrid summary as intended: "none" exactly for no reviews, "failed"
   * exactly when no key sentence survives, otherwise the abstractive or,
   * for an extractive text over the limit, the hierarchical summary, with
   * the counts filled in; it never reports an error.
   */
  function HybridSummary(reviews: seq<ReviewData>, maxLength: int, numKeySentences: int,
                         isCourseSpecific: bool, m: Models): (r: HybridResult)
    ensures var key := KeySentences(reviews, numKeySentences, isCourseSpecific, m.select);
      var extractive := Join(" ", key);
      r.approach != "error" &&
      r.numReviews == |reviews| &&
      (r.approach == "none" <==> reviews == []) &&
      (r.approach == "failed" <==> reviews != [] && key == []) &&
      (r.approach == "hybrid" <==> reviews != [] && key != [] && |extractive| <= ExtractiveLimit) &&
      (r.approach == "hybrid_hierarchical" <==> reviews != [] && key != [] && |extractive| > ExtractiveLimit) &&
      (r.keySentencesCount.Some? <==> reviews != [] && key != []) &&
      (r.keySentencesCount.Some? ==> r.keySentencesCount.value == |key| && r.extractiveLength == |extractive| &&
                                     r.finalLength == |r.summary| && r.isCourseSpecific == Some(isCourseSpecific))
  {
    if |reviews| == 0 then HybridResult(NoReviewsMessage, "none", 0, 0, 0, None, None)
    else
      var key := KeySentences(reviews, numKeySentences, isCourseSpecific, m.select);
      if |key| == 0 then HybridResult(NoContentMessage, "failed", |reviews|, 0, 0, None, None)
      else
        var extractive := Join(" ", key);
        if |extractive| <= ExtractiveLimit then
          Succeeded(reviews, key, extractive, m.abstractive(extractive, maxLength), "hybrid", isCourseSpecific)
        else
          Succeeded(reviews, key, extractive, m.hierarchical(extractive, maxLength), "hybrid_hierarchical", isCourseSpecific)
  }

  /**
   * `generate_hybrid_summary` as written: the long branch calls a method the
   * class does not define, and the handler turns the attribute error into
   * an error result. It agrees with the intended summary exactly when the
   * extractive text is within the limit.
   */
  function HybridAsWritten(reviews: seq<ReviewData>, maxLength: int, numKeySentences: int,
                           isCourseSpecific: bool, m: Models): (r: HybridResult)
    ensures r == HybridSummary(reviews, maxLength, numKeySentences, isCourseSpecific, m) <==>
      reviews == [] || KeySentences(reviews, numKeySentences, isCourseSpecific, m.select) == [] ||
      |Extractive(reviews, numKeySentences, isCourseSpecific, m)| <= ExtractiveLimit
    ensures r.approach == "error" ==> r.summary == MissingHierarchicalMessage
  {
    if |reviews| == 0 then HybridResult(NoReviewsMessage, "none", 0, 0, 0, None, None)
    else
      var key := KeySentences(reviews, numKeySentences, isCourseSpecific, m.select);
      if |key| == 0 then HybridResult(NoContentMessage, "failed", |reviews|, 0, 0, None, None)
      else
        var extractive := Join(" ", key);
        if |extractive| <= ExtractiveLimit then
          Succeeded(reviews, key, extractive, m.abstractive(extractive, maxLength), "hybrid", isCourseSpecific)
        else HybridResult(MissingHierarchicalMessage, "error", |reviews|, 0, 0, None, None)
  }

  /** A text without terminators is a single piece. */
  lemma SplitWhole(t: string)
    requires Summarizer.NoTerminator(t)
    ensures Summarizer.SplitTerminators(t) == [t]
  {
    SpanLenExact(t, Summarizer.NotTerminator, |t|);
  }

  /** The candidates of a single review are that review's sentences. */
  lemma CandidatesOfOne(r: ReviewData, isCourseSpecific: bool)
    ensures CandidateSentences([r], isCourseSpecific) == ReviewSentences(r, isCourseSpecific)
  {
    assert [r][..0] == [];
  }

  /** A stripped piece longer than 20 characters is kept on its own. */
  lemma LongPiecesOne(t: string)
    requires Strip(t) == t && |t| > 20
    ensures Summarizer.LongPieces([t]) == [t]
  {
    assert [t][..0] == [];
  }

  /** A review whose text is one stripped sentence of more than 20 characters contributes exactly that sentence. */
  lemma SingleSentenceReview(r: ReviewData)
    requires r.reviewText.Some? && Summarizer.NoTerminator(r.reviewText.value)
    requires Strip(r.reviewText.value) == r.reviewText.value && |r.reviewText.value| > 20
    ensures CandidateSentences([r], true) == [r.reviewText.value]
  {
    var t := r.reviewText.value;
    SplitWhole(t);
    LongPiecesOne(t);
    CandidatesOfOne(r, true);
  }

  /**
   * One review whose text is a single stripped sentence of more than 10000
   * characters: it is its own key sentence, and the hybrid summary as
   * written reports the attribute error instead of a summary.
   */
  lemma HybridAsWrittenLong(r: ReviewData, maxLength: int, numKeySentences: int, m: Models)
    requires r.reviewText.Some? && Summarizer.NoTerminator(r.reviewText.value)
    requires Strip(r.reviewText.value) == r.reviewText.value && |r.reviewText.value| > ExtractiveLimit
    requires numKeySentences >= 1
    ensures KeySentences([r], numKeySentences, true, m.select) == [r.reviewText.value]
    ensures HybridAsWritten([r], maxLength, numKeySentences, true, m) ==
      HybridResult(MissingHierarchicalMessage, "error", 1, 0, 0, None, None)
    ensures HybridSummary([r], maxLength, numKeySentences, true, m).approach == "hybrid_hierarchical"
  {
    var t := r.reviewText.value;
    SingleSentenceReview(r);
    assert Join(" ", [t]) == t;
  }

  // ---------------------------------------------------------------------------
  // prepare_text_for_summarization
  // ---------------------------------------------------------------------------

  /** How an f-string prints an optional string: "None" when it is missing. */
  function Shown(o: Option<string>): string {
    if o.Some? then o.value else "None"
  }

  /** `if review.grade`: a grade is given and not empty. */
  predicate HasGrade(r: ReviewData) {
    r.grade.Some? && r.grade.value != []
  }

  /** The context in front of a review's text: its course (overall summaries only), then its grade. */
  function ReviewContext(r: ReviewData, overall: bool): string {
    var course := if overall then "Course: " + Shown(r.courseCode) else "";
    if HasGrade(r) then course + ", Grade: " + r.grade.value else course
  }

  /** The text one review adds: its context, a period and a space, and its stripped text. */
  function PreparedPiece(r: ReviewData, overall: bool): string {
    ReviewContext(r, overall) + ". " + Strip(TextOf(r))
  }

  /** `PreparedPiece` as a function value, for mapping over the reviews. */
  function PieceFn(overall: bool): ReviewData -> string {
    r => PreparedPiece(r, overall)
  }

  /** The pieces of the reviews with text, one each, in review order. */
  function PreparedPieces(reviews: seq<ReviewData>, overall: bool): seq<string> {
    MapSeq(Filter(reviews, HasText), PieceFn(overall))
  }

  /** What the preparation hands on: the combined text, or, when that is too long, the reviews themselves. */
  datatype Prepared = Text(text: string) | ReviewList(reviews: seq<ReviewData>)

  /** Above this many characters the combined text is not summarized directly. */
  const PreparedLimit := 8000

  function PrepareText(reviews: seq<ReviewData>, overall: bool): Prepared {
    var combined := Join(" ", PreparedPieces(reviews, overall));
    if |combined| > PreparedLimit then ReviewList(reviews) else Text(combined)
  }

  lemma StartsWithAppend(a: string, b: string)
    ensures StartsWith(a + b, a)
  {
    assert (a + b)[..|a|] == a;
  }

  lemma StartsWithExtend(s: string, p: string, c: string)
    requires StartsWith(s, p)
    ensures StartsWith(s + c, p)
  {
    assert (s + c)[..|p|] == s[..|p|];
  }

  lemma EndsWithAppend(a: string, b: string)
    ensures EndsWith(a + b, b)
  {
    assert (a + b)[|a + b| - |b|..] == b;
  }

  lemma IndexAfter(a: string, b: string, c: string)
    requires b != []
    ensures (a + b + c)[|a|] == b[0]
  {
  }

  /** In an overall summary the context, and so the piece, starts with "Course: ". */
  lemma OverallPieceCourse(r: ReviewData)
    ensures StartsWith(PreparedPiece(r, true), "Course: ")
  {
    var course := "Course: " + Shown(r.courseCode);
    StartsWithAppend("Course: ", Shown(r.courseCode));
    var ctx := ReviewContext(r, true);
    if HasGrade(r) {
      StartsWithExtend(course, "Course: ", ", Grade: ");
      StartsWithExtend(course + ", Grade: ", "Course: ", r.grade.value);
    }
    assert StartsWith(ctx, "Course: ");
    StartsWithExtend(ctx, "Course: ", ". ");
    StartsWithExtend(ctx + ". ", "Course: ", Strip(TextOf(r)));
  }

  /**
   * A piece ends with the review's stripped text, has the period right
   * after its context, starts with "Course: " in an overall summary, and is
   * just ". " and the text in a course summary of a review without a grade.
   */
  lemma PreparedPieceShape(r: ReviewData, overall: bool)
    ensures EndsWith(PreparedPiece(r, overall), Strip(TextOf(r)))
    ensures PreparedPiece(r, overall)[|ReviewContext(r, overall)|] == '.'
    ensures overall ==> StartsWith(PreparedPiece(r, overall), "Course: ")
    ensures !overall && !HasGrade(r) ==> PreparedPiece(r, overall) == ". " + Strip(TextOf(r))
  {
    var ctx := ReviewContext(r, overall);
    EndsWithAppend(ctx + ". ", Strip(TextOf(r)));
    IndexAfter(ctx, ". ", Strip(TextOf(r)));
    if overall {
      OverallPieceCourse(r);
    }
    if !overall && !HasGrade(r) {
      assert ctx == [];
      assert [] + ". " == ". ";
    }
  }

  /** Filtering then mapping one more element. */
  lemma MapFilterSnoc<T(!new), U>(xs: seq<T>, p: T -> bool, f: T -> U, i: nat)
    requires i < |xs|
    ensures MapSeq(Filter(xs[..i + 1], p), f) == MapSeq(Filter(xs[..i], p), f) + (if p(xs[i]) then [f(xs[i])] else [])
  {
    assert xs[..i + 1] == xs[..i] + [xs[i]];
    FilterSnoc(xs[..i], xs[i], p);
    var kept := Filter(xs[..i], p);
    if p(xs[i]) {
      assert (kept + [xs[i]])[..|kept|] == kept;
    } else {
      assert kept + [] == kept;
    }
  }

  /** The joined text begins with the first piece. */
  lemma JoinStartsWithFirst(sep: string, xs: seq<string>)
    requires |xs| >= 1
    ensures StartsWith(Join(sep, xs), xs[0])
  {
    if |xs| > 1 {
      assert (xs[0] + sep + Join(sep, xs[1..]))[..|xs[0]|] == xs[0];
    }
  }

  /** A string holding a non-space character is not blank. */
  lemma NotBlank(s: string, i: nat)
    requires i < |s| && !IsSpace(s[i])
    ensures !IsBlank(s)
  {
  }

  /** The loop of `prepare_text_for_summarization`, then the length check. */
  method PrepareTextForSummarization(reviews: seq<ReviewData>, overall: bool) returns (p: Prepared)
    ensures p == PrepareText(reviews, overall)
  {
    var texts: seq<string> := [];
    for i := 0 to |reviews|
      invariant texts == PreparedPieces(reviews[..i], overall)
    {
      MapFilterSnoc(reviews, HasText, PieceFn(overall), i);
      var review := reviews[i];
      if review.reviewText.Some? && |Strip(review.reviewText.value)| > 10 {
        var context := "";
        if overall {
          context := "Course: " + Shown(review.courseCode);
        }
        if review.grade.Some? && review.grade.value != [] {
          context := context + ", Grade: " + review.grade.value;
        }
        texts := texts + [context + ". " + Strip(review.reviewText.value)];
      }
    }
    assert reviews[..|reviews|] == reviews;
    var combined := Join(" ", texts);
    if |combined| > PreparedLimit {
      return ReviewList(reviews);
    }
    p := Text(combined);
  }

  /** The combined text of reviews none of which has text is empty. */
  lemma NoPieces(reviews: seq<ReviewData>, overall: bool)
    requires forall i :: 0 <= i < |reviews| ==> !HasText(reviews[i])
    ensures PreparedPieces(reviews, overall) == []
  {
    FilterNone(reviews, HasText);
  }

  /** Joined pieces whose first piece holds a period are not blank. */
  lemma JoinedNotBlank(pieces: seq<string>, c: nat)
    requires |pieces| >= 1 && c < |pieces[0]| && pieces[0][c] == '.'
    ensures !IsBlank(Join(" ", pieces))
  {
    JoinStartsWithFirst(" ", pieces);
    assert Join(" ", pieces)[c] == pieces[0][c];
    NotBlank(Join(" ", pieces), c);
  }

  /** Once some review has text, the combined text holds a period and so is not blank. */
  lemma SomePieces(reviews: seq<ReviewData>, overall: bool, i: nat)
    requires i < |reviews| && HasText(reviews[i])
    ensures !IsBlank(Join(" ", PreparedPieces(reviews, overall)))
  {
    var kept := Filter(reviews, HasText);
    assert |kept| >= 1 by { assert reviews[i] in kept; }
    var pieces := PreparedPieces(reviews, overall);
    var c := |ReviewContext(kept[0], overall)|;
    assert pieces[0][c] == '.' by {
      assert pieces[0] == PieceFn(overall)(kept[0]);
      PreparedPieceShape(kept[0], overall);
    }
    JoinedNotBlank(pieces, c);
  }

  /**
   * The two outcomes of the preparation: the reviews come back whole, and
   * only when some review has text; the combined text is blank exactly
   * when no review has text.
   */
  lemma PrepareTextSpec(reviews: seq<ReviewData>, overall: bool)
    ensures PrepareText(reviews, overall).ReviewList? ==>
      PrepareText(reviews, overall).reviews == reviews && exists i :: 0 <= i < |reviews| && HasText(reviews[i])
    ensures PrepareText(reviews, overall).Text? ==>
      (IsBlank(PrepareText(reviews, overall).text) <==> forall i :: 0 <= i < |reviews| ==> !HasText(reviews[i]))
  {
    PreparedListCase(reviews, overall);
    PreparedTextCase(reviews, overall);
  }

  lemma PreparedListCase(reviews: seq<ReviewData>, overall: bool)
    ensures PrepareText(reviews, overall).ReviewList? ==>
      PrepareText(reviews, overall).reviews == reviews && exists i :: 0 <= i < |reviews| && HasText(reviews[i])
  {
    if !exists i :: 0 <= i < |reviews| && HasText(reviews[i]) {
      PreparedWithoutText(reviews, overall);
    }
  }

  lemma PreparedTextCase(reviews: seq<ReviewData>, overall: bool)
    ensures PrepareText(reviews, overall).Text? ==>
      (IsBlank(PrepareText(reviews, overall).text) <==> forall i :: 0 <= i < |reviews| ==> !HasText(reviews[i]))
  {
    if exists i :: 0 <= i < |reviews| && HasText(reviews[i]) {
      var i :| 0 <= i < |reviews| && HasText(reviews[i]);
      PreparedWithText(reviews, overall, i);
    } else {
      PreparedWithoutText(reviews, overall);
      assert IsBlank([]);
    }
  }

  lemma PreparedWithText(reviews: seq<ReviewData>, overall: bool, i: nat)
    requires i < |reviews| && HasText(reviews[i])
    ensures PrepareText(reviews, overall).Text? ==> !IsBlank(PrepareText(reviews, overall).text)
  {
    SomePieces(reviews, overall, i);
  }

  lemma PreparedWithoutText(reviews: seq<ReviewData>, overall: bool)
    requires forall i :: 0 <= i < |reviews| ==> !HasText(reviews[i])
    ensures PrepareText(reviews, overall) == Text([])
  {
    NoPieces(reviews, overall);
    JoinNil(" ");
  }

  lemma JoinNil(sep: string)
    ensures Join(sep, []) == []
  {
  }

  // ---------------------------------------------------------------------------
  // Choosing the summarizer: generate_summary or the hybrid path
  // ---------------------------------------------------------------------------

  const NoTextMessage := "No review text available for summarization."

  /** The hybrid path's arguments: the default maximum length and number of key sentences. */
  const HybridMaxLength := 8000
  const HybridKeySentences := 15

  /** `generate_summary`: the fixed message for blank text, otherwise the model's summary. */
  function GenerateSummary(text: string, m: Models): string {
    if IsBlank(text) then NoTextMessage else m.generate(text)
  }

  /** `re.sub(r'^[^\w\s]', '', s)`: a leading character that is neither a word character nor whitespace is dropped. */
  function StripLeadingMark(s: string): (r: string)
    ensures r == s || (s != [] && r == s[1..])
    ensures r != s <==> s != [] && !IsWordChar(s[0]) && !IsSpace(s[0])
  {
    if s != [] && !IsWordChar(s[0]) && !IsSpace(s[0]) then s[1..] else s
  }

  /**
   * The summary text of a set of reviews: the prepared text goes to
   * `generate_summary`; when it was too long the reviews go to the hybrid
   * summary, course-specific for a course and with a leading mark removed
   * for the overall summary.
   */
  function SummaryText(reviews: seq<ReviewData>, overall: bool, m: Models): string {
    match PrepareText(reviews, overall)
    case ReviewList(rs) =>
      var h := HybridSummary(rs, HybridMaxLength, HybridKeySentences, !overall, m).summary;
      if overall then StripLeadingMark(h) else h
    case Text(t) => GenerateSummary(t, m)
  }

  /**
   * Which summarizer produces the text: the no-text message exactly when no
   * review has text; the short model on the prepared text when it is short;
   * otherwise the hybrid summary of all the reviews, which then neither
   * finds the list empty nor fails.
   */
  lemma SummaryTextSpec(reviews: seq<ReviewData>, overall: bool, m: Models)
    ensures (forall i :: 0 <= i < |reviews| ==> !HasText(reviews[i])) ==> SummaryText(reviews, overall, m) == NoTextMessage
    ensures PrepareText(reviews, overall).Text? && (exists i :: 0 <= i < |reviews| && HasText(reviews[i])) ==>
      SummaryText(reviews, overall, m) == m.generate(PrepareText(reviews, overall).text)
    ensures PrepareText(reviews, overall).ReviewList? ==>
      var h := HybridSummary(reviews, HybridMaxLength, HybridKeySentences, !overall, m);
      h.approach != "none" && h.approach != "error" &&
      SummaryText(reviews, overall, m) == if overall then StripLeadingMark(h.summary) else h.summary
  {
    PrepareTextSpec(reviews, overall);
  }

  /** The preparation and the choice of summarizer, step by step. */
  method SummarizeReviews(reviews: seq<ReviewData>, overall: bool, m: Models) returns (text: string)
    ensures text == SummaryText(reviews, overall, m)
  {
    var prepared := PrepareTextForSummarization(reviews, overall);
    if prepared.ReviewList? {
      var result := HybridSummary(prepared.reviews, HybridMaxLength, HybridKeySentences, !overall, m);
      text := result.summary;
      if overall {
        text := StripLeadingMark(text);
      }
    } else {
      text := GenerateSummary(prepared.text, m);
    }
  }

  // ---------------------------------------------------------------------------
  // Summary records and their ids
  // ---------------------------------------------------------------------------

  /** A stored summary; the average ratings are left out. */
  datatype SummaryRecord = SummaryRecord(
    id: string,
    professorId: string,
    courseCode: Option<string>,
    summaryType: string,
    summaryText: string,
    totalReviews: nat,
    commonTags: seq<string>,
    tagFrequencies: map<string, nat>)

  function OverallId(professorId: string): string { professorId + "_overall" }
  function CourseId(professorId: string, code: string): string { professorId + "_" + code }
  function NumberId(professorId: string, code: string): string { professorId + "_NUM" + code }

  /** The id a group's record is stored under. */
  function GroupId(professorId: string, code: string, numbered: bool): string {
    if numbered then NumberId(professorId, code) else CourseId(professorId, code)
  }

  function GroupType(numbered: bool): string {
    if numbered then "course_number" else "course_specific"
  }

  /** `SummaryText` as a function value, so that lists of records need not unfold it. */
  function TextFn(overall: bool, m: Models): seq<ReviewData> -> string {
    (reviews: seq<ReviewData>) => SummaryText(reviews, overall, m)
  }

  /** The record `create_overall_summary` stores. */
  function OverallRecord(professorId: string, reviews: seq<ReviewData>, m: Models): SummaryRecord {
    var tags := AllTags(reviews);
    SummaryRecord(OverallId(professorId), professorId, None, "overall", TextFn(true, m)(reviews),
                  |reviews|, TopTags(tags), TagCounts(tags))
  }

  /** The record stored for one course or course-number group. */
  function GroupRecord(professorId: string, code: string, members: seq<ReviewData>, numbered: bool, m: Models): SummaryRecord {
    var tags := AllTags(members);
    SummaryRecord(GroupId(professorId, code, numbered), professorId, Some(code), GroupType(numbered),
                  TextFn(false, m)(members), |members|, TopTags(tags), TagCounts(tags))
  }

  /** The fields an update of an existing record replaces. */
  predicate SameContent(a: SummaryRecord, b: SummaryRecord) {
    a.summaryText == b.summaryText && a.totalReviews == b.totalReviews &&
    a.commonTags == b.commonTags && a.tagFrequencies == b.tagFrequencies
  }

  /** The fields an update keeps. */
  predicate SameIdentity(a: SummaryRecord, b: SummaryRecord) {
    a.id == b.id && a.professorId == b.professorId && a.courseCode == b.courseCode && a.summaryType == b.summaryType
  }

  /**
   * The upsert: an existing record under the id gets the new content and
   * keeps its identity fields; otherwise the new record is added. No other
   * id is touched.
   */
  function Upserted(records: map<string, SummaryRecord>, rec: SummaryRecord): (r: map<string, SummaryRecord>)
    ensures rec.id in r && SameContent(r[rec.id], rec)
    ensures rec.id in records ==> SameIdentity(r[rec.id], records[rec.id])
    ensures rec.id !in records ==> r[rec.id] == rec
    ensures forall id :: id != rec.id ==> (id in r <==> id in records)
    ensures forall id :: id != rec.id && id in records ==> r[id] == records[id]
  {
    if rec.id in records then
      var old_ := records[rec.id];
      records[rec.id := old_.(summaryText := rec.summaryText, totalReviews := rec.totalReviews,
                              commonTags := rec.commonTags, tagFrequencies := rec.tagFrequencies)]
    else records[rec.id := rec]
  }

  /** Several upserts, one after another. */
  function UpsertAll(records: map<string, SummaryRecord>, recs: seq<SummaryRecord>): map<string, SummaryRecord> {
    if |recs| == 0 then records else Upserted(UpsertAll(records, recs[..|recs| - 1]), recs[|recs| - 1])
  }

  /** The ids of some records, in order. */
  function IdsOf(recs: seq<SummaryRecord>): (ids: seq<string>)
    ensures |ids| == |recs| && forall k :: 0 <= k < |recs| ==> ids[k] == recs[k].id
  {
    if |recs| == 0 then [] else IdsOf(recs[..|recs| - 1]) + [recs[|recs| - 1].id]
  }

  /** Which id `get_summary` looks up, or the error it raises. */
  datatype SummaryKey = Key(id: string) | MissingCode(message: string)

  /** `get_summary`'s choice of id: a course or number summary needs a non-empty course code. */
  function SummaryKeyFor(professorId: string, code: Option<string>, summaryType: string): SummaryKey {
    if summaryType == "overall" then Key(OverallId(professorId))
    else if summaryType == "course_number" then
      if !Present(code) then MissingCode("course_code required for course_number summaries")
      else Key(NumberId(professorId, code.value))
    else if !Present(code) then MissingCode("course_code required for course_specific summaries")
    else Key(CourseId(professorId, code.value))
  }

  lemma SuffixInjective(p: string, a: string, b: string)
    requires p + a == p + b
    ensures a == b
  {
    assert a == (p + a)[|p|..];
  }

  /** Within one professor, distinct codes give distinct ids of each kind. */
  lemma GroupIdInjective(professorId: string, a: string, b: string, numbered: bool)
    requires GroupId(professorId, a, numbered) == GroupId(professorId, b, numbered)
    ensures a == b
  {
    if numbered {
      SuffixInjective(professorId + "_NUM", a, b);
    } else {
      SuffixInjective(professorId + "_", a, b);
    }
  }

  /**
   * `get_summary` looks up exactly the ids the creators store under: the
   * overall id for "overall", and for a non-empty code the group id of the
   * kind asked for; it raises exactly when a course or number summary is
   * asked for without a code.
   */
  lemma SummaryKeySpec(professorId: string, code: Option<string>, summaryType: string,
                       reviews: seq<ReviewData>, members: seq<ReviewData>, m: Models)
    ensures SummaryKeyFor(professorId, code, summaryType).MissingCode? <==> summaryType != "overall" && !Present(code)
    ensures summaryType == "overall" ==> SummaryKeyFor(professorId, code, summaryType) == Key(OverallRecord(professorId, reviews, m).id)
    ensures Present(code) && summaryType == GroupType(true) ==>
      SummaryKeyFor(professorId, code, summaryType) == Key(GroupRecord(professorId, code.value, members, true, m).id)
    ensures Present(code) && summaryType == GroupType(false) ==>
      SummaryKeyFor(professorId, code, summaryType) == Key(GroupRecord(professorId, code.value, members, false, m).id)
  {
  }

  // ---------------------------------------------------------------------------
  // The records of one professor's course or course-number groups
  // ---------------------------------------------------------------------------

  /** Groups with fewer than this many reviews get no summary. */
  const MinGroupReviews := 2

  /** The records of the groups with at least two reviews, in key order. */
  function GroupRecords(professorId: string, keys: seq<string>, members: map<string, seq<ReviewData>>,
                        numbered: bool, m: Models): seq<SummaryRecord>
    requires forall k :: k in keys ==> k in members
  {
    if |keys| == 0 then []
    else
      var k := keys[|keys| - 1];
      GroupRecords(professorId, keys[..|keys| - 1], members, numbered, m) +
        (if |members[k]| < MinGroupReviews then [] else [GroupRecord(professorId, k, members[k], numbered, m)])
  }

  /** A record that stands for the group of key `k`. */
  predicate RecordOf(professorId: string, keys: seq<string>, members: map<string, seq<ReviewData>>,
                     numbered: bool, m: Models, rec: SummaryRecord)
    requires forall k :: k in keys ==> k in members
  {
    rec.courseCode.Some? && rec.courseCode.value in keys &&
    |members[rec.courseCode.value]| >= MinGroupReviews &&
    rec == GroupRecord(professorId, rec.courseCode.value, members[rec.courseCode.value], numbered, m)
  }

  /** Every record is the record of a group with at least two reviews. */
  lemma {:induction false} GroupRecordsSound(professorId: string, keys: seq<string>, members: map<string, seq<ReviewData>>,
                                             numbered: bool, m: Models)
    requires forall k :: k in keys ==> k in members
    ensures forall rec :: rec in GroupRecords(professorId, keys, members, numbered, m) ==>
      RecordOf(professorId, keys, members, numbered, m, rec)
  {
    if |keys| > 0 {
      var n := |keys| - 1;
      var init := keys[..n];
      GroupRecordsSound(professorId, init, members, numbered, m);
      forall rec | rec in GroupRecords(professorId, init, members, numbered, m)
        ensures RecordOf(professorId, keys, members, numbered, m, rec)
      {
        assert RecordOf(professorId, init, members, numbered, m, rec);
      }
    }
  }

  /** A group with at least two reviews has its record. */
  lemma {:induction false} GroupRecordFound(professorId: string, keys: seq<string>, members: map<string, seq<ReviewData>>,
                                            numbered: bool, m: Models, k: string)
    requires forall j :: j in keys ==> j in members
    requires k in keys && |members[k]| >= MinGroupReviews
    ensures GroupRecord(professorId, k, members[k], numbered, m) in GroupRecords(professorId, keys, members, numbered, m)
  {
    var n := |keys| - 1;
    if k == keys[n] {
      GroupRecordsStep(professorId, keys, members, numbered, m, n);
      assert keys[..n + 1] == keys;
    } else {
      InInit(keys, k);
      GroupRecordFound(professorId, keys[..n], members, numbered, m, k);
      GroupRecordsStep(professorId, keys, members, numbered, m, n);
      assert keys[..n + 1] == keys;
    }
  }

  lemma InInit<T>(xs: seq<T>, x: T)
    requires x in xs && x != xs[|xs| - 1]
    ensures x in xs[..|xs| - 1]
  {
    var i :| 0 <= i < |xs| && xs[i] == x;
    assert xs[..|xs| - 1][i] == x;
  }

  /** Every group with at least two reviews has its record. */
  lemma GroupRecordsComplete(professorId: string, keys: seq<string>, members: map<string, seq<ReviewData>>,
                             numbered: bool, m: Models)
    requires forall k :: k in keys ==> k in members
    ensures forall k :: k in keys && |members[k]| >= MinGroupReviews ==>
      GroupRecord(professorId, k, members[k], numbered, m) in GroupRecords(professorId, keys, members, numbered, m)
  {
    forall k | k in keys && |members[k]| >= MinGroupReviews
      ensures GroupRecord(professorId, k, members[k], numbered, m) in GroupRecords(professorId, keys, members, numbered, m)
    {
      GroupRecordFound(professorId, keys, members, numbered, m, k);
    }
  }

  lemma NoDuplicatesPrefix<T>(xs: seq<T>, n: nat)
    requires n <= |xs| && NoDuplicates(xs)
    ensures NoDuplicates(xs[..n])
  {
    forall a, b | 0 <= a < b < n ensures xs[..n][a] != xs[..n][b] {
      assert xs[..n][a] == xs[a] && xs[..n][b] == xs[b];
    }
  }

  /** A new group's record has an id no earlier record has. */
  lemma FreshGroupId(professorId: string, keys: seq<string>, members: map<string, seq<ReviewData>>,
                     numbered: bool, m: Models, k: string)
    requires forall j :: j in keys ==> j in members
    requires k !in keys
    ensures GroupId(professorId, k, numbered) !in IdsOf(GroupRecords(professorId, keys, members, numbered, m))
  {
    var prev := GroupRecords(professorId, keys, members, numbered, m);
    GroupRecordsSound(professorId, keys, members, numbered, m);
    forall q | 0 <= q < |prev| ensures prev[q].id != GroupId(professorId, k, numbered) {
      assert prev[q] in prev;
      assert RecordOf(professorId, keys, members, numbered, m, prev[q]);
      if prev[q].id == GroupId(professorId, k, numbered) {
        GroupIdInjective(professorId, prev[q].courseCode.value, k, numbered);
      }
    }
  }

  /** With distinct keys, the records' ids are distinct. */
  lemma {:induction false} GroupRecordsDistinct(professorId: string, keys: seq<string>, members: map<string, seq<ReviewData>>,
                                                numbered: bool, m: Models)
    requires forall k :: k in keys ==> k in members
    requires NoDuplicates(keys)
    ensures NoDuplicates(IdsOf(GroupRecords(professorId, keys, members, numbered, m)))
  {
    if |keys| > 0 {
      var n := |keys| - 1;
      var k := keys[n];
      var init := keys[..n];
      NoDuplicatesPrefix(keys, n);
      GroupRecordsDistinct(professorId, init, members, numbered, m);
      var prev := GroupRecords(professorId, init, members, numbered, m);
      if |members[k]| >= MinGroupReviews {
        assert k !in init;
        FreshGroupId(professorId, init, members, numbered, m, k);
        IdsSnocDistinct(prev, GroupRecord(professorId, k, members[k], numbered, m));
      } else {
        assert prev + [] == prev;
      }
    }
  }

  lemma IdsSnocDistinct(recs: seq<SummaryRecord>, rec: SummaryRecord)
    requires NoDuplicates(IdsOf(recs)) && rec.id !in IdsOf(recs)
    ensures NoDuplicates(IdsOf(recs + [rec]))
  {
    UpsertAllStep(map[], recs, rec);
  }

  lemma GroupRecordsStep(professorId: string, keys: seq<string>, members: map<string, seq<ReviewData>>,
                         numbered: bool, m: Models, i: nat)
    requires i < |keys| && forall k :: k in keys ==> k in members
    ensures var k := keys[i];
      GroupRecords(professorId, keys[..i + 1], members, numbered, m) ==
        GroupRecords(professorId, keys[..i], members, numbered, m) +
        (if |members[k]| < MinGroupReviews then [] else [GroupRecord(professorId, k, members[k], numbered, m)])
  {
    assert keys[..i + 1][..i] == keys[..i];
  }

  lemma UpsertAllStep(records: map<string, SummaryRecord>, recs: seq<SummaryRecord>, rec: SummaryRecord)
    ensures UpsertAll(records, recs + [rec]) == Upserted(UpsertAll(records, recs), rec)
    ensures IdsOf(recs + [rec]) == IdsOf(recs) + [rec.id]
  {
    assert (recs + [rec])[..|recs|] == recs;
  }

  /** Every record upserted is found under its id afterwards, with its content. */
  lemma {:induction false} UpsertAllFinds(records: map<string, SummaryRecord>, recs: seq<SummaryRecord>)
    requires NoDuplicates(IdsOf(recs))
    ensures forall rec :: rec in recs ==> rec.id in UpsertAll(records, recs) && SameContent(UpsertAll(records, recs)[rec.id], rec)
  {
    if |recs| > 0 {
      var n := |recs| - 1;
      var last := recs[n];
      assert NoDuplicates(IdsOf(recs[..n])) by {
        forall a, b | 0 <= a < b < |recs[..n]| ensures IdsOf(recs[..n])[a] != IdsOf(recs[..n])[b] {
          assert IdsOf(recs)[a] != IdsOf(recs)[b];
        }
      }
      UpsertAllFinds(records, recs[..n]);
      forall rec | rec in recs
        ensures rec.id in UpsertAll(records, recs) && SameContent(UpsertAll(records, recs)[rec.id], rec)
      {
        if rec != last {
          var x :| 0 <= x < |recs| && recs[x] == rec;
          assert x < n;
          assert IdsOf(recs)[x] != IdsOf(recs)[n];
          assert rec in recs[..n];
        }
      }
    }
  }

  /**
   * After the groups are upserted, `get_summary` with a group's non-empty
   * code and kind finds a record holding that group's summary, for every
   * group with at least two reviews.
   */
  lemma CreatedGroupFound(before: map<string, SummaryRecord>, professorId: string, keys: seq<string>,
                          members: map<string, seq<ReviewData>>, numbered: bool, m: Models, k: string)
    requires forall j :: j in keys ==> j in members
    requires NoDuplicates(keys) && k in keys && |members[k]| >= MinGroupReviews && k != ""
    ensures var after := UpsertAll(before, GroupRecords(professorId, keys, members, numbered, m));
      var key := SummaryKeyFor(professorId, Some(k), GroupType(numbered));
      key.Key? && key.id in after && SameContent(after[key.id], GroupRecord(professorId, k, members[k], numbered, m))
  {
    var recs := GroupRecords(professorId, keys, members, numbered, m);
    var rec := GroupRecord(professorId, k, members[k], numbered, m);
    var after := UpsertAll(before, recs);
    assert rec in recs by { GroupRecordFound(professorId, keys, members, numbered, m, k); }
    assert NoDuplicates(IdsOf(recs)) by { GroupRecordsDistinct(professorId, keys, members, numbered, m); }
    assert rec.id in after && SameContent(after[rec.id], rec) by { UpsertAllFinds(before, recs); }
    assert SummaryKeyFor(professorId, Some(k), GroupType(numbered)) == Key(rec.id) by {
      SummaryKeySpec(professorId, Some(k), GroupType(numbered), [], members[k], m);
    }
  }

  // ---------------------------------------------------------------------------
  // The summaries table and the create, get and process operations
  // ---------------------------------------------------------------------------

  /** What `get_summary` gives: the record under the id (if any), or the error it raises. */
  datatype Lookup = Found(record: Option<SummaryRecord>) | Raised(message: string)

  /** The summaries table, keyed by summary id. */
  class SummaryStore {
    var records: map<string, SummaryRecord>

    /** Every record is stored under its own id. */
    ghost predicate Valid()
      reads this
    {
      forall id :: id in records ==> records[id].id == id
    }

    constructor()
      ensures records == map[] && Valid()
    {
      records := map[];
    }

    /** The upsert of the create operations: the existing record gets the new content, or the record is added. */
    method Upsert(rec: SummaryRecord)
      requires Valid()
      modifies this
      ensures Valid()
      ensures records == Upserted(old(records), rec)
    {
      if rec.id in records {
        var existing := records[rec.id];
        records := records[rec.id := existing.(summaryText := rec.summaryText, totalReviews := rec.totalReviews,
                                               commonTags := rec.commonTags, tagFrequencies := rec.tagFrequencies)];
      } else {
        records := records[rec.id := rec];
      }
    }

    /**
     * `get_summary`: it raises exactly when a course or number summary is
     * asked for without a code; otherwise it finds the record stored under
     * the id the creators use, when there is one.
     */
    function GetSummary(professorId: string, code: Option<string>, summaryType: string): (r: Lookup)
      reads this
      ensures r.Raised? <==> summaryType != "overall" && !Present(code)
      ensures r.Found? ==> (r.record.Some? <==> SummaryKeyFor(professorId, code, summaryType).id in records)
      ensures r.Found? && r.record.Some? ==> r.record.value == records[SummaryKeyFor(professorId, code, summaryType).id]
    {
      match SummaryKeyFor(professorId, code, summaryType)
      case MissingCode(message) => Raised(message)
      case Key(id) => Found(if id in records then Some(records[id]) else None)
    }
  }

  /** The record of one group, built step by step. */
  method BuildGroupRecord(professorId: string, code: string, group: seq<ReviewData>, numbered: bool, m: Models)
    returns (rec: SummaryRecord)
    ensures rec == GroupRecord(professorId, code, group, numbered, m)
  {
    var text := SummarizeReviews(group, false, m);
    assert text == TextFn(false, m)(group);
    var commonTags, tagFrequencies := AggregateTags(group);
    rec := SummaryRecord(GroupId(professorId, code, numbered), professorId, Some(code), GroupType(numbered),
                         text, |group|, commonTags, tagFrequencies);
  }

  /** One group of the loop: skipped with fewer than two reviews, else summarised and upserted. */
  method SummarizeGroup(store: SummaryStore, professorId: string, code: string, group: seq<ReviewData>,
                        numbered: bool, m: Models) returns (id: Option<string>)
    requires store.Valid()
    modifies store
    ensures store.Valid()
    ensures |group| < MinGroupReviews ==> id == None && store.records == old(store.records)
    ensures |group| >= MinGroupReviews ==> id == Some(GroupId(professorId, code, numbered))
    ensures |group| >= MinGroupReviews ==>
      store.records == Upserted(old(store.records), GroupRecord(professorId, code, group, numbered, m))
  {
    if |group| < MinGroupReviews {
      return None;
    }
    var rec := BuildGroupRecord(professorId, code, group, numbered, m);
    store.Upsert(rec);
    id := Some(rec.id);
  }

  /** One pass of the loop over the groups keeps its invariant for the next prefix of the keys. */
  lemma GroupStepInv(start: map<string, SummaryRecord>, before: map<string, SummaryRecord>, after: map<string, SummaryRecord>,
                     ids: seq<string>, id: Option<string>, professorId: string, keys: seq<string>,
                     members: map<string, seq<ReviewData>>, numbered: bool, m: Models, i: nat)
    requires i < |keys| && forall k :: k in keys ==> k in members
    requires forall k :: k in keys[..i + 1] ==> k in members
    requires ids == IdsOf(GroupRecords(professorId, keys[..i], members, numbered, m))
    requires before == UpsertAll(start, GroupRecords(professorId, keys[..i], members, numbered, m))
    requires |members[keys[i]]| < MinGroupReviews ==> id == None && after == before
    requires |members[keys[i]]| >= MinGroupReviews ==>
      id == Some(GroupId(professorId, keys[i], numbered)) &&
      after == Upserted(before, GroupRecord(professorId, keys[i], members[keys[i]], numbered, m))
    ensures (if id.Some? then ids + [id.value] else ids) == IdsOf(GroupRecords(professorId, keys[..i + 1], members, numbered, m))
    ensures after == UpsertAll(start, GroupRecords(professorId, keys[..i + 1], members, numbered, m))
  {
    var k := keys[i];
    var recs := GroupRecords(professorId, keys[..i], members, numbered, m);
    GroupRecordsStep(professorId, keys, members, numbered, m, i);
    if |members[k]| >= MinGroupReviews {
      var rec := GroupRecord(professorId, k, members[k], numbered, m);
      UpsertAllStep(start, recs, rec);
    } else {
      assert recs + [] == recs;
    }
  }

  /** The body of the loop over the groups, for the key at `i`. */
  method SummarizeNextGroup(store: SummaryStore, ghost start: map<string, SummaryRecord>, ids0: seq<string>,
                            professorId: string, keys: seq<string>, members: map<string, seq<ReviewData>>,
                            numbered: bool, m: Models, i: nat) returns (ids: seq<string>)
    requires i < |keys| && (forall k :: k in keys ==> k in members) && (forall k :: k in keys[..i + 1] ==> k in members)
    requires store.Valid()
    requires ids0 == IdsOf(GroupRecords(professorId, keys[..i], members, numbered, m))
    requires store.records == UpsertAll(start, GroupRecords(professorId, keys[..i], members, numbered, m))
    modifies store
    ensures store.Valid()
    ensures ids == IdsOf(GroupRecords(professorId, keys[..i + 1], members, numbered, m))
    ensures store.records == UpsertAll(start, GroupRecords(professorId, keys[..i + 1], members, numbered, m))
  {
    var k := keys[i];
    ghost var before := store.records;
    var id := SummarizeGroup(store, professorId, k, members[k], numbered, m);
    GroupStepInv(start, before, store.records, ids0, id, professorId, keys, members, numbered, m, i);
    ids := if id.Some? then ids0 + [id.value] else ids0;
  }

  /** The loop over the groups: groups with fewer than two reviews are skipped, the others upserted. */
  method SummarizeGroups(store: SummaryStore, professorId: string, grouped: Groups<string, ReviewData>,
                         numbered: bool, m: Models) returns (ids: seq<string>)
    requires WellFormed(grouped) && store.Valid()
    modifies store
    ensures store.Valid()
    ensures ids == IdsOf(GroupRecords(professorId, grouped.keys, grouped.members, numbered, m))
    ensures store.records == UpsertAll(old(store.records), GroupRecords(professorId, grouped.keys, grouped.members, numbered, m))
  {
    ids := [];
    ghost var start := store.records;
    for i := 0 to |grouped.keys|
      invariant store.Valid()
      invariant forall k :: k in grouped.keys[..i] ==> k in grouped.members
      invariant ids == IdsOf(GroupRecords(professorId, grouped.keys[..i], grouped.members, numbered, m))
      invariant store.records == UpsertAll(start, GroupRecords(professorId, grouped.keys[..i], grouped.members, numbered, m))
    {
      assert forall j :: j in grouped.keys[..i + 1] ==> j in grouped.members;
      ids := SummarizeNextGroup(store, start, ids, professorId, grouped.keys, grouped.members, numbered, m, i);
    }
    assert grouped.keys[..|grouped.keys|] == grouped.keys;
  }

  /** `create_overall_summary`: nothing for a professor without reviews, else the overall record upserted. */
  method CreateOverallSummary(store: SummaryStore, professorId: string, reviews: seq<ReviewData>, m: Models)
    returns (id: Option<string>)
    requires store.Valid()
    modifies store
    ensures store.Valid()
    ensures reviews == [] ==> id == None && store.records == old(store.records)
    ensures reviews != [] ==> id == Some(OverallId(professorId))
    ensures reviews != [] ==> store.records == Upserted(old(store.records), OverallRecord(professorId, reviews, m))
  {
    if reviews == [] {
      return None;
    }
    var text := SummarizeReviews(reviews, true, m);
    assert text == TextFn(true, m)(reviews);
    var commonTags, tagFrequencies := AggregateTags(reviews);
    var rec := SummaryRecord(OverallId(professorId), professorId, None, "overall", text, |reviews|, commonTags, tagFrequencies);
    store.Upsert(rec);
    id := Some(rec.id);
  }

  /** `create_course_specific_summaries`: the reviews grouped by normalized code, each group of two or more summarized. */
  method CreateCourseSpecificSummaries(summarizer: ReviewSummarizer, store: SummaryStore, professorId: string,
                                       reviews: seq<ReviewData>, m: Models) returns (ids: seq<string>)
    requires store.Valid()
    modifies store
    ensures store.Valid()
    ensures WellFormed(GroupBy(reviews, CodeKeyOf(summarizer.CurrentTables())))
    ensures reviews == [] ==> ids == [] && store.records == old(store.records)
    ensures reviews != [] ==>
      var g := GroupBy(reviews, CodeKeyOf(summarizer.CurrentTables()));
      ids == IdsOf(GroupRecords(professorId, g.keys, g.members, false, m)) &&
      store.records == UpsertAll(old(store.records), GroupRecords(professorId, g.keys, g.members, false, m))
  {
    GroupBySizes(reviews, CodeKeyOf(summarizer.CurrentTables()));
    if reviews == [] {
      return [];
    }
    var grouped := summarizer.GroupReviewsByNormalizedCourse(reviews, false, None);
    ids := SummarizeGroups(store, professorId, grouped, false, m);
  }

  /** The department `get_professor_primary_department` picks: the most frequent, ties to the first seen, "UNKN" when none. */
  predicate IsPrimaryDept(t: Tables, reviews: seq<ReviewData>, dept: string) {
    var ds := Depts(t, reviews);
    (ds == [] ==> dept == "UNKN") && (ds != [] ==> IsFirstMax(ds, dept))
  }

  /** The outcome of the course-number summaries under the department `dept`. */
  predicate NumberSummariesOf(t: Tables, professorId: string, reviews: seq<ReviewData>, m: Models, dept: string,
                              ids: seq<string>, before: map<string, SummaryRecord>, after: map<string, SummaryRecord>) {
    var g := GroupBy(reviews, NumberKeyOf(t, dept));
    IsPrimaryDept(t, reviews, dept) && WellFormed(g) &&
    ids == IdsOf(GroupRecords(professorId, g.keys, g.members, true, m)) &&
    after == UpsertAll(before, GroupRecords(professorId, g.keys, g.members, true, m))
  }

  /** `create_course_number_summaries`: the reviews grouped by course number under the primary department. */
  method CreateCourseNumberSummaries(summarizer: ReviewSummarizer, store: SummaryStore, professorId: string,
                                     reviews: seq<ReviewData>, m: Models) returns (ids: seq<string>)
    requires store.Valid()
    modifies store
    ensures store.Valid()
    ensures reviews == [] ==> ids == [] && store.records == old(store.records)
    ensures reviews != [] ==> exists dept :: NumberSummariesOf(summarizer.CurrentTables(), professorId, reviews, m, dept, ids,
                                                               old(store.records), store.records)
  {
    if reviews == [] {
      return [];
    }
    var professorDept := summarizer.PrimaryDepartment(reviews);
    var grouped := summarizer.GroupReviewsByCourseNumber(reviews, professorDept);
    GroupBySizes(reviews, NumberKeyOf(summarizer.CurrentTables(), professorDept));
    ids := SummarizeGroups(store, professorId, grouped, true, m);
    assert NumberSummariesOf(summarizer.CurrentTables(), professorId, reviews, m, professorDept, ids,
                             old(store.records), store.records);
  }

  /** The dictionary `process_professor` returns; the error field is left out with the exceptions. */
  datatype ProcessResult = ProcessResult(
    professorId: string,
    overallSummaryId: Option<string>,
    courseSummaryIds: seq<string>,
    courseNumberSummaryIds: seq<string>)

  /**
   * `process_professor`: the overall summary, then (when asked) the
   * course-number summaries; the course-specific step is disabled, so its
   * list stays empty.
   */
  method ProcessProfessor(summarizer: ReviewSummarizer, store: SummaryStore, professorId: string,
                          reviews: seq<ReviewData>, includeCourseNumbers: bool, m: Models) returns (result: ProcessResult)
    requires store.Valid()
    modifies store
    ensures store.Valid()
    ensures result.professorId == professorId && result.courseSummaryIds == []
    ensures result.overallSummaryId == if reviews == [] then None else Some(OverallId(professorId))
    ensures !includeCourseNumbers || reviews == [] ==> result.courseNumberSummaryIds == []
    ensures reviews == [] ==> store.records == old(store.records)
    ensures reviews != [] && !includeCourseNumbers ==>
      store.records == Upserted(old(store.records), OverallRecord(professorId, reviews, m))
    ensures reviews != [] && includeCourseNumbers ==>
      exists dept :: NumberSummariesOf(summarizer.CurrentTables(), professorId, reviews, m, dept, result.courseNumberSummaryIds,
                                       Upserted(old(store.records), OverallRecord(professorId, reviews, m)), store.records)
  {
    var overallId := CreateOverallSummary(store, professorId, reviews, m);
    var numberIds: seq<string> := [];
    if includeCourseNumbers {
      numberIds := CreateCourseNumberSummaries(summarizer, store, professorId, reviews, m);
    }
    result := ProcessResult(professorId, overallId, [], numberIds);
  }
}
