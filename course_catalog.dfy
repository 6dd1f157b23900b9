// The course-catalog scraper's parsing of one course block, at the level of
// text: the title, the credit and hour counts, the prerequisite text and the
// prerequisite course groups, the corequisites, the cross-listings, and the
// department page's filter on parsed codes. BeautifulSoup is not modelled: a
// block arrives as the texts it hands the parser (the title text, the hours
// text, the description text and the texts of the course links).
module CourseCatalog {
  import opened Common
  import opened Json

  // ---------------------------------------------------------------------------
  // Regular-expression building blocks. Every pattern the parser uses is
  // written out as a matcher: `At(s, i)` is None when the pattern does not
  // match at position i, and otherwise says where the match (or its group)
  // ends. Character classes are disjoint, so greedy matching never needs to
  // backtrack except where a matcher says so.
  // ---------------------------------------------------------------------------

  /** End of the run of characters satisfying `p` that starts at `i` (a greedy `p*`). */
  function Skip(s: string, i: nat, p: char -> bool): (j: nat)
    requires i <= |s|
    ensures i <= j <= |s|
    ensures forall k :: i <= k < j ==> p(s[k])
    ensures j < |s| ==> !p(s[j])
    decreases |s| - i
  {
    if i < |s| && p(s[i]) then Skip(s, i + 1, p) else i
  }

  /** A run of `p` characters from `i` to `j` that `s[j]` does not extend is what Skip finds. */
  lemma {:induction false} SkipExact(s: string, i: nat, j: nat, p: char -> bool)
    requires i <= j <= |s|
    requires forall k :: i <= k < j ==> p(s[k])
    requires j < |s| ==> !p(s[j])
    ensures Skip(s, i, p) == j
    decreases j - i
  {
    if i < j {
      SkipExact(s, i + 1, j, p);
    }
  }

  /** `s[i..]` starts with `lit`. */
  predicate LitAt(s: string, i: nat, lit: string) {
    i + |lit| <= |s| && s[i..i + |lit|] == lit
  }

  /** `s[i..]` starts with `lit` in any letter case; `lit` is written in lower case. */
  predicate LitAtCI(s: string, i: nat, lit: string) {
    i + |lit| <= |s| && Lower(s[i..i + |lit|]) == lit
  }

  /** `w0\s+w1\s+...` at `i` in any letter case: where the phrase ends. */
  function PhraseEnd(s: string, i: nat, words: seq<string>): (r: Option<nat>)
    ensures r.Some? ==> i <= r.value <= |s|
    decreases |words|
  {
    if i > |s| then None
    else if words == [] then Some(i)
    else if !LitAtCI(s, i, words[0]) then None
    else if |words| == 1 then Some(i + |words[0]|)
    else
      var j := i + |words[0]|;
      var k := Skip(s, j, IsSpace);
      if k == j then None else PhraseEnd(s, k, words[1..])
  }

  /** `re.search`: the leftmost position in `[i, n)` where `at` matches, and what it yields there. */
  function Search<T>(at: nat -> Option<T>, i: nat, n: nat): (r: Option<(nat, T)>)
    ensures r.Some? ==> i <= r.value.0 < n && at(r.value.0) == Some(r.value.1)
    ensures r.Some? ==> forall k :: i <= k < r.value.0 ==> at(k).None?
    ensures r.None? ==> forall k :: i <= k < n ==> at(k).None?
    decreases n - i
  {
    if i >= n then None
    else if at(i).Some? then Some((i, at(i).value))
    else Search(at, i + 1, n)
  }

  /** A match at `k` with nothing matching earlier is what Search finds. */
  lemma {:induction false} SearchFinds<T>(at: nat -> Option<T>, i: nat, k: nat, n: nat)
    requires i <= k < n && at(k).Some?
    requires forall j :: i <= j < k ==> at(j).None?
    ensures Search(at, i, n) == Some((k, at(k).value))
    decreases k - i
  {
    if i < k {
      SearchFinds(at, i + 1, k, n);
    }
  }

  /** A phrase matcher for Search. */
  function Phrase(s: string, words: seq<string>): nat -> Option<nat> {
    (k: nat) => PhraseEnd(s, k, words)
  }

  /** `re.search(phrase, s, re.IGNORECASE)` succeeds. */
  predicate HasPhrase(s: string, words: seq<string>) {
    Search(Phrase(s, words), 0, |s| + 1).Some?
  }

  function Literal(s: string, lit: string): nat -> Option<nat> {
    (k: nat) => if LitAt(s, k, lit) then Some(k + |lit|) else None
  }

  /** Python's `s.find(sub)`: the first index of `sub`, or -1. */
  function Find(s: string, sub: string): (r: int)
    ensures r == -1 || (0 <= r && LitAt(s, r, sub))
    ensures r == -1 ==> forall k :: 0 <= k <= |s| ==> !LitAt(s, k, sub)
    ensures r >= 0 ==> forall k :: 0 <= k < r ==> !LitAt(s, k, sub)
  {
    assert forall k: nat :: Literal(s, sub)(k) == (if LitAt(s, k, sub) then Some(k + |sub|) else None);
    match Search(Literal(s, sub), 0, |s| + 1)
    case Some(m) => m.0
    case None => -1
  }

  /** `text.replace("\xa0", " ")`. */
  function NbspToSpace(s: string): (r: string)
    ensures |r| == |s| && forall i :: 0 <= i < |s| ==> r[i] == (if s[i] == '\U{00A0}' then ' ' else s[i])
  {
    seq(|s|, i requires 0 <= i < |s| => if s[i] == '\U{00A0}' then ' ' else s[i])
  }

  /** `re.sub(r"\s+", " ", text.replace("\xa0", " "))`, applied to titles and link texts. */
  function Normalize(s: string): string {
    CollapseSpaces(NbspToSpace(s))
  }

  /** Text with no line break, as every normalized text is. */
  predicate OneLine(s: string) {
    forall i :: 0 <= i < |s| ==> s[i] != '\n'
  }

  lemma NormalizedOneLine(s: string)
    ensures OneLine(Normalize(s))
  {
    var r := Normalize(s);
    forall i | 0 <= i < |r| ensures r[i] != '\n' {
      if r[i] == '\n' {
        assert IsSpace(r[i]);
      }
    }
  }

  // ---------------------------------------------------------------------------
  // Course codes and the title (parse_course_block, title element)
  // ---------------------------------------------------------------------------

  /**
   * `[A-Z]+\s+\d+[A-Z]*` at `i`: where the code ends. With `letter` =
   * IsAlpha it is the same pattern under re.IGNORECASE.
   */
  function CodeEnd(s: string, i: nat, letter: char -> bool): (r: Option<nat>)
    requires forall c :: letter(c) ==> !IsSpace(c) && !IsDigit(c)
    ensures r.Some? ==> i < r.value <= |s|
  {
    if i > |s| then None
    else
      var a := Skip(s, i, letter);
      var b := Skip(s, a, IsSpace);
      var c := Skip(s, b, IsDigit);
      if a > i && b > a && c > b then Some(Skip(s, c, letter)) else None
  }

  /** A course title: its code, its name, and the code a slash title lists it with. */
  datatype Title = Title(code: string, name: string, crossListing: Option<string>)

  /**
   * `\s+(.+)$` at `i` on a one-line text: where the captured name starts.
   * When the whitespace run reaches the end, `\s+` gives its last character
   * back to `.+`, provided the run is at least two long.
   */
  function NameStart(s: string, i: nat): (r: Option<nat>)
    requires i <= |s|
    ensures r.Some? ==> i < r.value < |s|
  {
    var j := Skip(s, i, IsSpace);
    if j > i && j < |s| then Some(j)
    else if j == |s| && j - i >= 2 then Some(|s| - 1)
    else None
  }

  /** `/[A-Z]+\s+\d+[A-Z]*` right after the first code ending at `e`: where the second code ends. */
  function CrossEnd(s: string, e: nat): (r: Option<nat>)
    ensures r.Some? ==> e + 1 < r.value <= |s|
  {
    if e < |s| && s[e] == '/' then CodeEnd(s, e + 1, IsUpper) else None
  }

  /**
   * The two title patterns on a normalized title: "DEPT NUM/DEPT NUM Name"
   * first, then "DEPT NUM Name"; the name is stripped.
   */
  function MatchTitle(s: string): (r: Option<Title>)
    requires OneLine(s)
  {
    match CodeEnd(s, 0, IsUpper)
    case None => None
    case Some(e) =>
      var slash := SlashTitle(s, e);
      if slash.Some? then slash else PlainTitle(s, e)
  }

  /** `DEPT NUM/DEPT NUM\s+(.+)$` once the first code ends at `e`. */
  function SlashTitle(s: string, e: nat): Option<Title>
    requires e <= |s|
  {
    match CrossEnd(s, e)
    case None => None
    case Some(f) =>
      match NameStart(s, f)
      case None => None
      case Some(n) => Some(Title(s[..e], Strip(s[n..]), Some(s[e + 1..f])))
  }

  /** `DEPT\s+NUM\s+(.+)$` once the code ends at `e`; the code is rebuilt with one space. */
  function PlainTitle(s: string, e: nat): Option<Title>
    requires e <= |s|
  {
    match NameStart(s, e)
    case None => None
    case Some(n) =>
      var a := Skip(s, 0, IsUpper);
      var b := Skip(s, a, IsSpace);
      if a <= b <= e then Some(Title(s[..a] + " " + s[b..e], Strip(s[n..]), None)) else None
  }

  /** The title element's text, normalized, matched against the two title patterns. */
  function ParseTitle(raw: string): Option<Title> {
    NormalizedOneLine(raw);
    MatchTitle(Normalize(raw))
  }

  /** A course number: digits, then capital letters (`\d+[A-Z]*`). */
  predicate IsNumber(digits: string, suffix: string) {
    digits != [] && AllDigits(digits) && AllUpper(suffix)
  }

  /**
   * A code laid out as capitals on `[i, a)`, one space, digits on `[b, c)`
   * and capitals on `[c, e)`, followed by a space, a slash or the end, is
   * found whole.
   */
  lemma CodeAt(s: string, i: nat, a: nat, c: nat, e: nat)
    requires i < a && a + 1 < c <= e <= |s|
    requires forall k :: i <= k < a ==> IsUpper(s[k])
    requires s[a] == ' '
    requires forall k :: a + 1 <= k < c ==> IsDigit(s[k])
    requires forall k :: c <= k < e ==> IsUpper(s[k])
    requires e < |s| ==> s[e] == ' ' || s[e] == '/'
    ensures Skip(s, i, IsUpper) == a && Skip(s, a, IsSpace) == a + 1
    ensures CodeEnd(s, i, IsUpper) == Some(e)
  {
    SkipExact(s, i, a, IsUpper);
    SkipExact(s, a, a + 1, IsSpace);
    SkipExact(s, a + 1, c, IsDigit);
    SkipExact(s, c, e, IsUpper);
  }

  /** The layout CodeAt needs, for a code written as "dept digits+suffix" at `i` of `s`. */
  lemma CodeLaidOut(s: string, i: nat, dept: string, digits: string, suffix: string)
    requires dept != [] && AllUpper(dept) && IsNumber(digits, suffix)
    requires i + |dept| + 1 + |digits| + |suffix| <= |s|
    requires s[i..i + |dept| + 1 + |digits| + |suffix|] == dept + " " + digits + suffix
    ensures var a, c := i + |dept|, i + |dept| + 1 + |digits|;
      (forall k :: i <= k < a ==> IsUpper(s[k])) && s[a] == ' ' &&
      (forall k :: a + 1 <= k < c ==> IsDigit(s[k])) &&
      (forall k :: c <= k < c + |suffix| ==> IsUpper(s[k]))
  {
    var code := dept + " " + digits + suffix;
    var a, c := i + |dept|, i + |dept| + 1 + |digits|;
    forall k | i <= k < a ensures IsUpper(s[k]) {
      assert s[k] == code[k - i] == dept[k - i];
    }
    assert s[a] == code[a - i];
    forall k | a + 1 <= k < c ensures IsDigit(s[k]) {
      assert s[k] == code[k - i] == digits[k - a - 1];
    }
    forall k | c <= k < c + |suffix| ensures IsUpper(s[k]) {
      assert s[k] == code[k - i] == suffix[k - c];
    }
  }

  /** A code at the start followed by one space and a name: the plain title pattern applies. */
  lemma MatchPlain(s: string, a: nat, e: nat, code: string)
    requires OneLine(s) && a + 1 < e < |s| - 1
    requires Skip(s, 0, IsUpper) == a && Skip(s, a, IsSpace) == a + 1
    requires CodeEnd(s, 0, IsUpper) == Some(e) && s[e] == ' ' && !IsSpace(s[e + 1])
    requires code == s[..a] + " " + s[a + 1..e]
    ensures MatchTitle(s) == Some(Title(code, Strip(s[e + 1..]), None))
  {
    NameAfter(s, e);
    assert SlashTitle(s, e) == None;
    var n := NameStart(s, e).value;
    assert s[n..] == s[e + 1..];
    assert PlainTitle(s, e) == Some(Title(code, Strip(s[e + 1..]), None));
  }

  /** Two codes joined by a slash, then one space and a name: the slash title pattern applies. */
  lemma MatchSlash(s: string, e: nat, f: nat)
    requires OneLine(s) && e + 1 < f < |s| - 1
    requires CodeEnd(s, 0, IsUpper) == Some(e) && s[e] == '/'
    requires CodeEnd(s, e + 1, IsUpper) == Some(f) && s[f] == ' ' && !IsSpace(s[f + 1])
    ensures MatchTitle(s) == Some(Title(s[..e], Strip(s[f + 1..]), Some(s[e + 1..f])))
  {
    NameAfter(s, f);
    CrossAt(s, e, f);
    SlashFound(s, e, f);
  }

  /** The slash pattern once the second code ends at `f` and the name starts right after it. */
  lemma SlashFound(s: string, e: nat, f: nat)
    requires e < f < |s| && CrossEnd(s, e) == Some(f) && NameStart(s, f) == Some(f + 1)
    ensures SlashTitle(s, e) == Some(Title(s[..e], Strip(s[f + 1..]), Some(s[e + 1..f])))
  {
    var n := NameStart(s, f).value;
    assert s[n..] == s[f + 1..];
  }

  /** A slash at `e` followed by a code ending at `f`: the second code ends at `f`. */
  lemma CrossAt(s: string, e: nat, f: nat)
    requires e < |s| && s[e] == '/' && CodeEnd(s, e + 1, IsUpper) == Some(f)
    ensures CrossEnd(s, e) == Some(f)
  {
  }

  /** One space and then a non-space: the name starts right after the space. */
  lemma NameAfter(s: string, f: nat)
    requires f + 1 < |s| && s[f] == ' ' && !IsSpace(s[f + 1])
    ensures NameStart(s, f) == Some(f + 1)
  {
    SkipExact(s, f, f + 1, IsSpace);
  }

  /** A code written out at `i`, followed by a space, a slash or the end, is found whole. */
  lemma CodeFound(s: string, i: nat, e: nat, dept: string, digits: string, suffix: string)
    requires dept != [] && AllUpper(dept) && IsNumber(digits, suffix)
    requires e == i + |dept| + 1 + |digits| + |suffix| <= |s|
    requires s[i..e] == dept + " " + digits + suffix
    requires e < |s| ==> s[e] == ' ' || s[e] == '/'
    ensures CodeEnd(s, i, IsUpper) == Some(e)
  {
    CodeLaidOut(s, i, dept, digits, suffix);
    CodeAt(s, i, i + |dept|, i + |dept| + 1 + |digits|, e);
  }

  /** A laid-out plain title: the code, one space and a name starting with a non-space. */
  lemma PlainTitleAt(s: string, dept: string, digits: string, suffix: string)
    requires dept != [] && AllUpper(dept) && IsNumber(digits, suffix)
    requires OneLine(s) && |dept| + 1 + |digits| + |suffix| + 1 < |s|
    requires s[..|dept| + 1 + |digits| + |suffix|] == dept + " " + digits + suffix
    requires s[|dept| + 1 + |digits| + |suffix|] == ' ' && !IsSpace(s[|dept| + 2 + |digits| + |suffix|])
    ensures MatchTitle(s) == Some(Title(dept + " " + digits + suffix, Strip(s[|dept| + 2 + |digits| + |suffix|..]), None))
  {
    var a, e := |dept|, |dept| + 1 + |digits| + |suffix|;
    PlainCodeParts(s, dept, digits, suffix);
    MatchPlain(s, a, e, dept + " " + digits + suffix);
  }

  /** The code of a laid-out plain title is read up to the space before the name. */
  lemma PlainCodeParts(s: string, dept: string, digits: string, suffix: string)
    requires dept != [] && AllUpper(dept) && IsNumber(digits, suffix)
    requires |dept| + 1 + |digits| + |suffix| < |s|
    requires s[..|dept| + 1 + |digits| + |suffix|] == dept + " " + digits + suffix
    requires s[|dept| + 1 + |digits| + |suffix|] == ' '
    ensures var a, e := |dept|, |dept| + 1 + |digits| + |suffix|;
      Skip(s, 0, IsUpper) == a && Skip(s, a, IsSpace) == a + 1 && CodeEnd(s, 0, IsUpper) == Some(e) &&
      s[..a] + " " + s[a + 1..e] == dept + " " + digits + suffix
  {
    var a, e := |dept|, |dept| + 1 + |digits| + |suffix|;
    PlainCodeText(s[..e], dept, digits + suffix);
    assert s[..e][..a] == s[..a] && s[..e][a + 1..] == s[a + 1..e];
    assert s[0..e] == s[..e];
    PlainCodeSkips(s, e, dept, digits, suffix);
  }

  /** Cutting "dept rest" at the department and after the space gives back its two parts. */
  lemma PlainCodeText(t: string, dept: string, rest: string)
    requires t == dept + " " + rest
    ensures t[..|dept|] + " " + t[|dept| + 1..] == t
  {
    assert t[..|dept|] == dept && t[|dept| + 1..] == rest;
  }

  /** The code of a laid-out plain title is read up to the space before the name. */
  lemma PlainCodeSkips(s: string, e: nat, dept: string, digits: string, suffix: string)
    requires dept != [] && AllUpper(dept) && IsNumber(digits, suffix)
    requires e == |dept| + 1 + |digits| + |suffix| < |s|
    requires s[0..e] == dept + " " + digits + suffix && s[e] == ' '
    ensures Skip(s, 0, IsUpper) == |dept| && Skip(s, |dept|, IsSpace) == |dept| + 1
    ensures CodeEnd(s, 0, IsUpper) == Some(e)
  {
    CodeLaidOut(s, 0, dept, digits, suffix);
    CodeAt(s, 0, |dept|, |dept| + 1 + |digits|, e);
  }

  /** "DEPT NUM Name" gives the code "DEPT NUM" and the name, with no cross-listing. */
  lemma TitleRoundTrip(dept: string, digits: string, suffix: string, name: string)
    requires dept != [] && AllUpper(dept) && IsNumber(digits, suffix)
    requires name != [] && !IsSpace(name[0])
    requires OneLine(dept + " " + digits + suffix + " " + name)
    ensures MatchTitle(dept + " " + digits + suffix + " " + name) ==
      Some(Title(dept + " " + digits + suffix, Strip(name), None))
  {
    var code := dept + " " + digits + suffix;
    var s := code + " " + name;
    var e := |code|;
    assert s[..e] == code && s[e] == ' ' && s[e + 1..] == name;
    PlainTitleAt(s, dept, digits, suffix);
  }

  /** A laid-out slash title: two codes joined by '/', one space and a name starting with a non-space. */
  lemma SlashTitleAt(s: string, e: nat, f: nat, dept: string, digits: string, suffix: string,
                     crossDept: string, crossDigits: string, crossSuffix: string)
    requires dept != [] && AllUpper(dept) && IsNumber(digits, suffix)
    requires crossDept != [] && AllUpper(crossDept) && IsNumber(crossDigits, crossSuffix)
    requires e == |dept| + 1 + |digits| + |suffix|
    requires f == e + 1 + |crossDept| + 1 + |crossDigits| + |crossSuffix|
    requires OneLine(s) && f + 1 < |s|
    requires s[0..e] == dept + " " + digits + suffix && s[e] == '/'
    requires s[e + 1..f] == crossDept + " " + crossDigits + crossSuffix
    requires s[f] == ' ' && !IsSpace(s[f + 1])
    ensures MatchTitle(s) == Some(Title(s[..e], Strip(s[f + 1..]), Some(s[e + 1..f])))
  {
    FirstCodeFound(s, e, dept, digits, suffix);
    CrossCodeFound(s, e, f, crossDept, crossDigits, crossSuffix);
    MatchSlash(s, e, f);
  }

  /** The first code of a slash title is found where the slash is. */
  lemma FirstCodeFound(s: string, e: nat, dept: string, digits: string, suffix: string)
    requires dept != [] && AllUpper(dept) && IsNumber(digits, suffix)
    requires e == |dept| + 1 + |digits| + |suffix| < |s|
    requires s[0..e] == dept + " " + digits + suffix && s[e] == '/'
    ensures CodeEnd(s, 0, IsUpper) == Some(e)
  {
    CodeFound(s, 0, e, dept, digits, suffix);
  }

  /** The second code of a slash title, after the slash at `e`, is found where the name's space is. */
  lemma CrossCodeFound(s: string, e: nat, f: nat, crossDept: string, crossDigits: string, crossSuffix: string)
    requires crossDept != [] && AllUpper(crossDept) && IsNumber(crossDigits, crossSuffix)
    requires f == e + 1 + |crossDept| + 1 + |crossDigits| + |crossSuffix| < |s|
    requires s[e + 1..f] == crossDept + " " + crossDigits + crossSuffix && s[f] == ' '
    ensures CodeEnd(s, e + 1, IsUpper) == Some(f)
  {
    var i := e + 1;
    assert s[i..f] == crossDept + " " + crossDigits + crossSuffix;
    assert f == i + |crossDept| + 1 + |crossDigits| + |crossSuffix| <= |s|;
    CodeFound(s, i, f, crossDept, crossDigits, crossSuffix);
  }

  /** "DEPT NUM/DEPT NUM Name" gives the first code, the name, and the second code as a cross-listing. */
  lemma CrossTitleRoundTrip(dept: string, digits: string, suffix: string,
                            crossDept: string, crossDigits: string, crossSuffix: string, name: string)
    requires dept != [] && AllUpper(dept) && IsNumber(digits, suffix)
    requires crossDept != [] && AllUpper(crossDept) && IsNumber(crossDigits, crossSuffix)
    requires name != [] && !IsSpace(name[0])
    requires OneLine(dept + " " + digits + suffix + "/" + crossDept + " " + crossDigits + crossSuffix + " " + name)
    ensures MatchTitle(dept + " " + digits + suffix + "/" + crossDept + " " + crossDigits + crossSuffix + " " + name) ==
      Some(Title(dept + " " + digits + suffix, Strip(name), Some(crossDept + " " + crossDigits + crossSuffix)))
  {
    var code := dept + " " + digits + suffix;
    var cross := crossDept + " " + crossDigits + crossSuffix;
    var s := code + "/" + cross + " " + name;
    assert s == dept + " " + digits + suffix + "/" + crossDept + " " + crossDigits + crossSuffix + " " + name;
    var e := |code|;
    var f := e + 1 + |cross|;
    assert s[0..e] == code && s[e] == '/' && s[e + 1..f] == cross && s[f] == ' ' && s[f + 1..] == name;
    SlashTitleAt(s, e, f, dept, digits, suffix, crossDept, crossDigits, crossSuffix);
  }

  // ---------------------------------------------------------------------------
  // Credits and hours (parse_course_block, hours span)
  // ---------------------------------------------------------------------------

  /** `\d+(?:\.\d+)?` at `i`: where the numeral ends (`i` when no digit is there). */
  function NumeralEnd(s: string, i: nat): (j: nat)
    requires i <= |s|
    ensures i <= j <= |s|
  {
    var d := Skip(s, i, IsDigit);
    if d > i && d + 1 < |s| && s[d] == '.' && IsDigit(s[d + 1]) then Skip(s, d + 1, IsDigit) else d
  }

  /** `Credit(?:s)?\s+` at `i` in any letter case: where the number starts. */
  function CreditWordEnd(s: string, i: nat): (r: Option<nat>)
    ensures r.Some? ==> i < r.value <= |s|
  {
    if !LitAtCI(s, i, "credit") then None
    else
      var k := i + 6;
      var k1 := if k < |s| && ToLower(s[k]) == 's' then k + 1 else k;
      var j := Skip(s, k1, IsSpace);
      if j > k1 then Some(j) else None
  }

  /** The credit-range pattern at `i`: `float` of its second number. */
  function RangeAt(s: string, i: nat): Option<real> {
    match CreditWordEnd(s, i)
    case None => None
    case Some(p) =>
      var e1 := NumeralEnd(s, p);
      var q := Skip(s, e1, IsSpace);
      var t := if LitAtCI(s, q, "to") then q + 2 else if q < |s| && s[q] == '-' then q + 1 else q;
      var p2 := Skip(s, t, IsSpace);
      var e2 := NumeralEnd(s, p2);
      if e1 > p && t > q && e2 > p2 then Some(DecimalValue(s[p2..e2])) else None
  }

  /** The single-credit pattern at `i`: `float` of its number. */
  function SingleAt(s: string, i: nat): Option<real> {
    match CreditWordEnd(s, i)
    case None => None
    case Some(p) =>
      var e := NumeralEnd(s, p);
      if e > p then Some(DecimalValue(s[p..e])) else None
  }

  function Range(s: string): nat -> Option<real> { (k: nat) => RangeAt(s, k) }
  function Single(s: string): nat -> Option<real> { (k: nat) => SingleAt(s, k) }

  /** Python's `round` on a number: the nearest integer, ties going to the even one. */
  function RoundHalfEven(x: real): (r: int)
    ensures -0.5 <= (r as real) - x <= 0.5
    ensures ((r as real) - x == 0.5 || x - (r as real) == 0.5) ==> r % 2 == 0
  {
    var f := x.Floor;
    var d := x - f as real;
    if d < 0.5 then f else if d > 0.5 then f + 1 else if f % 2 == 0 then f else f + 1
  }

  /** Wherever the range pattern matches, the single pattern matches too. */
  lemma RangeHasSingle(s: string, i: nat)
    requires RangeAt(s, i).Some?
    ensures SingleAt(s, i).Some?
  {
  }

  /**
   * `course_data["credits"]`: the rounded second number of the first credit
   * range, else the rounded number of the first single credit value.
   */
  function Credits(hours: string): (r: Option<int>)
    ensures r.Some? <==> exists k :: 0 <= k < |hours| && SingleAt(hours, k).Some?
  {
    assert forall k: nat :: Single(hours)(k) == SingleAt(hours, k);
    match Search(Range(hours), 0, |hours|)
    case Some(m) =>
      RangeHasSingle(hours, m.0);
      Some(RoundHalfEven(m.1))
    case None =>
      match Search(Single(hours), 0, |hours|)
      case Some(m) => Some(RoundHalfEven(m.1))
      case None => None
  }

  /** The leftmost credit range decides: its second number, rounded. */
  lemma CreditsFromFirstRange(hours: string, k: nat)
    requires k < |hours| && RangeAt(hours, k).Some?
    requires forall j :: 0 <= j < k ==> RangeAt(hours, j).None?
    ensures Credits(hours) == Some(RoundHalfEven(RangeAt(hours, k).value))
  {
    assert forall j: nat :: Range(hours)(j) == RangeAt(hours, j);
    SearchFinds(Range(hours), 0, k, |hours|);
  }

  /** With no credit range anywhere, the leftmost single value decides, rounded. */
  lemma CreditsFromFirstSingle(hours: string, k: nat)
    requires forall j :: 0 <= j < |hours| ==> RangeAt(hours, j).None?
    requires k < |hours| && SingleAt(hours, k).Some?
    requires forall j :: 0 <= j < k ==> SingleAt(hours, j).None?
    ensures Credits(hours) == Some(RoundHalfEven(SingleAt(hours, k).value))
  {
    assert forall j: nat :: Range(hours)(j) == RangeAt(hours, j);
    assert forall j: nat :: Single(hours)(j) == SingleAt(hours, j);
    assert Search(Range(hours), 0, |hours|).None?;
    SearchFinds(Single(hours), 0, k, |hours|);
  }

  /** A run of digits on `[i, i + n)` that neither a digit nor a '.' continues is a whole numeral. */
  lemma NumeralOfDigits(s: string, i: nat, n: nat)
    requires 0 < n && i + n <= |s| && AllDigits(s[i..i + n])
    requires i + n < |s| ==> !IsDigit(s[i + n]) && s[i + n] != '.'
    ensures NumeralEnd(s, i) == i + n
  {
    DigitRun(s, i, i + n);
    SkipExact(s, i, i + n, IsDigit);
  }

  /** A numeral without a fractional part has its digits' value. */
  lemma DecimalOfDigits(a: string)
    requires a != [] && AllDigits(a)
    ensures DecimalValue(a) == DigitsValue(a) as real
  {
    assert DotIndex(a) == |a|;
    assert a[..|a|] == a;
  }

  /** A whole number rounds to itself. */
  lemma RoundWhole(n: int)
    ensures RoundHalfEven(n as real) == n
  {
  }

  /** "Credits " starts `s`, followed by something that is not whitespace: the number starts at 8. */
  lemma CreditWordAtStart(s: string)
    requires |s| > 8 && s[..8] == "Credits " && !IsSpace(s[8])
    ensures CreditWordEnd(s, 0) == Some(8)
  {
    assert s[0..6] == "Credit";
    assert Lower("Credit") == "credit";
    SkipExact(s, 7, 8, IsSpace);
  }

  /** The pieces of the range pattern at `i`, as its matchers find them: the second number is `s[p2..]`. */
  lemma RangeLaidOut(s: string, i: nat, p: nat, e1: nat, q: nat, t: nat, p2: nat)
    requires CreditWordEnd(s, i) == Some(p) && NumeralEnd(s, p) == e1 > p && Skip(s, e1, IsSpace) == q
    requires t == (if LitAtCI(s, q, "to") then q + 2 else if q < |s| && s[q] == '-' then q + 1 else q) && t > q
    requires Skip(s, t, IsSpace) == p2 && p2 < |s| && NumeralEnd(s, p2) == |s|
    ensures RangeAt(s, i) == Some(DecimalValue(s[p2..]))
  {
    assert s[p2..|s|] == s[p2..];
  }

  /** Where each of four concatenated pieces sits. */
  lemma FourPieces<T>(w: seq<T>, x: seq<T>, y: seq<T>, z: seq<T>)
    ensures var s := w + x + y + z;
      s[..|w|] == w && s[|w|..|w| + |x|] == x && s[|w| + |x|..|w| + |x| + |y|] == y && s[|w| + |x| + |y|..] == z
  {
  }

  /** "Credits a to b" and "Credits a-b": the second number. */
  lemma CreditsOfRange(a: string, sep: string, b: string)
    requires a != [] && AllDigits(a) && b != [] && AllDigits(b)
    requires sep == " to " || sep == "-"
    ensures Credits("Credits " + a + sep + b) == Some(DigitsValue(b))
  {
    var s := "Credits " + a + sep + b;
    FourPieces("Credits ", a, sep, b);
    assert s[8] == a[0];
    CreditWordAtStart(s);
    if sep == " to " {
      RangeAtTo(s, |a|);
    } else {
      RangeAtDash(s, |a|);
    }
    CreditsOfRangeText(s, 8 + |a| + |sep|);
  }

  /** "Credits a": the number, there being no range. */
  lemma CreditsOfSingle(a: string)
    requires a != [] && AllDigits(a)
    ensures Credits("Credits " + a) == Some(DigitsValue(a))
  {
    var s := "Credits " + a;
    assert s[..8] == "Credits " && s[8..] == a;
    CreditsOfSingleText(s);
  }

  lemma CreditsOfSingleText(s: string)
    requires |s| > 8 && s[..8] == "Credits " && AllDigits(s[8..])
    ensures Credits(s) == Some(DigitsValue(s[8..]))
  {
    var a := s[8..];
    assert s[8] == a[0] && a == s[8..8 + |a|];
    CreditWordAtStart(s);
    NumeralOfDigits(s, 8, |a|);
    SingleLaidOut(s, 0, 8);
    RangeNeedsSecond(s, 0, 8);
    NoLaterCreditWord(s);
    DecimalOfDigits(a);
    RoundWhole(DigitsValue(a));
    CreditsFromFirstSingle(s, 0);
  }

  /** After "Credits " nothing but digits: no credit word starts past position 0. */
  lemma NoLaterCreditWord(s: string)
    requires |s| > 8 && s[..8] == "Credits " && AllDigits(s[8..])
    ensures forall k :: 0 < k < |s| ==> RangeAt(s, k).None?
  {
    forall k | 0 < k < |s|
      ensures RangeAt(s, k).None?
    {
      if k < 8 {
        assert s[k] == s[..8][k];
      } else {
        assert s[k] == s[8..][k - 8];
      }
      NoCreditWordAt(s, k);
    }
  }

  /** The single pattern at `i` whose number runs to the end of `s`. */
  lemma SingleLaidOut(s: string, i: nat, p: nat)
    requires CreditWordEnd(s, i) == Some(p) && p < |s| && NumeralEnd(s, p) == |s|
    ensures SingleAt(s, i) == Some(DecimalValue(s[p..]))
  {
    assert s[p..|s|] == s[p..];
  }

  /** A range needs something after its first number: a number that runs to the end of `s` is no range. */
  lemma RangeNeedsSecond(s: string, i: nat, p: nat)
    requires CreditWordEnd(s, i) == Some(p) && NumeralEnd(s, p) == |s|
    ensures RangeAt(s, i).None?
  {
  }

  /** No credit word starts at a character other than 'c' or 'C'. */
  lemma NoCreditWordAt(s: string, k: nat)
    requires k < |s| && ToLower(s[k]) != 'c'
    ensures CreditWordEnd(s, k).None? && RangeAt(s, k).None?
  {
    if k + 6 <= |s| {
      assert Lower(s[k..k + 6])[0] == ToLower(s[k]);
    }
  }

  /** A range whose second number is a run of digits to the end of `s` gives that number. */
  lemma CreditsOfRangeText(s: string, p2: nat)
    requires p2 < |s| && AllDigits(s[p2..]) && RangeAt(s, 0) == Some(DecimalValue(s[p2..]))
    ensures Credits(s) == Some(DigitsValue(s[p2..]))
  {
    DecimalOfDigits(s[p2..]);
    RoundWhole(DigitsValue(s[p2..]));
    CreditsFromFirstRange(s, 0);
  }

  /** The first number and the second, a run of digits to the end, start at 8 and `p2`. */
  lemma NumeralsOfRangeText(s: string, n: nat, p2: nat)
    requires 0 < n && 8 + n < p2 < |s| && AllDigits(s[8..8 + n]) && AllDigits(s[p2..])
    requires !IsDigit(s[8 + n]) && s[8 + n] != '.'
    ensures NumeralEnd(s, 8) == 8 + n && NumeralEnd(s, p2) == |s| && !IsSpace(s[p2])
  {
    assert s[p2] == s[p2..][0];
    assert s[p2..] == s[p2..p2 + (|s| - p2)];
    NumeralOfDigits(s, 8, n);
    NumeralOfDigits(s, p2, |s| - p2);
  }

  /** "Credit(s) ", `n` digits, " to ", digits to the end: the range pattern matches at 0. */
  lemma RangeAtTo(s: string, n: nat)
    requires 0 < n && 8 + n + 4 < |s| && CreditWordEnd(s, 0) == Some(8)
    requires AllDigits(s[8..8 + n]) && s[8 + n..8 + n + 4] == " to " && AllDigits(s[8 + n + 4..])
    ensures RangeAt(s, 0) == Some(DecimalValue(s[8 + n + 4..]))
  {
    var e1 := 8 + n;
    assert s[e1] == s[e1..e1 + 4][0];
    NumeralsOfRangeText(s, n, e1 + 4);
    SeparatorTo(s, e1);
    RangeLaidOut(s, 0, 8, e1, e1 + 1, e1 + 3, e1 + 4);
  }

  /** "Credit(s) ", `n` digits, "-", digits to the end: the range pattern matches at 0. */
  lemma RangeAtDash(s: string, n: nat)
    requires 0 < n && 8 + n + 1 < |s| && CreditWordEnd(s, 0) == Some(8)
    requires AllDigits(s[8..8 + n]) && s[8 + n] == '-' && AllDigits(s[8 + n + 1..])
    ensures RangeAt(s, 0) == Some(DecimalValue(s[8 + n + 1..]))
  {
    var e1 := 8 + n;
    NumeralsOfRangeText(s, n, e1 + 1);
    SeparatorDash(s, e1);
    RangeLaidOut(s, 0, 8, e1, e1, e1 + 1, e1 + 1);
  }

  lemma DigitRun(s: string, i: nat, j: nat)
    requires i <= j <= |s| && AllDigits(s[i..j])
    ensures forall k :: i <= k < j ==> IsDigit(s[k])
  {
    assert forall k :: i <= k < j ==> s[k] == s[i..j][k - i];
  }

  /** " to " at `e`, then no whitespace: the matchers step over it. */
  lemma SeparatorTo(s: string, e: nat)
    requires e + 4 < |s| && s[e..e + 4] == " to " && !IsSpace(s[e + 4])
    ensures Skip(s, e, IsSpace) == e + 1 && LitAtCI(s, e + 1, "to") && Skip(s, e + 3, IsSpace) == e + 4
  {
    var m := s[e..e + 4];
    assert s[e] == m[0] && s[e + 1] == m[1] && s[e + 2] == m[2] && s[e + 3] == m[3];
    SkipExact(s, e, e + 1, IsSpace);
    SkipExact(s, e + 3, e + 4, IsSpace);
    var l := Lower(s[e + 1..e + 3]);
    assert l[0] == 't' && l[1] == 'o';
    assert l == "to";
  }

  /** "-" at `e`, then no whitespace: the matchers step over it. */
  lemma SeparatorDash(s: string, e: nat)
    requires e + 1 < |s| && s[e] == '-' && !IsSpace(s[e + 1])
    ensures Skip(s, e, IsSpace) == e && !LitAtCI(s, e, "to") && Skip(s, e + 1, IsSpace) == e + 1
  {
    SkipExact(s, e, e, IsSpace);
    SkipExact(s, e + 1, e + 1, IsSpace);
    if e + 2 <= |s| {
      assert Lower(s[e..e + 2])[0] == '-';
    }
  }

  /** `(\d+)\s+<word>\s+Hours?` at `i` (the word and "hour" in any case when `anyCase`): the number. */
  function HoursAt(s: string, i: nat, word: string, anyCase: bool): Option<nat> {
    if i > |s| then None
    else
      var d := Skip(s, i, IsDigit);
      var w := Skip(s, d, IsSpace);
      if d == i || w == d then None
      else if !(if anyCase then LitAtCI(s, w, Lower(word)) else LitAt(s, w, word)) then None
      else
        var v := w + |word|;
        var h := Skip(s, v, IsSpace);
        if h > v && (if anyCase then LitAtCI(s, h, "hour") else LitAt(s, h, "Hour")) then
          assert forall k :: 0 <= k < d - i ==> s[i..d][k] == s[i + k];
          Some(DigitsValue(s[i..d]))
        else None
  }

  function HoursMatcher(s: string, word: string, anyCase: bool): nat -> Option<nat> {
    (k: nat) => HoursAt(s, k, word, anyCase)
  }

  /** The lecture, lab or other hours: the number before the first "<word> Hour(s)". */
  function Hours(s: string, word: string, anyCase: bool): Option<int> {
    match Search(HoursMatcher(s, word, anyCase), 0, |s|)
    case Some(m) => Some(m.1)
    case None => None
  }

  /** The hours pattern laid out at the start of `s`: digits on `[0, d)`, a space, the word, a space, "Hour". */
  lemma HoursAtStart(s: string, d: nat, word: string, anyCase: bool)
    requires 0 < d < |s| && word != [] && !IsSpace(word[0])
    requires forall k :: 0 <= k < d ==> IsDigit(s[k])
    requires s[d] == ' ' && LitAt(s, d + 1, word)
    requires d + 1 + |word| < |s| && s[d + 1 + |word|] == ' ' && LitAt(s, d + 2 + |word|, "Hour")
    ensures HoursAt(s, 0, word, anyCase) == Some(DigitsValue(s[..d]))
  {
    HoursLaid(s, d, word);
    HoursAtFound(s, d, d + 1, d + 2 + |word|, word, anyCase);
  }

  /** The pieces of the hours pattern laid out at the start of `s`, as the matcher finds them. */
  lemma HoursLaid(s: string, d: nat, word: string)
    requires 0 < d < |s| && word != [] && !IsSpace(word[0])
    requires forall k :: 0 <= k < d ==> IsDigit(s[k])
    requires s[d] == ' ' && LitAt(s, d + 1, word)
    requires d + 1 + |word| < |s| && s[d + 1 + |word|] == ' ' && LitAt(s, d + 2 + |word|, "Hour")
    ensures Skip(s, 0, IsDigit) == d && Skip(s, d, IsSpace) == d + 1
    ensures Skip(s, d + 1 + |word|, IsSpace) == d + 2 + |word|
    ensures LitAtCI(s, d + 1, Lower(word)) && LitAtCI(s, d + 2 + |word|, "hour")
  {
    var v := d + 1 + |word|;
    assert s[d + 1] == s[d + 1..v][0] == word[0];
    assert s[v + 1] == s[v + 1..v + 5][0] == 'H';
    HoursSkips(s, d, v);
    LitsAnyCase(s, d + 1, word);
  }

  /** Digits on `[0, d)` then single spaces at `d` and `v`: where the hours pattern's skips stop. */
  lemma HoursSkips(s: string, d: nat, v: nat)
    requires 0 < d < v < |s| && s[d] == ' ' && s[v] == ' '
    requires forall k :: 0 <= k < d ==> IsDigit(s[k])
    requires d + 1 < |s| && !IsSpace(s[d + 1]) && (v + 1 < |s| ==> !IsSpace(s[v + 1]))
    ensures Skip(s, 0, IsDigit) == d && Skip(s, d, IsSpace) == d + 1 && Skip(s, v, IsSpace) == v + 1
  {
    SkipExact(s, 0, d, IsDigit);
    SkipExact(s, d, d + 1, IsSpace);
    SkipExact(s, v, v + 1, IsSpace);
  }

  /** `word`, a space and "Hour" at `w` also match in any letter case. */
  lemma LitsAnyCase(s: string, w: nat, word: string)
    requires LitAt(s, w, word) && LitAt(s, w + |word| + 1, "Hour")
    ensures LitAtCI(s, w, Lower(word)) && LitAtCI(s, w + |word| + 1, "hour")
  {
    var v := w + |word| + 1;
    assert s[v..v + 4] == "Hour";
    assert Lower("Hour") == "hour";
  }

  /** The hours pattern matched at 0 with its pieces found at `d`, `w` and `h`. */
  lemma HoursAtFound(s: string, d: nat, w: nat, h: nat, word: string, anyCase: bool)
    requires 0 < d < w && w + |word| < h <= |s|
    requires Skip(s, 0, IsDigit) == d && Skip(s, d, IsSpace) == w && Skip(s, w + |word|, IsSpace) == h
    requires if anyCase then LitAtCI(s, w, Lower(word)) else LitAt(s, w, word)
    requires if anyCase then LitAtCI(s, h, "hour") else LitAt(s, h, "Hour")
    ensures HoursAt(s, 0, word, anyCase) == Some(DigitsValue(s[..d]))
  {
    assert s[0..d] == s[..d];
  }

  /** "n <Word> Hours" gives n, for the case-sensitive lecture and lab words and the any-case other word. */
  lemma HoursOf(digits: string, word: string, anyCase: bool)
    requires digits != [] && AllDigits(digits) && word != [] && !IsSpace(word[0])
    ensures Hours(digits + " " + word + " Hours", word, anyCase) == Some(DigitsValue(digits))
  {
    var s := digits + " " + word + " Hours";
    var d := |digits|;
    var v := d + 1 + |word|;
    assert s[..d] == digits && s[d] == ' ' && s[d + 1..v] == word && s[v] == ' ' && s[v + 1..v + 5] == "Hour";
    forall k | 0 <= k < d ensures IsDigit(s[k]) {
      assert s[k] == digits[k];
    }
    HoursAtStart(s, d, word, anyCase);
    SearchFinds(HoursMatcher(s, word, anyCase), 0, 0, |s|);
  }
}
