// The cross-listing part of parse_course_block: the course link named in the
// description's "Cross Listing:" section, and the codes the description
// gives as "Cross-listed with CODE" or "Same as CODE".
module CatalogCross {
  import opened Common
  import opened CourseCatalog
  import opened CatalogPrereqs
  import opened CatalogCoreqs

  // ---------------------------------------------------------------------------
  // The "Cross Listing:" section
  // ---------------------------------------------------------------------------

  /** `(?:\.|<br|$)` at `p`, in any case; `$` also matches before a final newline. */
  predicate SectionStop(s: string, p: nat) {
    p == |s| || (p < |s| && s[p] == '.') || LitAtCI(s, p, "<br") || (p + 1 == |s| && s[p] == '\n')
  }

  /** Where the lazy `.+?` whose last character is at or after `p - 1` stops: the first stop from `p` on. */
  function LazyEnd(s: string, p: nat): (r: nat)
    requires p <= |s|
    ensures p <= r <= |s| && SectionStop(s, r)
    ensures forall q :: p <= q < r ==> !SectionStop(s, q)
    decreases |s| - p
  {
    if SectionStop(s, p) then p else LazyEnd(s, p + 1)
  }

  /**
   * `Cross\s+Listing:?\s*(.+?)(?:\.|<br|$)` at `k`, in any case and with `.`
   * matching newlines: where the captured group starts and ends. When
   * nothing follows the keyword, `\s*` gives back a space, or else `:?`
   * gives back the colon, so that `.+?` has a character to take.
   */
  function CrossListingAt(s: string, k: nat): (r: Option<(nat, nat)>)
    ensures r.Some? ==> k <= r.value.0 < r.value.1 <= |s|
  {
    match PhraseEnd(s, k, ["cross", "listing"])
    case None => None
    case Some(a) =>
      var c := if a < |s| && s[a] == ':' then a + 1 else a;
      var d := Skip(s, c, IsSpace);
      if d < |s| then Some((d, LazyEnd(s, d + 1)))
      else if d > c then Some((d - 1, d))
      else if c > a then Some((a, c))
      else None
  }

  function CrossListingMatcher(s: string): nat -> Option<(nat, nat)> { (k: nat) => CrossListingAt(s, k) }

  /** The stripped group of the first "Cross Listing" match, if the description has one. */
  function CrossSection(full: string): (r: Option<string>)
    ensures r.Some? ==> |r.value| <= |full|
  {
    match Search(CrossListingMatcher(full), 0, |full| + 1)
    case None => None
    case Some(m) =>
      assert CrossListingMatcher(full)(m.0) == CrossListingAt(full, m.0);
      Some(Strip(full[m.1.0..m.1.1]))
  }

  /** The link's text, or one of its stripped slash parts, occurs in the section. */
  predicate MentionedIn(section: string, link: string) {
    Contains(section, link) || exists p :: p in SlashParts(link) && Contains(section, p)
  }

  function MentionAt(links: seq<string>, section: string): nat -> Option<string> {
    (k: nat) => if k < |links| && MentionedIn(section, links[k]) then Some(links[k]) else None
  }

  /** The first link mentioned in the (normalized) section. */
  function FirstMentioned(links: seq<string>, section: string): Option<string> {
    match Search(MentionAt(links, section), 0, |links|)
    case None => None
    case Some(m) => Some(m.1)
  }

  /** FirstMentioned finds a link exactly when some link is mentioned, and then the earliest one. */
  lemma FirstMentionedSpec(links: seq<string>, section: string)
    ensures FirstMentioned(links, section).None? <==> forall i :: 0 <= i < |links| ==> !MentionedIn(section, links[i])
    ensures FirstMentioned(links, section).Some? ==>
      exists i :: 0 <= i < |links| && links[i] == FirstMentioned(links, section).value &&
        MentionedIn(section, links[i]) && forall j :: 0 <= j < i ==> !MentionedIn(section, links[j])
  {
    var at := MentionAt(links, section);
    assert forall k :: 0 <= k < |links| ==> at(k) == if MentionedIn(section, links[k]) then Some(links[k]) else None;
    match Search(at, 0, |links|)
    case None =>
    case Some(m) =>
      assert at(m.0).Some?;
  }

  /** The loop over the description's links that stops at the first one the section mentions. */
  method FindCrossLink(links: seq<string>, section: string) returns (found: Option<string>)
    ensures found == FirstMentioned(links, section)
  {
    var at := MentionAt(links, section);
    found := None;
    var i := 0;
    while i < |links|
      invariant i <= |links|
      invariant found.None? ==> Search(at, 0, |links|) == Search(at, i, |links|)
      invariant found.Some? ==> Search(at, 0, |links|) == Some((i, found.value))
      decreases |links| - i, if found.None? then 1 else 0
    {
      if MentionedIn(section, links[i]) {
        assert at(i) == Some(links[i]);
        found := Some(links[i]);
        break;
      }
      assert at(i).None?;
      i := i + 1;
    }
  }

  /** The codes a cross-listing link stands for: its slash parts when it has a slash, else itself. */
  function LinkCodes(link: string): (r: seq<string>)
    ensures forall c :: c in r ==> c != [] || link == []
  {
    if '/' in link then SlashCodes(link) else [link]
  }

  // ---------------------------------------------------------------------------
  // "Cross-listed with CODE" and "Same as CODE"
  // ---------------------------------------------------------------------------

  /** `Cross-?listed\s+with\s+` at `k`, in any case: where the code starts. */
  function CrossListedLeadEnd(s: string, k: nat): (r: Option<nat>)
    ensures r.Some? ==> k < r.value <= |s|
  {
    if !LitAtCI(s, k, "cross") then None
    else
      var j := if k + 5 < |s| && s[k + 5] == '-' then k + 6 else k + 5;
      match PhraseEnd(s, j, ["listed", "with"])
      case None => None
      case Some(w) =>
        var b := Skip(s, w, IsSpace);
        if b > w then Some(b) else None
  }

  /** `Same\s+as\s+` at `k`, in any case: where the code starts. */
  function SameAsLeadEnd(s: string, k: nat): (r: Option<nat>)
    ensures r.Some? ==> k <= r.value <= |s|
  {
    match PhraseEnd(s, k, ["same", "as"])
    case None => None
    case Some(w) =>
      var b := Skip(s, w, IsSpace);
      if b > w then Some(b) else None
  }

  /**
   * A lead followed by `([A-Z]+\s+\d+[A-Z]*)` in any case at `k`: the group's
   * start and end, and the match's end.
   */
  function LedCodeAt(s: string, k: nat, lead: Option<nat>): (r: Option<(nat, nat, nat)>)
    ensures r.Some? ==> r.value.0 < r.value.1 == r.value.2 <= |s|
  {
    match lead
    case None => None
    case Some(b) =>
      match CodeEnd(s, b, IsAlpha)
      case None => None
      case Some(e) => Some((b, e, e))
  }

  function CrossListedWith(s: string): nat -> Option<(nat, nat, nat)> {
    (k: nat) => LedCodeAt(s, k, CrossListedLeadEnd(s, k))
  }

  function SameAs(s: string): nat -> Option<(nat, nat, nat)> {
    (k: nat) => LedCodeAt(s, k, SameAsLeadEnd(s, k))
  }

  /** The stripped codes of every non-overlapping "Cross-listed with" match, left to right. */
  function CrossListedCodes(full: string): seq<string> {
    MapSeq(FindAll(full, CrossListedWith(full), 0), Strip)
  }

  /** The stripped codes of every non-overlapping "Same as" match, left to right. */
  function SameAsCodes(full: string): seq<string> {
    MapSeq(FindAll(full, SameAs(full), 0), Strip)
  }

  // ---------------------------------------------------------------------------
  // Appending cross-listings
  // ---------------------------------------------------------------------------

  /**
   * The append loop: each code the condition keeps (it is not the course's
   * own code) joins the cross-listings unless it is listed already.
   */
  method AppendCrossCodes(listings: seq<string>, codes: seq<string>, keep: string -> bool) returns (r: seq<string>)
    ensures r == AddNew(listings, Filter(codes, keep))
  {
    r := listings;
    for k := 0 to |codes|
      invariant r == AddNew(listings, Filter(codes[..k], keep))
    {
      AppendStep(listings, codes, k, keep);
      if keep(codes[k]) && codes[k] !in r {
        r := r + [codes[k]];
      }
    }
    assert codes[..|codes|] == codes;
  }

  /** One turn of the append loop. */
  lemma AppendStep(listings: seq<string>, codes: seq<string>, k: nat, keep: string -> bool)
    requires k < |codes|
    ensures var a := AddNew(listings, Filter(codes[..k], keep));
      AddNew(listings, Filter(codes[..k + 1], keep)) == if keep(codes[k]) && codes[k] !in a then a + [codes[k]] else a
  {
    assert codes[..k + 1] == codes[..k] + [codes[k]];
    FilterSnoc(codes[..k], codes[k], keep);
    var f := Filter(codes[..k], keep);
    if keep(codes[k]) {
      assert Filter(codes[..k + 1], keep) == f + [codes[k]];
      AddNewSnoc(listings, f, codes[k]);
    } else {
      assert Filter(codes[..k + 1], keep) == f + [] == f;
    }
  }

  /** Three rounds of appending the kept codes that are new. */
  function AddKept(listings: seq<string>, xs: seq<string>, ys: seq<string>, zs: seq<string>, keep: string -> bool): seq<string> {
    AddNew(AddNew(AddNew(listings, Filter(xs, keep)), Filter(ys, keep)), Filter(zs, keep))
  }

  lemma AddKeptSpec(listings: seq<string>, xs: seq<string>, ys: seq<string>, zs: seq<string>, keep: string -> bool)
    ensures |listings| <= |AddKept(listings, xs, ys, zs, keep)|
    ensures AddKept(listings, xs, ys, zs, keep)[..|listings|] == listings
    ensures NoDuplicates(listings) ==> NoDuplicates(AddKept(listings, xs, ys, zs, keep))
    ensures forall c :: c in AddKept(listings, xs, ys, zs, keep) <==>
      c in listings || (keep(c) && (c in xs || c in ys || c in zs))
  {
    var a := AddNew(listings, Filter(xs, keep));
    var b := AddNew(a, Filter(ys, keep));
    AddNewSpec(listings, Filter(xs, keep));
    AddNewSpec(a, Filter(ys, keep));
    AddNewSpec(b, Filter(zs, keep));
    assert b[..|listings|] == b[..|a|][..|listings|];
    var r := AddKept(listings, xs, ys, zs, keep);
    assert r[..|listings|] == r[..|b|][..|listings|];
  }

  /** The codes the first mentioned link adds, before the own-code and repeat checks. */
  function SectionCodes(full: string, links: seq<string>): seq<string> {
    match CrossSection(full)
    case None => []
    case Some(section) =>
      match FirstMentioned(links, Normalize(section))
      case None => []
      case Some(link) => LinkCodes(link)
  }

  /**
   * The cross-listings after the description: the title's list, then the
   * codes of the link the "Cross Listing" section mentions, then the
   * "Cross-listed with" codes, then the "Same as" codes.
   */
  function CrossListings(listings: seq<string>, full: string, links: seq<string>, code: Option<string>): seq<string> {
    AddKept(listings, SectionCodes(full, links), CrossListedCodes(full), SameAsCodes(full), NotCode(code))
  }

  /**
   * The title's cross-listings stay in front; what the description adds is
   * never the course's own code and is never repeated; and every code the
   * description names, other than the own code, ends up listed.
   */
  lemma CrossListingsSpec(listings: seq<string>, full: string, links: seq<string>, code: Option<string>)
    ensures |listings| <= |CrossListings(listings, full, links, code)|
    ensures CrossListings(listings, full, links, code)[..|listings|] == listings
    ensures NoDuplicates(listings) ==> NoDuplicates(CrossListings(listings, full, links, code))
    ensures forall c :: c in CrossListings(listings, full, links, code) <==>
      c in listings || (Some(c) != code && (c in SectionCodes(full, links) || c in CrossListedCodes(full) || c in SameAsCodes(full)))
  {
    AddKeptSpec(listings, SectionCodes(full, links), CrossListedCodes(full), SameAsCodes(full), NotCode(code));
  }

  /** The cross-listing step of parse_course_block, as the source's loops do it. */
  method AddCrossListings(listings: seq<string>, full: string, links: seq<string>, code: Option<string>)
    returns (r: seq<string>)
    ensures r == CrossListings(listings, full, links, code)
  {
    var fromLink: seq<string> := [];
    var section := CrossSection(full);
    if section.Some? {
      var link := FindCrossLink(links, Normalize(section.value));
      if link.Some? {
        fromLink := LinkCodes(link.value);
      }
    }
    r := AppendCrossCodes(listings, fromLink, NotCode(code));
    r := AppendCrossCodes(r, CrossListedCodes(full), NotCode(code));
    r := AppendCrossCodes(r, SameAsCodes(full), NotCode(code));
  }

  /** A code written out at `i` and followed by a non-letter is what the case-blind code pattern finds. */
  lemma CodeFoundAnyCase(s: string, i: nat, dept: string, digits: string, suffix: string)
    requires dept != [] && AllUpper(dept) && IsNumber(digits, suffix)
    requires i + |dept| + 1 + |digits| + |suffix| <= |s|
    requires s[i..i + |dept| + 1 + |digits| + |suffix|] == dept + " " + digits + suffix
    requires var e := i + |dept| + 1 + |digits| + |suffix|; e < |s| ==> !IsAlpha(s[e]) && !IsDigit(s[e])
    ensures CodeEnd(s, i, IsAlpha) == Some(i + |dept| + 1 + |digits| + |suffix|)
  {
    var a, d, e := i + |dept|, i + |dept| + 1 + |digits|, i + |dept| + 1 + |digits| + |suffix|;
    CodeLaidOut(s, i, dept, digits, suffix);
    SkipExact(s, i, a, IsAlpha);
    SkipExact(s, a, a + 1, IsSpace);
    SkipExact(s, a + 1, d, IsDigit);
    SkipExact(s, d, e, IsAlpha);
  }

  /** "Same as " at the start of a text: the code starts right after it. */
  lemma SameAsLead(s: string)
    requires |s| > 8 && s[..8] == "Same as " && !IsSpace(s[8])
    ensures SameAsLeadEnd(s, 0) == Some(8)
  {
    assert LitAtCI(s, 0, "same") by { assert s[0..4] == "Same"; }
    assert LitAtCI(s, 5, "as") by { assert s[5..7] == "as"; }
    SkipExact(s, 4, 5, IsSpace);
    assert PhraseEnd(s, 5, ["as"]) == Some(7);
    assert ["same", "as"][1..] == ["as"];
    SkipExact(s, 7, 8, IsSpace);
  }

  /** A match at the very start is the first thing re.finditer yields. */
  lemma FindAllFirst(s: string, at: nat -> Option<(nat, nat, nat)>, g0: nat, g1: nat, e: nat)
    requires at(0) == Some((g0, g1, e)) && g0 <= g1 <= |s| && 0 < e <= |s|
    ensures FindAll(s, at, 0) == [s[g0..g1]] + FindAll(s, at, e)
  {
    SearchFinds(at, 0, 0, |s| + 1);
  }

  /** "Same as " and a code at the start of a text is a "Same as" match at 0. */
  lemma SameAsAtStart(s: string, c: string, dept: string, digits: string, suffix: string)
    requires dept != [] && AllUpper(dept) && IsNumber(digits, suffix)
    requires c == dept + " " + digits + suffix
    requires 8 + |c| < |s| && s[..8] == "Same as " && s[8..8 + |c|] == c
    requires !IsAlpha(s[8 + |c|]) && !IsDigit(s[8 + |c|])
    ensures SameAs(s)(0) == Some((8 as nat, 8 + |c| as nat, 8 + |c| as nat))
  {
    SameAsLead(s);
    CodeFoundAnyCase(s, 8, dept, digits, suffix);
  }

  /** A text that opens with "Same as CODE" and a non-letter: its first "Same as" code is CODE. */
  lemma SameAsFirst(s: string, c: string, dept: string, digits: string, suffix: string)
    requires dept != [] && AllUpper(dept) && IsNumber(digits, suffix)
    requires c == dept + " " + digits + suffix
    requires 8 + |c| < |s| && s[..8] == "Same as " && s[8..8 + |c|] == c
    requires !IsAlpha(s[8 + |c|]) && !IsDigit(s[8 + |c|])
    ensures |SameAsCodes(s)| > 0 && SameAsCodes(s)[0] == c
  {
    SameAsAtStart(s, c, dept, digits, suffix);
    FindAllFirst(s, SameAs(s), 8, 8 + |c|, 8 + |c|);
    StripUnchanged(c);
  }

  /** The "Same as" pattern finds the code of a "Same as CODE." sentence. */
  lemma SameAsFinds(c: string, dept: string, digits: string, suffix: string)
    requires dept != [] && AllUpper(dept) && IsNumber(digits, suffix)
    requires c == dept + " " + digits + suffix
    ensures c in SameAsCodes("Same as " + c + ".")
  {
    var t := "Same as " + c;
    var s := t + ".";
    assert s[..|t|] == t;
    assert s[..8] == t[..8] == "Same as ";
    assert s[8..8 + |c|] == t[8..] == c;
    SameAsFirst(s, c, dept, digits, suffix);
  }

  /** A "Same as" sentence adds its code, written "DEPT NUM", to a course with another code. */
  lemma SameAsAdds(c: string, dept: string, digits: string, suffix: string, code: Option<string>)
    requires dept != [] && AllUpper(dept) && IsNumber(digits, suffix)
    requires c == dept + " " + digits + suffix && code != Some(c)
    ensures c in CrossListings([], "Same as " + c + ".", [], code)
  {
    SameAsFinds(c, dept, digits, suffix);
    CrossListingsSpec([], "Same as " + c + ".", [], code);
  }
}
