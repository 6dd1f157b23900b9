// The prerequisite part of parse_course_block: the prerequisite text, the
// part of the description the course links are looked up in, the split into
// semicolon-separated groups, and the course groups taken from the links.
module CatalogPrereqs {
  import opened Common
  import opened CourseCatalog

  // ---------------------------------------------------------------------------
  // re.split with a pattern that never matches the empty string
  // ---------------------------------------------------------------------------

  /**
   * `re.split(pattern, s[i..])` where `at(k)` is the end of the match that
   * starts at `k`: the pieces between the leftmost non-overlapping matches.
   */
  function SplitAt(s: string, at: nat -> Option<nat>, i: nat): (r: seq<string>)
    requires i <= |s|
    ensures |r| >= 1
    decreases |s| - i
  {
    match Search(at, i, |s| + 1)
    case None => [s[i..]]
    case Some(m) => if m.0 < m.1 <= |s| then [s[i..m.0]] + SplitAt(s, at, m.1) else [s[i..]]
  }

  /**
   * The captured groups of `re.finditer(pattern, s[i..])`, where `at(k)` gives
   * the start and end of the group and the end of the match that starts at
   * `k`; matching resumes where the previous match ended.
   */
  function FindAll(s: string, at: nat -> Option<(nat, nat, nat)>, i: nat): (r: seq<string>)
    requires i <= |s|
    decreases |s| - i
  {
    match Search(at, i, |s| + 1)
    case None => []
    case Some(m) =>
      var (g0, g1, e) := m.1;
      if g0 <= g1 <= |s| && m.0 < e <= |s| then [s[g0..g1]] + FindAll(s, at, e) else []
  }

  /** `\s*;\s*` at `k`: where the match ends. */
  function SemicolonAt(s: string, k: nat): (r: Option<nat>)
    ensures r.Some? ==> k < r.value <= |s|
  {
    if k > |s| then None
    else
      var j := Skip(s, k, IsSpace);
      if j < |s| && s[j] == ';' then Some(Skip(s, j + 1, IsSpace)) else None
  }

  function Semicolon(s: string): nat -> Option<nat> { (k: nat) => SemicolonAt(s, k) }

  /** `re.split(r"\s*;\s*", s)`. */
  function SplitSemicolons(s: string): seq<string> {
    SplitAt(s, Semicolon(s), 0)
  }

  /** No piece of the semicolon split holds a semicolon. */
  lemma {:induction false} SplitNoSemicolon(s: string, i: nat)
    requires i <= |s|
    ensures forall g :: g in SplitAt(s, Semicolon(s), i) ==> ';' !in g
    decreases |s| - i
  {
    assert forall k: nat :: Semicolon(s)(k) == SemicolonAt(s, k);
    match Search(Semicolon(s), i, |s| + 1)
    case None =>
      forall q | 0 <= q < |s| - i ensures s[i..][q] != ';' {
        assert SemicolonAt(s, i + q).None?;
      }
    case Some(m) =>
      assert m.0 < m.1 <= |s|;
      SplitNoSemicolon(s, m.1);
      forall q | 0 <= q < m.0 - i ensures s[i..m.0][q] != ';' {
        assert SemicolonAt(s, i + q).None?;
      }
  }

  // ---------------------------------------------------------------------------
  // The prerequisite text
  // ---------------------------------------------------------------------------

  /** `Prerequisite(?:s)?:?\s*` at `i` in any letter case: where the prerequisite section starts. */
  function PrereqStartAt(s: string, i: nat): (r: Option<nat>)
    ensures r.Some? ==> i + 12 <= r.value <= |s|
  {
    if !LitAtCI(s, i, "prerequisite") then None
    else
      var k := i + 12;
      var k1 := if k < |s| && ToLower(s[k]) == 's' then k + 1 else k;
      var k2 := if k1 < |s| && s[k1] == ':' then k1 + 1 else k1;
      Some(Skip(s, k2, IsSpace))
  }

  function PrereqStart(s: string): nat -> Option<nat> { (k: nat) => PrereqStartAt(s, k) }

  /**
   * A stop pattern: a punctuation mark, optional whitespace, then words
   * separated by whitespace, in any letter case; no words stands for the
   * end of the text (`\.\s*$`).
   */
  datatype Stop = Stop(mark: char, words: seq<string>)

  /** The stop patterns, in the order they are tried. */
  const StopPatterns: seq<Stop> := [
    Stop(';', ["also", "taught"]),
    Stop(';', ["also", "offered"]),
    Stop('.', ["corequisite"]),
    Stop('.', ["cross", "listing"]),
    Stop('.', [])
  ]

  /** Stop pattern `p` matches at `k` of the prerequisite section `t`. */
  predicate StopAt(t: string, p: Stop, k: nat) {
    k < |t| && t[k] == p.mark &&
    var j := Skip(t, k + 1, IsSpace);
    if p.words == [] then j == |t| else PhraseEnd(t, j, p.words).Some?
  }

  function StopMatcher(t: string, p: Stop): nat -> Option<nat> {
    (k: nat) => if StopAt(t, p, k) then Some(k) else None
  }

  /** `re.search(p, t, re.IGNORECASE).start()`, when there is a match. */
  function FirstStop(t: string, p: Stop): (r: Option<nat>)
    ensures r.Some? ==> r.value < |t| && StopAt(t, p, r.value)
    ensures r.Some? ==> forall k: nat :: k < r.value ==> !StopAt(t, p, k)
    ensures r.None? ==> forall k: nat :: !StopAt(t, p, k)
  {
    assert forall k: nat :: StopMatcher(t, p)(k) == (if StopAt(t, p, k) then Some(k) else None);
    match Search(StopMatcher(t, p), 0, |t|)
    case Some(m) => Some(m.0)
    case None => None
  }

  /** `prereq_end` after the first `n` of the stop patterns `pats` have been tried. */
  function PrereqEndUpTo(t: string, pats: seq<Stop>, n: nat): (r: nat)
    requires n <= |pats|
    ensures r <= |t|
  {
    if n == 0 then |t|
    else
      var e := PrereqEndUpTo(t, pats, n - 1);
      var m := FirstStop(t, pats[n - 1]);
      if m.Some? && m.value < e then m.value else e
  }

  function PrereqEnd(t: string): nat {
    PrereqEndUpTo(t, StopPatterns, |StopPatterns|)
  }

  /** The loop lowering `prereq_end` over the stop patterns `pats` (the source's are `StopPatterns`). */
  method FindPrereqEnd(section: string, pats: seq<Stop>) returns (prereqEnd: nat)
    ensures prereqEnd == PrereqEndUpTo(section, pats, |pats|)
    ensures pats == StopPatterns ==> prereqEnd == PrereqEnd(section)
  {
    prereqEnd := |section|;
    for i := 0 to |pats|
      invariant prereqEnd == PrereqEndUpTo(section, pats, i)
    {
      var m := FirstStop(section, pats[i]);
      if m.Some? && m.value < prereqEnd {
        prereqEnd := m.value;
      }
    }
  }

  /** Stop pattern `p` matches nowhere before `e`. */
  predicate NoStopBefore(t: string, p: Stop, e: nat) {
    forall k: nat :: k < e ==> !StopAt(t, p, k)
  }

  /** The `i`-th of the first `n` stop patterns matches nowhere before the section end found so far. */
  lemma PrereqEndUpToSpec(t: string, pats: seq<Stop>, n: nat, i: nat)
    requires i < n <= |pats|
    ensures NoStopBefore(t, pats[i], PrereqEndUpTo(t, pats, n))
  {
    PrereqEndUpToFirst(t, pats, n, i);
  }

  /** The first match of the `i`-th of the first `n` stop patterns, if any, is not before the section end found so far. */
  lemma {:induction false} PrereqEndUpToFirst(t: string, pats: seq<Stop>, n: nat, i: nat)
    requires i < n <= |pats|
    ensures FirstStop(t, pats[i]).Some? ==> PrereqEndUpTo(t, pats, n) <= FirstStop(t, pats[i]).value
  {
    if i < n - 1 {
      PrereqEndUpToFirst(t, pats, n - 1, i);
    }
  }

  /** The section end found so far is the end of the text or a match of one of the first `n` stop patterns. */
  lemma {:induction false} PrereqEndUpToMatch(t: string, pats: seq<Stop>, n: nat)
    requires n <= |pats|
    ensures PrereqEndUpTo(t, pats, n) == |t| ||
      exists i :: 0 <= i < n && StopAt(t, pats[i], PrereqEndUpTo(t, pats, n))
  {
    if n > 0 {
      PrereqEndUpToMatch(t, pats, n - 1);
      var e := PrereqEndUpTo(t, pats, n - 1);
      var m := FirstStop(t, pats[n - 1]);
      if m.Some? && m.value < e {
        assert StopAt(t, pats[n - 1], PrereqEndUpTo(t, pats, n));
      } else if e < |t| {
        var i :| 0 <= i < n - 1 && StopAt(t, pats[i], e);
        assert StopAt(t, pats[i], PrereqEndUpTo(t, pats, n));
      }
    }
  }

  /** The prerequisite section ends at the earliest stop pattern, or at the end of the text. */
  lemma PrereqEndSpec(t: string)
    ensures PrereqEnd(t) <= |t|
    ensures forall p, k: nat :: p in StopPatterns && k < PrereqEnd(t) ==> !StopAt(t, p, k)
    ensures PrereqEnd(t) == |t| || exists p :: p in StopPatterns && StopAt(t, p, PrereqEnd(t))
  {
    PrereqEndUpToMatch(t, StopPatterns, |StopPatterns|);
    forall p, k: nat | p in StopPatterns && k < PrereqEnd(t) ensures !StopAt(t, p, k) {
      var i :| 0 <= i < |StopPatterns| && StopPatterns[i] == p;
      PrereqEndUpToSpec(t, StopPatterns, |StopPatterns|, i);
    }
  }

  /** `[.;]\s*$` at `k`: a trailing period or semicolon. */
  predicate TrailingMarkAt(y: string, k: nat) {
    k < |y| && (y[k] == '.' || y[k] == ';') && Skip(y, k + 1, IsSpace) == |y|
  }

  /** On a stripped text the trailing-mark pattern can only match the last character. */
  lemma TrailingMarkIsLast(x: string, k: nat)
    ensures TrailingMarkAt(Strip(x), k) <==>
      k == |Strip(x)| - 1 && (Strip(x)[k] == '.' || Strip(x)[k] == ';')
  {
    var y := Strip(x);
    assert y == [] || !IsSpace(y[|y| - 1]);
    MarkIsLast(y, k);
  }

  /** When the last character is not whitespace, the trailing-mark pattern can only match it. */
  lemma MarkIsLast(y: string, k: nat)
    requires y == [] || !IsSpace(y[|y| - 1])
    ensures TrailingMarkAt(y, k) <==> k == |y| - 1 && (y[k] == '.' || y[k] == ';')
  {
    if k == |y| - 1 {
      SkipExact(y, k + 1, k + 1, IsSpace);
    }
  }

  /** `re.sub(r"[.;]\s*$", "", text.strip()).strip()`. */
  function CleanPrereq(x: string): (r: string)
    ensures r == [] || (!IsSpace(r[0]) && !IsSpace(r[|r| - 1]))
  {
    var y := Strip(x);
    if y != [] && (y[|y| - 1] == '.' || y[|y| - 1] == ';') then Strip(y[..|y| - 1]) else Strip(y)
  }

  /** The cleaned text is the stripped text, less at most one trailing mark, stripped again. */
  lemma CleanPrereqSpec(x: string)
    ensures var y := Strip(x);
      (y != [] && (y[|y| - 1] == '.' || y[|y| - 1] == ';') ==> CleanPrereq(x) == Strip(y[..|y| - 1])) &&
      (y == [] || (y[|y| - 1] != '.' && y[|y| - 1] != ';') ==> CleanPrereq(x) == y)
  {
    var y := Strip(x);
    if y != [] {
      assert !IsSpace(y[0]) && !IsSpace(y[|y| - 1]);
    }
    StripUnchanged(y);
  }

  // ---------------------------------------------------------------------------
  // The part of the description searched for prerequisite course links
  // ---------------------------------------------------------------------------

  /** The phrases that end the link section, looked up in the lower-cased text. */
  const LinkStops: seq<string> := ["cross listing", "corequisite", "concurrent enrollment", "also taught"]

  /** `prereq_section_end` after the first `n` phrases: a phrase counts only when its first occurrence is past index 0. */
  function LinkSectionEndUpTo(full: string, n: nat): (e: nat)
    requires n <= |LinkStops|
    ensures e <= |full|
  {
    if n == 0 then |full|
    else
      var e := LinkSectionEndUpTo(full, n - 1);
      var idx := Find(Lower(full), LinkStops[n - 1]);
      if idx > 0 && idx < e then idx else e
  }

  function LinkSectionEnd(full: string): nat {
    LinkSectionEndUpTo(full, |LinkStops|)
  }

  /** The loop over the four stop phrases. */
  method FindLinkSectionEnd(full: string) returns (sectionEnd: nat)
    ensures sectionEnd == LinkSectionEnd(full)
  {
    sectionEnd := |full|;
    var lower := Lower(full);
    for i := 0 to |LinkStops|
      invariant sectionEnd == LinkSectionEndUpTo(full, i)
    {
      var idx := Find(lower, LinkStops[i]);
      if idx > 0 && idx < sectionEnd {
        sectionEnd := idx;
      }
    }
  }

  /**
   * The link section ends at the first occurrence of a stop phrase when that
   * occurrence is past index 0, taking the earliest such; otherwise it is
   * the whole text.
   */
  lemma {:induction false} LinkSectionEndSpec(full: string, n: nat)
    requires n <= |LinkStops|
    ensures forall i :: 0 <= i < n && Find(Lower(full), LinkStops[i]) > 0 ==>
      LinkSectionEndUpTo(full, n) <= Find(Lower(full), LinkStops[i])
    ensures LinkSectionEndUpTo(full, n) == |full| ||
      exists i :: 0 <= i < n && LinkSectionEndUpTo(full, n) == Find(Lower(full), LinkStops[i])
  {
    if n > 0 {
      LinkSectionEndSpec(full, n - 1);
      var e := LinkSectionEndUpTo(full, n - 1);
      if LinkSectionEndUpTo(full, n) != e {
        assert LinkSectionEndUpTo(full, n) == Find(Lower(full), LinkStops[n - 1]);
      } else if e < |full| {
        var i :| 0 <= i < n - 1 && e == Find(Lower(full), LinkStops[i]);
        assert LinkSectionEndUpTo(full, n) == Find(Lower(full), LinkStops[i]);
      }
    }
  }

  /** `full_text[:prereq_section_end] if prereq_section_end > 0 else full_text`. */
  function LinkSection(full: string): string {
    var e := LinkSectionEnd(full);
    if e > 0 then full[..e] else full
  }

  // ---------------------------------------------------------------------------
  // Course links and the groups they fall in
  // ---------------------------------------------------------------------------

  /** `re.match(r"^[A-Z]+\s+\d+", text)`. */
  predicate StartsWithCode(t: string) {
    var a := Skip(t, 0, IsUpper);
    var b := Skip(t, a, IsSpace);
    a > 0 && b > a && b < |t| && IsDigit(t[b])
  }

  /** `[c.strip() for c in text.split("/")]`. */
  function SlashParts(t: string): (r: seq<string>)
    ensures |r| >= 1
  {
    MapSeq(SplitOn(t, "/"), Strip)
  }

  predicate NonEmpty(c: string) { c != [] }

  /** `[c.strip() for c in text.split("/") if c.strip()]`. */
  function SlashCodes(t: string): (r: seq<string>)
    ensures forall c :: c in r ==> c != []
  {
    Filter(SlashParts(t), NonEmpty)
  }

  /** The link appears in the group text: one of its slash parts does, for a cross-listed link. */
  predicate InGroup(g: string, link: string) {
    if '/' in link then exists p :: p in SlashParts(link) && Contains(g, p)
    else Contains(g, link)
  }

  /** Python's `s[start:stop]` for indices that are not negative. */
  function Slice(s: string, start: nat, stop: nat): (r: string)
    ensures |r| <= |s|
  {
    if start < stop && stop <= |s| then s[start..stop]
    else if start < |s| && stop > |s| then s[start..]
    else []
  }

  /** The text within 30 characters on either side of the link's first occurrence. */
  function Window(g: string, link: string): string {
    var idx := Find(g, link);
    var start := if idx - 30 > 0 then idx - 30 else 0;
    var stop := if |g| < idx + |link| + 30 then |g| else idx + |link| + 30;
    Slice(g, start, stop)
  }

  const OrConcurrent: seq<string> := ["or", "concurrent", "enrollment"]
  const Concurrent: seq<string> := ["concurrent", "enrollment"]

  /** `re.search(r"concurrent\s+enrollment.*" + re.escape(link), w, re.IGNORECASE)`. */
  predicate ConcurrentThenLink(w: string, link: string) {
    exists p, q :: 0 <= p <= q <= |w| && PhraseEnd(w, p, Concurrent).Some? &&
      PhraseEnd(w, p, Concurrent).value <= q && '\n' !in w[PhraseEnd(w, p, Concurrent).value..q] &&
      LitAtCI(w, q, Lower(link))
  }

  /** `re.search(re.escape(link) + r".*concurrent\s+enrollment", w, re.IGNORECASE)`. */
  predicate LinkThenConcurrent(w: string, link: string) {
    exists q, p :: 0 <= q && q + |link| <= p <= |w| && LitAtCI(w, q, Lower(link)) &&
      '\n' !in w[q + |link|..p] && PhraseEnd(w, p, Concurrent).Some?
  }

  /** A link mentioned with "concurrent enrollment" but not "or concurrent enrollment" nearby. */
  predicate StandaloneConcurrent(g: string, link: string) {
    var w := Window(g, link);
    !HasPhrase(w, OrConcurrent) && (ConcurrentThenLink(w, link) || LinkThenConcurrent(w, link))
  }

  /** The course codes one (normalized) link adds to a group, before the group's de-duplication. */
  function LinkCourses(g: string, link: string, code: Option<string>): (r: seq<string>)
    ensures r != [] ==> StartsWithCode(link) && Some(link) != code && InGroup(g, link)
  {
    if !StartsWithCode(link) || Some(link) == code || !InGroup(g, link) then []
    else if StandaloneConcurrent(g, link) then []
    else if '/' in link then SlashCodes(link)
    else [link]
  }

  /** The contribution of each link to each group text. */
  function Contributions(code: Option<string>): string -> string -> seq<string> {
    (g: string) => (link: string) => LinkCourses(g, link, code)
  }

  /** What the first `n` links add, one after another. */
  function Gathered(f: string -> seq<string>, links: seq<string>, n: nat): seq<string>
    requires n <= |links|
  {
    if n == 0 then [] else Gathered(f, links, n - 1) + f(links[n - 1])
  }

  /** A course gathered from the first `n` links comes from one of them. */
  lemma {:induction false} GatheredFrom(f: string -> seq<string>, links: seq<string>, n: nat, c: string)
    requires n <= |links| && c in Gathered(f, links, n)
    ensures exists j :: 0 <= j < n && c in f(links[j])
  {
    if c !in f(links[n - 1]) {
      GatheredFrom(f, links, n - 1, c);
    }
  }

  /** The courses of one group: every link's contribution, each course once, in first-seen order. */
  function GroupOf(f: string -> seq<string>, links: seq<string>): seq<string> {
    Dedup(Gathered(f, links, |links|))
  }

  /** A group text that opens with "or concurrent enrollment" is skipped. */
  predicate OpensWithOrConcurrent(g: string) {
    OpensWith(OrConcurrent)(g)
  }

  /** The test for a text that opens with the phrase `words`. */
  function OpensWith(words: seq<string>): string -> bool {
    g => PhraseEnd(g, 0, words).Some?
  }

  /**
   * `prerequisite_groups` after the first `n` group texts, where `cf(g)`
   * gives each link's contribution to group text `g`: skipped and empty
   * groups are left out.
   */
  function GroupsUpTo(texts: seq<string>, links: seq<string>, cf: string -> string -> seq<string>, n: nat): seq<seq<string>>
    requires n <= |texts|
  {
    if n == 0 then []
    else
      var groups := GroupsUpTo(texts, links, cf, n - 1);
      var g := texts[n - 1];
      if OpensWithOrConcurrent(g) then groups
      else
        var courses := GroupOf(cf(g), links);
        if courses == [] then groups else groups + [courses]
  }

  /** The index of the group text each of `GroupsUpTo(texts, links, cf, n)` came from. */
  function GroupOrigins(texts: seq<string>, links: seq<string>, cf: string -> string -> seq<string>, n: nat): seq<nat>
    requires n <= |texts|
  {
    Indices(texts, KeptBy(links, cf), n)
  }

  /** Group text `g` gives a group: it is not skipped and some link contributes a course to it. */
  predicate Kept(g: string, links: seq<string>, cf: string -> string -> seq<string>) {
    !OpensWithOrConcurrent(g) && GroupOf(cf(g), links) != []
  }

  function KeptBy(links: seq<string>, cf: string -> string -> seq<string>): string -> bool {
    g => Kept(g, links, cf)
  }

  /** The indices below `n` of the elements that satisfy `p`, in increasing order. */
  function Indices<T>(xs: seq<T>, p: T -> bool, n: nat): seq<nat>
    requires n <= |xs|
  {
    if n == 0 then []
    else
      var o := Indices(xs, p, n - 1);
      if p(xs[n - 1]) then o + [n - 1] else o
  }

  /** The indices are exactly those below `n` whose element satisfies `p`, and they increase. */
  lemma {:induction false} IndicesSpec<T>(xs: seq<T>, p: T -> bool, n: nat)
    requires n <= |xs|
    ensures forall k :: 0 <= k < n ==> (k in Indices(xs, p, n) <==> p(xs[k]))
    ensures forall i :: 0 <= i < |Indices(xs, p, n)| ==> Indices(xs, p, n)[i] < n
    ensures forall i, j :: 0 <= i < j < |Indices(xs, p, n)| ==> Indices(xs, p, n)[i] < Indices(xs, p, n)[j]
  {
    if n > 0 {
      var m := n - 1;
      IndicesSpec(xs, p, m);
      var o := Indices(xs, p, m);
      if p(xs[m]) {
        assert Indices(xs, p, n) == o + [m];
        assert forall i :: 0 <= i < |o| ==> (o + [m])[i] == o[i];
      } else {
        assert Indices(xs, p, n) == o;
      }
    }
  }

  /** Group `i` is the group of text `origins[i]`, and the origins are below `n`. */
  lemma {:induction false} GroupOriginsIndex(texts: seq<string>, links: seq<string>, cf: string -> string -> seq<string>, n: nat)
    requires n <= |texts|
    ensures |GroupOrigins(texts, links, cf, n)| == |GroupsUpTo(texts, links, cf, n)|
    ensures forall i :: 0 <= i < |GroupOrigins(texts, links, cf, n)| ==>
      GroupOrigins(texts, links, cf, n)[i] < n &&
      GroupsUpTo(texts, links, cf, n)[i] == GroupOf(cf(texts[GroupOrigins(texts, links, cf, n)[i]]), links)
  {
    if n > 0 {
      GroupOriginsIndex(texts, links, cf, n - 1);
      var origins := GroupOrigins(texts, links, cf, n - 1);
      var groups := GroupsUpTo(texts, links, cf, n - 1);
      var g := texts[n - 1];
      if !Kept(g, links, cf) {
        assert GroupOrigins(texts, links, cf, n) == origins;
        assert GroupsUpTo(texts, links, cf, n) == groups;
      } else {
        assert GroupOrigins(texts, links, cf, n) == origins + [n - 1];
        assert GroupsUpTo(texts, links, cf, n) == groups + [GroupOf(cf(g), links)];
        OriginsSnoc(texts, links, cf, n, origins, groups);
      }
    }
  }

  /** Appending text `n - 1` and its group keeps every group at its origin. */
  lemma OriginsSnoc(texts: seq<string>, links: seq<string>, cf: string -> string -> seq<string>, n: nat,
                    origins: seq<nat>, groups: seq<seq<string>>)
    requires 0 < n <= |texts| && |origins| == |groups|
    requires forall i :: 0 <= i < |origins| ==> origins[i] < n - 1 && groups[i] == GroupOf(cf(texts[origins[i]]), links)
    ensures var o, gs := origins + [n - 1], groups + [GroupOf(cf(texts[n - 1]), links)];
      forall i :: 0 <= i < |o| ==> o[i] < n && gs[i] == GroupOf(cf(texts[o[i]]), links)
  {
  }

  /** The origins increase. */
  lemma GroupOriginsIncrease(texts: seq<string>, links: seq<string>, cf: string -> string -> seq<string>, n: nat)
    requires n <= |texts|
    ensures forall i, j :: 0 <= i < j < |GroupOrigins(texts, links, cf, n)| ==>
      GroupOrigins(texts, links, cf, n)[i] < GroupOrigins(texts, links, cf, n)[j]
  {
    IndicesSpec(texts, KeptBy(links, cf), n);
  }

  /** The origins are exactly the texts below `n` that are neither skipped nor empty. */
  lemma GroupOriginsComplete(texts: seq<string>, links: seq<string>, cf: string -> string -> seq<string>, n: nat)
    requires n <= |texts|
    ensures forall k :: 0 <= k < n ==> (k in GroupOrigins(texts, links, cf, n) <==> Kept(texts[k], links, cf))
    ensures forall k :: k in GroupOrigins(texts, links, cf, n) ==> k < n
  {
    IndicesSpec(texts, KeptBy(links, cf), n);
  }

  function PrereqGroups(texts: seq<string>, links: seq<string>, code: Option<string>): seq<seq<string>> {
    GroupsUpTo(texts, links, Contributions(code), |texts|)
  }

  /** The inner loop: one group's courses, kept in order with a `seen_in_group` set. */
  method CollectGroup(f: string -> seq<string>, links: seq<string>) returns (gathered: seq<string>)
    ensures gathered == GroupOf(f, links)
  {
    var seen: set<string> := {};
    gathered := [];
    for j := 0 to |links|
      invariant gathered == Dedup(Gathered(f, links, j))
      invariant forall c :: c in seen <==> c in gathered
    {
      gathered, seen := CollectLink(Gathered(f, links, j), f(links[j]), gathered, seen);
    }
  }

  /** The loop over one link's courses: each course not yet seen joins the group. */
  method CollectLink(before: seq<string>, added: seq<string>, gathered0: seq<string>, seen0: set<string>)
    returns (gathered: seq<string>, seen: set<string>)
    requires gathered0 == Dedup(before) && forall c :: c in seen0 <==> c in gathered0
    ensures gathered == Dedup(before + added) && forall c :: c in seen <==> c in gathered
  {
    gathered, seen := gathered0, seen0;
    assert before + added[..0] == before;
    for k := 0 to |added|
      invariant gathered == Dedup(before + added[..k])
      invariant forall c :: c in seen <==> c in gathered
    {
      assert before + added[..k + 1] == before + added[..k] + [added[k]];
      DedupSnoc(before + added[..k], added[k]);
      if added[k] !in seen {
        seen := seen + {added[k]};
        gathered := gathered + [added[k]];
      }
    }
    assert added[..|added|] == added;
  }

  /**
   * The group loop: `prerequisite_groups`, the text each group came from,
   * and the flat list de-duplicated in first-seen order.
   */
  method CollectGroups(texts: seq<string>, links: seq<string>, cf: string -> string -> seq<string>)
    returns (groups: seq<seq<string>>, origins: seq<nat>, courses: seq<string>)
    ensures groups == GroupsUpTo(texts, links, cf, |texts|)
    ensures origins == GroupOrigins(texts, links, cf, |texts|)
    ensures courses == Dedup(Flatten(groups))
    ensures NoDuplicates(courses) && forall c :: c in courses <==> exists gr :: gr in groups && c in gr
  {
    groups, origins := [], [];
    var all: seq<string> := [];
    for i := 0 to |texts|
      invariant groups == GroupsUpTo(texts, links, cf, i)
      invariant origins == GroupOrigins(texts, links, cf, i)
      invariant all == Flatten(groups)
    {
      var g := texts[i];
      GroupsStep(texts, links, cf, i);
      if !OpensWithOrConcurrent(g) {
        var groupCourses := CollectGroup(cf(g), links);
        if groupCourses != [] {
          FlattenSnoc(groups, groupCourses);
          groups := groups + [groupCourses];
          origins := origins + [i];
          all := all + groupCourses;
        }
      }
    }
    courses := DedupInOrder(all);
    FlattenMembers(groups);
  }

  /** One more group text: its group and its index join the lists when it is neither skipped nor empty. */
  lemma GroupsStep(texts: seq<string>, links: seq<string>, cf: string -> string -> seq<string>, i: nat)
    requires i < |texts|
    ensures var g := texts[i];
      var kept := !OpensWithOrConcurrent(g) && GroupOf(cf(g), links) != [];
      GroupsUpTo(texts, links, cf, i + 1) ==
        (if kept then GroupsUpTo(texts, links, cf, i) + [GroupOf(cf(g), links)] else GroupsUpTo(texts, links, cf, i)) &&
      GroupOrigins(texts, links, cf, i + 1) ==
        (if kept then GroupOrigins(texts, links, cf, i) + [i] else GroupOrigins(texts, links, cf, i))
  {
  }

  /** An element of the flattened list is an element of one of the lists. */
  lemma {:induction false} FlattenMembers<T>(xss: seq<seq<T>>)
    ensures forall x :: x in Flatten(xss) <==> exists xs :: xs in xss && x in xs
  {
    if |xss| > 0 {
      FlattenMembers(xss[1..]);
      assert Flatten(xss) == xss[0] + Flatten(xss[1..]);
      forall x | exists xs :: xs in xss && x in xs ensures x in Flatten(xss) {
        var xs :| xs in xss && x in xs;
        if xs != xss[0] {
          assert xs in xss[1..];
        }
      }
    }
  }

  /** Course `c` is contributed by some link to one of the first `n` group texts. */
  ghost predicate FromText(texts: seq<string>, links: seq<string>, cf: string -> string -> seq<string>, n: nat, c: string)
    requires n <= |texts|
  {
    exists i, j :: 0 <= i < n && 0 <= j < |links| && c in cf(texts[i])(links[j])
  }

  /** Every group is non-empty and repeats no course, and every course in it came from some link. */
  lemma {:induction false} GroupsSpec(texts: seq<string>, links: seq<string>, cf: string -> string -> seq<string>, n: nat)
    requires n <= |texts|
    ensures forall gr :: gr in GroupsUpTo(texts, links, cf, n) ==> gr != [] && NoDuplicates(gr)
    ensures forall gr, c :: gr in GroupsUpTo(texts, links, cf, n) && c in gr ==> FromText(texts, links, cf, n, c)
  {
    if n > 0 {
      var m := n - 1;
      var before := GroupsUpTo(texts, links, cf, m);
      GroupsSpec(texts, links, cf, m);
      FromEarlierText(texts, links, cf, m, n, before);
      GroupsSpecStep(texts, links, cf, n, before);
    }
  }

  /** A course contributed to one of the first `m` texts is contributed to one of the first `n >= m`. */
  lemma FromEarlierText(texts: seq<string>, links: seq<string>, cf: string -> string -> seq<string>, m: nat, n: nat, groups: seq<seq<string>>)
    requires m <= n <= |texts|
    requires forall gr, c :: gr in groups && c in gr ==> FromText(texts, links, cf, m, c)
    ensures forall gr, c :: gr in groups && c in gr ==> FromText(texts, links, cf, n, c)
  {
    forall gr, c | gr in groups && c in gr ensures FromText(texts, links, cf, n, c) {
      var i, j :| 0 <= i < m && 0 <= j < |links| && c in cf(texts[i])(links[j]);
    }
  }

  /** A group repeats no course, and each of its courses comes from one of the links. */
  lemma GroupOfSpec(f: string -> seq<string>, links: seq<string>)
    ensures NoDuplicates(GroupOf(f, links))
    ensures forall c :: c in GroupOf(f, links) ==> exists j :: 0 <= j < |links| && c in f(links[j])
  {
    DedupSpec(Gathered(f, links, |links|));
    forall c | c in GroupOf(f, links) ensures exists j :: 0 <= j < |links| && c in f(links[j]) {
      GatheredFrom(f, links, |links|, c);
    }
  }

  /** Appending a non-empty group of courses that satisfy `ok` keeps every group non-empty, repeat-free and made of such courses. */
  lemma AppendGroup(before: seq<seq<string>>, courses: seq<string>, ok: string -> bool)
    requires forall gr :: gr in before ==> gr != [] && NoDuplicates(gr)
    requires forall gr, c :: gr in before && c in gr ==> ok(c)
    requires courses != [] && NoDuplicates(courses) && forall c :: c in courses ==> ok(c)
    ensures forall gr :: gr in before + [courses] ==> gr != [] && NoDuplicates(gr)
    ensures forall gr, c :: gr in before + [courses] && c in gr ==> ok(c)
  {
  }

  /** The step of `GroupsSpec`; `before` are the groups of the texts before text `n - 1`. */
  lemma GroupsSpecStep(texts: seq<string>, links: seq<string>, cf: string -> string -> seq<string>, n: nat, before: seq<seq<string>>)
    requires 0 < n <= |texts|
    requires before == GroupsUpTo(texts, links, cf, n - 1)
    requires forall gr :: gr in before ==> gr != [] && NoDuplicates(gr)
    requires forall gr, c :: gr in before && c in gr ==> FromText(texts, links, cf, n, c)
    ensures forall gr :: gr in GroupsUpTo(texts, links, cf, n) ==> gr != [] && NoDuplicates(gr)
    ensures forall gr, c :: gr in GroupsUpTo(texts, links, cf, n) && c in gr ==> FromText(texts, links, cf, n, c)
  {
    var courses := GroupOf(cf(texts[n - 1]), links);
    if OpensWithOrConcurrent(texts[n - 1]) {
      assert GroupsUpTo(texts, links, cf, n) == before;
    } else if courses != [] {
      assert GroupsUpTo(texts, links, cf, n) == before + [courses];
      GroupOfSpec(cf(texts[n - 1]), links);
      forall c | c in courses ensures FromText(texts, links, cf, n, c) {
        var j :| 0 <= j < |links| && c in cf(texts[n - 1])(links[j]);
        assert 0 <= n - 1 < n;
      }
      AppendGroup(before, courses, c => FromText(texts, links, cf, n, c));
    } else {
      assert GroupsUpTo(texts, links, cf, n) == before;
    }
  }

  /**
   * Every prerequisite group is non-empty and repeats no course, and every
   * course in it came from a link that starts like a course code, is not
   * the course's own code and appears in that group's text.
   */
  lemma PrereqGroupsSpec(texts: seq<string>, links: seq<string>, code: Option<string>)
    ensures forall gr :: gr in PrereqGroups(texts, links, code) ==> gr != [] && NoDuplicates(gr)
    ensures forall gr, c :: gr in PrereqGroups(texts, links, code) && c in gr ==>
      exists i, j :: 0 <= i < |texts| && 0 <= j < |links| && c in LinkCourses(texts[i], links[j], code) &&
        StartsWithCode(links[j]) && Some(links[j]) != code && InGroup(texts[i], links[j])
  {
    GroupsSpec(texts, links, Contributions(code), |texts|);
  }

  // ---------------------------------------------------------------------------
  // Everything the prerequisite branch produces
  // ---------------------------------------------------------------------------

  /** The prerequisite fields of a course: the text, the groups and the flat list. */
  datatype Prereqs = Prereqs(text: Option<string>, groups: seq<seq<string>>, courses: seq<string>)

  /** Where the first "Prerequisite(s):" keyword ends, if the text has one. */
  function PrereqKeywordEnd(full: string): (r: Option<nat>)
    ensures r.Some? ==> r.value <= |full|
  {
    assert forall k: nat :: PrereqStart(full)(k) == PrereqStartAt(full, k);
    match Search(PrereqStart(full), 0, |full| + 1)
    case Some(m) => Some(m.1)
    case None => None
  }

  /** The prerequisite text: after the keyword, up to the earliest stop pattern, cleaned. */
  function PrereqText(full: string, start: nat): string
    requires start <= |full|
  {
    var section := full[start..];
    PrereqEndSpec(section);
    CleanPrereq(section[..PrereqEnd(section)])
  }

  /** The group texts: the link section, normalized and split at semicolons. */
  function GroupTexts(full: string): seq<string> {
    SplitSemicolons(Normalize(LinkSection(full)))
  }

  /** The prerequisite branch of parse_course_block; `links` are the course links' normalized texts. */
  function PrereqsOf(full: string, links: seq<string>, code: Option<string>): Prereqs {
    match PrereqKeywordEnd(full)
    case None => Prereqs(None, [], [])
    case Some(start) =>
      var groups := PrereqGroups(GroupTexts(full), links, code);
      Prereqs(Some(PrereqText(full, start)), groups, Dedup(Flatten(groups)))
  }
}
