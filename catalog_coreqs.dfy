// The corequisite part of parse_course_block: the "Corequisite in" or
// "Concurrent enrollment in" clause, the prerequisite groups that may also be
// taken concurrently, the older "..., or concurrent enrollment" lists, and
// the final de-duplication.
module CatalogCoreqs {
  import opened Common
  import opened CourseCatalog
  import opened CatalogPrereqs

  /** The corequisite fields of a course: the text, the groups and the flat list. */
  datatype Coreqs = Coreqs(text: Option<string>, groups: seq<seq<string>>, courses: seq<string>)

  /** Every listed course is in some group, and every course of every group is listed. */
  ghost predicate Consistent(st: Coreqs) {
    forall c :: c in st.courses <==> exists g :: g in st.groups && c in g
  }

  // ---------------------------------------------------------------------------
  // Appending what is not already there
  // ---------------------------------------------------------------------------

  /** `xs` after appending, in order, each element of `ys` that it does not hold yet. */
  function AddNew(xs: seq<string>, ys: seq<string>): seq<string> {
    if ys == [] then xs
    else
      var a := AddNew(xs, ys[..|ys| - 1]);
      if ys[|ys| - 1] in a then a else a + [ys[|ys| - 1]]
  }

  lemma AddNewSnoc(xs: seq<string>, ys: seq<string>, y: string)
    ensures AddNew(xs, ys + [y]) == if y in AddNew(xs, ys) then AddNew(xs, ys) else AddNew(xs, ys) + [y]
  {
    assert (ys + [y])[..|ys|] == ys;
  }

  /**
   * The old elements stay in front, the result holds exactly the elements of
   * both, and nothing is repeated that was not repeated before.
   */
  lemma {:induction false} AddNewSpec(xs: seq<string>, ys: seq<string>)
    ensures |xs| <= |AddNew(xs, ys)| && AddNew(xs, ys)[..|xs|] == xs
    ensures forall c :: c in AddNew(xs, ys) <==> c in xs || c in ys
    ensures NoDuplicates(xs) ==> NoDuplicates(AddNew(xs, ys))
  {
    if ys != [] {
      var p := ys[..|ys| - 1];
      AddNewSpec(xs, p);
      assert ys == p + [ys[|ys| - 1]];
      var a := AddNew(xs, p);
      if ys[|ys| - 1] !in a {
        assert (a + [ys[|ys| - 1]])[..|xs|] == a[..|xs|];
      }
    }
  }

  /** Starting from nothing, appending what is new is order-preserving de-duplication. */
  lemma {:induction false} AddNewIsDedup(ys: seq<string>)
    ensures AddNew([], ys) == Dedup(ys)
  {
    if ys != [] {
      AddNewIsDedup(ys[..|ys| - 1]);
    }
  }

  /** The `for course in group: if course not in courses: courses.append(course)` loop. */
  method AppendNew(xs: seq<string>, ys: seq<string>) returns (zs: seq<string>)
    ensures zs == AddNew(xs, ys)
  {
    zs := xs;
    for k := 0 to |ys|
      invariant zs == AddNew(xs, ys[..k])
    {
      assert ys[..k + 1] == ys[..k] + [ys[k]];
      AddNewSnoc(xs, ys[..k], ys[k]);
      if ys[k] !in zs {
        zs := zs + [ys[k]];
      }
    }
    assert ys[..|ys|] == ys;
  }

  /** A group joins the groups unless it is there already; its courses join the flat list. */
  function AddGroup(st: Coreqs, g: seq<string>): Coreqs {
    Coreqs(st.text, if g in st.groups then st.groups else st.groups + [g], AddNew(st.courses, g))
  }

  /** The groups after adding `g` are the old ones and `g`. */
  lemma AddGroupMembers(st: Coreqs, g: seq<string>)
    ensures forall h :: h in AddGroup(st, g).groups <==> h in st.groups || h == g
  {
  }

  lemma AddGroupSpec(st: Coreqs, g: seq<string>)
    ensures g in AddGroup(st, g).groups
    ensures forall h :: h in AddGroup(st, g).groups <==> h in st.groups || h == g
    ensures NoDuplicates(st.groups) ==> NoDuplicates(AddGroup(st, g).groups)
    ensures NoDuplicates(st.courses) ==> NoDuplicates(AddGroup(st, g).courses)
    ensures Consistent(st) ==> Consistent(AddGroup(st, g))
  {
    AddNewSpec(st.courses, g);
    var r := AddGroup(st, g);
    if Consistent(st) {
      forall c ensures c in r.courses <==> exists h :: h in r.groups && c in h {
        if c in g {
          assert g in r.groups;
        }
      }
    }
  }

  // ---------------------------------------------------------------------------
  // The corequisite clause
  // ---------------------------------------------------------------------------

  /** `(?:Corequisite|Concurrent\s+enrollment)\s+in\s+` at `k`, in any case: where the course list starts. */
  function CoreqLeadEnd(s: string, k: nat): (r: Option<nat>)
    ensures r.Some? ==> k < r.value <= |s|
  {
    var w := if LitAtCI(s, k, "corequisite") then Some(k + 11) else PhraseEnd(s, k, Concurrent);
    match w
    case None => None
    case Some(a) =>
      var b := Skip(s, a, IsSpace);
      if b > a && LitAtCI(s, b, "in") then
        var c := Skip(s, b + 2, IsSpace);
        if c > b + 2 then Some(c) else None
      else None
  }

  // `(?:\s*/\s*CODE)?` after a code that ends at `e`, letters in any case.
  function SlashOptEnd(s: string, e: nat): (r: nat)
    requires e <= |s|
    ensures e <= r <= |s|
  {
    var q := Skip(s, e, IsSpace);
    if q < |s| && s[q] == '/' then
      match CodeEnd(s, Skip(s, q + 1, IsSpace), IsAlpha)
      case Some(f) => f
      case None => e
    else e
  }

  /** The corequisite pattern at `k`: the captured course list's start and end. */
  function CoreqAt(s: string, k: nat): (r: Option<(nat, nat)>)
    ensures r.Some? ==> k < r.value.0 < r.value.1 <= |s|
  {
    match CoreqLeadEnd(s, k)
    case None => None
    case Some(c) =>
      match CodeEnd(s, c, IsAlpha)
      case None => None
      case Some(e) => Some((c, SlashOptEnd(s, e)))
  }

  function CoreqMatcher(s: string): nat -> Option<(nat, nat)> { (k: nat) => CoreqAt(s, k) }

  /** `re.search` of the corequisite pattern: where the match starts, and the captured span. */
  function FirstCoreq(s: string): (r: Option<(nat, nat, nat)>)
    ensures r.Some? ==>
      r.value.0 < r.value.1 < r.value.2 <= |s| && CoreqAt(s, r.value.0) == Some((r.value.1, r.value.2))
    ensures r.Some? ==> forall k: nat :: k < r.value.0 ==> CoreqAt(s, k).None?
    ensures r.None? ==> forall k: nat :: k <= |s| ==> CoreqAt(s, k).None?
  {
    assert forall k: nat :: CoreqMatcher(s)(k) == CoreqAt(s, k);
    match Search(CoreqMatcher(s), 0, |s| + 1)
    case None => None
    case Some(m) => Some((m.0, m.1.0, m.1.1))
  }

  /** The course's own code never counts. */
  function NotCode(code: Option<string>): string -> bool { (c: string) => Some(c) != code }

  /** The corequisite courses a captured course list names: its slash parts, or the list itself, but never the course's own code. */
  function ClauseCourses(t: string, code: Option<string>): (r: seq<string>)
    ensures forall c :: c in r ==> Some(c) != code
    ensures forall c :: c in r <==> Some(c) != code && if '/' in t then c in SlashCodes(t) else c == t
  {
    if '/' in t then Filter(SlashCodes(t), NotCode(code))
    else if Some(t) != code then [t] else []
  }

  /**
   * The clause is preceded by "or concurrent enrollment": the text before the
   * first occurrence of the lower-cased match, in the lower-cased description,
   * holds that phrase.
   */
  predicate AfterOrConcurrent(full: string, k: nat, e: nat)
    requires k <= e <= |full|
  {
    var pos := Find(Lower(full), Lower(full[k..e]));
    var before := if pos > 0 then Lower(full[..pos]) else [];
    HasPhrase(before, OrConcurrent)
  }

  /** What the corequisite clause contributes. */
  function ClauseCoreqs(full: string, code: Option<string>): (r: Coreqs)
    ensures Consistent(r) && NoDuplicates(r.groups)
    ensures forall c :: c in r.courses ==> Some(c) != code
    ensures r.courses != [] ==> r.text.Some?
  {
    match FirstCoreq(full)
    case None => Coreqs(None, [], [])
    case Some((k, c, e)) =>
      if AfterOrConcurrent(full, k, e) then Coreqs(None, [], []) else ClauseGroup(Strip(full[c..e]), code)
  }

  /** The text, group and courses of a clause whose captured course list is `t`. */
  function ClauseGroup(t: string, code: Option<string>): (r: Coreqs)
    ensures Consistent(r) && NoDuplicates(r.groups)
    ensures forall c :: c in r.courses ==> Some(c) != code
    ensures r.text == Some("Concurrent enrollment in " + t)
  {
    var group := ClauseCourses(t, code);
    Coreqs(Some("Concurrent enrollment in " + t), if group == [] then [] else [group], group)
  }

  // ---------------------------------------------------------------------------
  // Prerequisite groups that may also be taken concurrently
  // ---------------------------------------------------------------------------

  /** The texts read for "or concurrent enrollment": up to the first "cross listing", normalized and split at semicolons. */
  function MappingTexts(full: string): seq<string> {
    var idx := Find(Lower(full), "cross listing");
    var e := if idx == -1 then |full| else idx;
    SplitSemicolons(Normalize(if e > 0 then full[..e] else full))
  }

  /** `re.search(r"or\s+concurrent\s+enrollment", t, re.IGNORECASE)` succeeds. */
  predicate OrConcurrentIn(t: string) {
    HasPhrase(t, OrConcurrent)
  }

  /**
   * The mapping as written: the `i`-th text that mentions "or concurrent
   * enrollment" selects the `i`-th prerequisite group.
   */
  function MapAsWritten(st: Coreqs, texts: seq<string>, conc: string -> bool, pgroups: seq<seq<string>>, n: nat): Coreqs
    requires n <= |texts|
  {
    if n == 0 then st
    else
      var s := MapAsWritten(st, texts, conc, pgroups, n - 1);
      if conc(texts[n - 1]) && n - 1 < |pgroups| then AddGroup(s, pgroups[n - 1]) else s
  }

  /** Prerequisite group `i`, which came from text `origins[i]`, may be taken concurrently. */
  predicate Concurrently(texts: seq<string>, conc: string -> bool, origins: seq<nat>, i: nat)
    requires i < |origins|
  {
    origins[i] < |texts| && conc(texts[origins[i]])
  }

  /**
   * The mapping, corrected: each of the first `n` prerequisite groups is
   * looked up by the index of the text it came from.
   */
  function MapUpTo(st: Coreqs, texts: seq<string>, conc: string -> bool, pgroups: seq<seq<string>>, origins: seq<nat>, n: nat): Coreqs
    requires n <= |pgroups| == |origins|
  {
    if n == 0 then st
    else
      var s := MapUpTo(st, texts, conc, pgroups, origins, n - 1);
      if Concurrently(texts, conc, origins, n - 1) then AddGroup(s, pgroups[n - 1]) else s
  }

  /** Exactly the prerequisite groups whose own text mentions "or concurrent enrollment" are added. */
  lemma {:induction false} MapGroups(st: Coreqs, texts: seq<string>, conc: string -> bool, pgroups: seq<seq<string>>, origins: seq<nat>, n: nat)
    requires n <= |pgroups| == |origins|
    ensures MapUpTo(st, texts, conc, pgroups, origins, n).text == st.text
    ensures forall g :: g in MapUpTo(st, texts, conc, pgroups, origins, n).groups <==>
      g in st.groups || exists i :: 0 <= i < n && Concurrently(texts, conc, origins, i) && g == pgroups[i]
  {
    if n > 0 {
      MapGroups(st, texts, conc, pgroups, origins, n - 1);
      var s := MapUpTo(st, texts, conc, pgroups, origins, n - 1);
      var r := MapUpTo(st, texts, conc, pgroups, origins, n);
      var last := Concurrently(texts, conc, origins, n - 1);
      if last {
        AddGroupSpec(s, pgroups[n - 1]);
      }
      forall g ensures g in r.groups <==>
        g in st.groups || exists i :: 0 <= i < n && Concurrently(texts, conc, origins, i) && g == pgroups[i]
      {
        if exists i :: 0 <= i < n && Concurrently(texts, conc, origins, i) && g == pgroups[i] {
          var i :| 0 <= i < n && Concurrently(texts, conc, origins, i) && g == pgroups[i];
          if i < n - 1 {
            assert g in s.groups;
          }
        }
      }
    }
  }

  /** The mapping keeps the flat list and the groups consistent and free of repeats. */
  lemma {:induction false} MapKeeps(st: Coreqs, texts: seq<string>, conc: string -> bool, pgroups: seq<seq<string>>, origins: seq<nat>, n: nat)
    requires n <= |pgroups| == |origins|
    requires NoDuplicates(st.groups) && Consistent(st)
    ensures var r := MapUpTo(st, texts, conc, pgroups, origins, n);
      NoDuplicates(r.groups) && Consistent(r) && r.text == st.text &&
      (NoDuplicates(st.courses) ==> NoDuplicates(r.courses))
  {
    if n > 0 {
      MapKeeps(st, texts, conc, pgroups, origins, n - 1);
      var s := MapUpTo(st, texts, conc, pgroups, origins, n - 1);
      if Concurrently(texts, conc, origins, n - 1) {
        AddGroupSpec(s, pgroups[n - 1]);
      }
    }
  }

  /** The mapping loop, over the prerequisite groups in order. */
  method MapConcurrent(st: Coreqs, texts: seq<string>, conc: string -> bool, pgroups: seq<seq<string>>, origins: seq<nat>)
    returns (r: Coreqs)
    requires |pgroups| == |origins|
    ensures r == MapUpTo(st, texts, conc, pgroups, origins, |pgroups|)
  {
    r := st;
    for i := 0 to |pgroups|
      invariant r == MapUpTo(st, texts, conc, pgroups, origins, i)
    {
      var o := origins[i];
      if o < |texts| && conc(texts[o]) {
        var prereqGroup := pgroups[i];
        var groups := r.groups;
        if prereqGroup !in groups {
          groups := groups + [prereqGroup];
        }
        var courses := AppendNew(r.courses, prereqGroup);
        r := Coreqs(r.text, groups, courses);
      }
    }
  }

  /**
   * As written, a text that yields no prerequisite group shifts the indices:
   * with link texts `u0` (no group) and `u1` (one group), and mapping texts
   * `t0` (no "or concurrent enrollment") and `t1` (with it), the group of
   * `u1` is not added, while the corrected mapping adds it.
   */
  lemma MappingMisaligned(st: Coreqs, u0: string, u1: string, t0: string, t1: string,
                          links: seq<string>, cf: string -> string -> seq<string>)
    requires GroupOf(cf(u0), links) == [] && !OpensWithOrConcurrent(u1) && GroupOf(cf(u1), links) != []
    requires !HasPhrase(t0, OrConcurrent) && HasPhrase(t1, OrConcurrent)
    ensures GroupsUpTo([u0, u1], links, cf, 2) == [GroupOf(cf(u1), links)]
    ensures GroupOrigins([u0, u1], links, cf, 2) == [1]
    ensures MapAsWritten(st, [t0, t1], OrConcurrentIn, GroupsUpTo([u0, u1], links, cf, 2), 2) == st
    ensures GroupOf(cf(u1), links) in MapUpTo(st, [t0, t1], OrConcurrentIn, [GroupOf(cf(u1), links)], [1], 1).groups
  {
    assert GroupsUpTo([u0, u1], links, cf, 1) == [];
    var texts, kept := [u0, u1], KeptBy(links, cf);
    assert !kept(texts[0]) && kept(texts[1]);
    assert Indices(texts, kept, 1) == [];
    assert GroupOrigins(texts, links, cf, 2) == Indices(texts, kept, 2) == [1];
    var pg := [GroupOf(cf(u1), links)];
    assert GroupsUpTo([u0, u1], links, cf, 2) == pg;
    assert MapAsWritten(st, [t0, t1], OrConcurrentIn, pg, 1) == st;
    assert MapAsWritten(st, [t0, t1], OrConcurrentIn, pg, 2) == st;
    assert Concurrently([t0, t1], OrConcurrentIn, [1], 0);
    AddGroupSpec(st, GroupOf(cf(u1), links));
  }

  // ---------------------------------------------------------------------------
  // The "CODE or CODE, or concurrent enrollment" lists of the prerequisite text
  // ---------------------------------------------------------------------------

  // `(?:\s*/\s*CODE)*` after a code that ends at `e`.
  function SlashRunEnd(s: string, e: nat): (r: nat)
    requires e <= |s|
    ensures e <= r <= |s|
    decreases |s| - e
  {
    var q := Skip(s, e, IsSpace);
    if q < |s| && s[q] == '/' then
      match CodeEnd(s, Skip(s, q + 1, IsSpace), IsAlpha)
      case Some(f) => SlashRunEnd(s, f)
      case None => e
    else e
  }

  // `(?:\s+or\s+CODE(?:\s*/\s*CODE)?)*` after `e`.
  function OrRunEnd(s: string, e: nat): (r: nat)
    requires e <= |s|
    ensures e <= r <= |s|
    decreases |s| - e
  {
    var q := Skip(s, e, IsSpace);
    if q > e && LitAtCI(s, q, "or") then
      var c := Skip(s, q + 2, IsSpace);
      if c > q + 2 then
        match CodeEnd(s, c, IsAlpha)
        case Some(f) => OrRunEnd(s, SlashOptEnd(s, f))
        case None => e
      else e
    else e
  }

  /**
   * The course list followed by `\s*,\s*or\s+concurrent\s+enrollment` at `k`:
   * the captured list's start and end, and the match's end.
   */
  function OrListAt(s: string, k: nat): (r: Option<(nat, nat, nat)>)
    ensures r.Some? ==> r.value.0 == k < r.value.1 < r.value.2 <= |s|
  {
    match CodeEnd(s, k, IsAlpha)
    case None => None
    case Some(e1) =>
      var e := OrRunEnd(s, SlashRunEnd(s, e1));
      match OrTailEnd(s, e)
      case Some(m) => Some((k, e, m))
      case None => None
  }

  /** `\s*,\s*or\s+concurrent\s+enrollment` at `e`: where it ends. */
  function OrTailEnd(s: string, e: nat): (r: Option<nat>)
    requires e <= |s|
    ensures r.Some? ==> e < r.value <= |s|
  {
    var q := Skip(s, e, IsSpace);
    if q < |s| && s[q] == ',' then PhraseEnd(s, Skip(s, q + 1, IsSpace), OrConcurrent) else None
  }

  function OrList(s: string): nat -> Option<(nat, nat, nat)> { (k: nat) => OrListAt(s, k) }

  /** The stripped course lists of every "..., or concurrent enrollment" in the prerequisite text. */
  function OrListTexts(p: string): seq<string> {
    MapSeq(FindAll(p, OrList(p), 0), Strip)
  }

  /** `\s+or\s+` at `k`, in any case: where the separator ends. */
  function OrSepAt(s: string, k: nat): (r: Option<nat>)
    ensures r.Some? ==> k < r.value <= |s|
  {
    if k > |s| then None
    else
      var q := Skip(s, k, IsSpace);
      if q > k && LitAtCI(s, q, "or") then
        var e := Skip(s, q + 2, IsSpace);
        if e > q + 2 then Some(e) else None
      else None
  }

  function OrSep(s: string): nat -> Option<nat> { (k: nat) => OrSepAt(s, k) }

  /** The codes one "or"-separated part names: its slash parts, or the stripped part itself. */
  function PartCodes(part: string): seq<string> {
    var p := Strip(part);
    if '/' in p then SlashCodes(p) else [p]
  }

  /** The "or"-separated parts of a course list. */
  function OrParts(t: string): seq<string> {
    SplitAt(t, OrSep(t), 0)
  }

  /** The group one course list makes: its codes other than the course's own, each once, in order. */
  function ListGroup(t: string, code: Option<string>): seq<string> {
    var parts := OrParts(t);
    AddNew([], Filter(Gathered(PartCodes, parts, |parts|), NotCode(code)))
  }

  function ListGroupOf(code: Option<string>): string -> seq<string> { (t: string) => ListGroup(t, code) }

  /**
   * The group leaves out the course's own code and repeats nothing; it holds
   * every other code of every part.
   */
  lemma ListGroupSpec(t: string, code: Option<string>)
    ensures NoDuplicates(ListGroup(t, code))
    ensures forall c :: c in ListGroup(t, code) <==>
      Some(c) != code && exists j :: 0 <= j < |OrParts(t)| && c in PartCodes(OrParts(t)[j])
  {
    var parts := OrParts(t);
    var codes := Gathered(PartCodes, parts, |parts|);
    AddNewIsDedup(Filter(codes, NotCode(code)));
    DedupSpec(Filter(codes, NotCode(code)));
    GatheredMembers(PartCodes, parts);
  }

  /** The courses gathered from all the links are exactly those some link adds. */
  lemma GatheredMembers(f: string -> seq<string>, links: seq<string>)
    ensures forall c :: c in Gathered(f, links, |links|) <==> exists j :: 0 <= j < |links| && c in f(links[j])
  {
    forall c | c in Gathered(f, links, |links|) ensures exists j :: 0 <= j < |links| && c in f(links[j]) {
      GatheredFrom(f, links, |links|, c);
    }
    forall c, j | 0 <= j < |links| && c in f(links[j]) ensures c in Gathered(f, links, |links|) {
      GatheredHas(f, links, |links|, j, c);
    }
  }

  /** A course one of the first `n` links adds is gathered. */
  lemma {:induction false} GatheredHas(f: string -> seq<string>, links: seq<string>, n: nat, j: nat, c: string)
    requires j < n <= |links| && c in f(links[j])
    ensures c in Gathered(f, links, n)
  {
    if j < n - 1 {
      GatheredHas(f, links, n - 1, j, c);
    }
  }

  /** One list's group joins the groups when it is non-empty; its courses join the flat list. */
  function ListStep(st: Coreqs, g: seq<string>): Coreqs {
    if g == [] then st else AddGroup(st, g)
  }

  /** The first `n` lists, where `lg(t)` is the group list `t` makes. */
  function ListsUpTo(st: Coreqs, texts: seq<string>, lg: string -> seq<string>, n: nat): Coreqs
    requires n <= |texts|
  {
    if n == 0 then st else ListStep(ListsUpTo(st, texts, lg, n - 1), lg(texts[n - 1]))
  }

  /** The lists keep the flat list and the groups consistent and free of repeats. */
  lemma {:induction false} ListsSpec(st: Coreqs, texts: seq<string>, lg: string -> seq<string>, n: nat)
    requires n <= |texts|
    requires NoDuplicates(st.groups) && Consistent(st)
    ensures var r := ListsUpTo(st, texts, lg, n);
      NoDuplicates(r.groups) && Consistent(r) && r.text == st.text &&
      (NoDuplicates(st.courses) ==> NoDuplicates(r.courses))
  {
    if n > 0 {
      ListsSpec(st, texts, lg, n - 1);
      var s := ListsUpTo(st, texts, lg, n - 1);
      var g := lg(texts[n - 1]);
      if g != [] {
        AddGroupSpec(s, g);
      }
    }
  }

  /**
   * When every group a list makes repeats nothing and leaves out the course's
   * own code, the lists add only such groups.
   */
  lemma {:induction false} ListsGroups(st: Coreqs, texts: seq<string>, lg: string -> seq<string>, code: Option<string>, n: nat)
    requires n <= |texts|
    requires forall i :: 0 <= i < n ==> NoDuplicates(lg(texts[i])) && forall c :: c in lg(texts[i]) ==> Some(c) != code
    ensures forall g :: g in ListsUpTo(st, texts, lg, n).groups ==>
      g in st.groups || (g != [] && NoDuplicates(g) && forall c :: c in g ==> Some(c) != code)
  {
    if n > 0 {
      ListsGroups(st, texts, lg, code, n - 1);
      var s := ListsUpTo(st, texts, lg, n - 1);
      var g := lg(texts[n - 1]);
      assert NoDuplicates(g) && forall c :: c in g ==> Some(c) != code;
      if g != [] {
        AddGroupMembers(s, g);
      }
    }
  }

  /** The groups the "or" lists of a text add never name the course itself and repeat nothing. */
  lemma OrListGroups(st: Coreqs, text: string, code: Option<string>)
    ensures var lists := OrListTexts(text);
      forall g :: g in ListsUpTo(st, lists, ListGroupOf(code), |lists|).groups ==>
        g in st.groups || (g != [] && NoDuplicates(g) && forall c :: c in g ==> Some(c) != code)
  {
    var lists := OrListTexts(text);
    forall i | 0 <= i < |lists|
      ensures NoDuplicates(ListGroupOf(code)(lists[i])) && forall c :: c in ListGroupOf(code)(lists[i]) ==> Some(c) != code
    {
      ListGroupSpec(lists[i], code);
    }
    ListsGroups(st, lists, ListGroupOf(code), code, |lists|);
  }

  /**
   * The loops over the parts and over each part's codes: a code joins the
   * group when `keep` holds and it is not there yet, and then joins the flat
   * list unless it is there already.
   */
  method CollectList(parts: seq<string>, codesOf: string -> seq<string>, keep: string -> bool, courses0: seq<string>)
    returns (group: seq<string>, courses: seq<string>)
    ensures group == AddNew([], Filter(Gathered(codesOf, parts, |parts|), keep))
    ensures courses == AddNew(courses0, group)
  {
    group, courses := [], courses0;
    for j := 0 to |parts|
      invariant group == AddNew([], Filter(Gathered(codesOf, parts, j), keep))
      invariant courses == AddNew(courses0, group)
    {
      var codes := codesOf(parts[j]);
      ghost var before := Filter(Gathered(codesOf, parts, j), keep);
      FilterAppend(Gathered(codesOf, parts, j), codes, keep);
      AddNewAppend([], before, Filter(codes, keep));
      group, courses := CollectCodes(codes, keep, courses0, group, courses);
    }
  }

  /** The loop over one part's codes. */
  method CollectCodes(codes: seq<string>, keep: string -> bool, ghost courses0: seq<string>,
                      group0: seq<string>, courses1: seq<string>)
    returns (group: seq<string>, courses: seq<string>)
    requires courses1 == AddNew(courses0, group0)
    ensures group == AddNew(group0, Filter(codes, keep))
    ensures courses == AddNew(courses0, group)
  {
    group, courses := group0, courses1;
    assert Filter(codes[..0], keep) == [];
    for k := 0 to |codes|
      invariant group == AddNew(group0, Filter(codes[..k], keep))
      invariant courses == AddNew(courses0, group)
    {
      assert codes[..k + 1] == codes[..k] + [codes[k]];
      group, courses := CollectCode(codes[..k], codes[k], keep, group0, courses0, group, courses);
    }
    assert codes[..|codes|] == codes;
  }

  /** One code of the loop: a kept code not yet in the group joins it, and the flat list when new there too. */
  method CollectCode(ghost seen: seq<string>, c: string, keep: string -> bool, group0: seq<string>, ghost courses0: seq<string>,
                     group: seq<string>, courses: seq<string>)
    returns (group': seq<string>, courses': seq<string>)
    requires group == AddNew(group0, Filter(seen, keep)) && courses == AddNew(courses0, group)
    ensures group' == AddNew(group0, Filter(seen + [c], keep)) && courses' == AddNew(courses0, group')
  {
    CollectStep(seen, c, keep, group0, courses0, group, courses);
    group', courses' := group, courses;
    if keep(c) && c !in group {
      group' := group + [c];
      if c !in courses {
        courses' := courses + [c];
      }
    }
  }

  /** One step of the loop over the codes keeps both of its invariants. */
  lemma CollectStep(seen: seq<string>, c: string, keep: string -> bool, group0: seq<string>, courses0: seq<string>,
                    group: seq<string>, courses: seq<string>)
    requires group == AddNew(group0, Filter(seen, keep)) && courses == AddNew(courses0, group)
    ensures var added := keep(c) && c !in group;
      var group' := if added then group + [c] else group;
      group' == AddNew(group0, Filter(seen + [c], keep)) &&
      (if added && c !in courses then courses + [c] else courses) == AddNew(courses0, group')
  {
    FilterSnoc(seen, c, keep);
    if keep(c) {
      assert Filter(seen + [c], keep) == Filter(seen, keep) + [c];
      AddNewSnoc(group0, Filter(seen, keep), c);
      AddNewSnoc(courses0, group, c);
    } else {
      assert Filter(seen + [c], keep) == Filter(seen, keep);
    }
  }

  /** Appending what is new from two lists in turn is appending what is new from their concatenation. */
  lemma {:induction false} AddNewAppend(xs: seq<string>, ys: seq<string>, zs: seq<string>)
    ensures AddNew(xs, ys + zs) == AddNew(AddNew(xs, ys), zs)
    decreases |zs|
  {
    if zs == [] {
      assert ys + zs == ys;
    } else {
      var z := zs[|zs| - 1];
      var init := zs[..|zs| - 1];
      assert zs == init + [z];
      assert ys + zs == (ys + init) + [z];
      AddNewAppend(xs, ys, init);
      AddNewSnoc(xs, ys + init, z);
      AddNewSnoc(AddNew(xs, ys), init, z);
    }
  }

  /** One "..., or concurrent enrollment" match. */
  method AddListGroup(st: Coreqs, t: string, code: Option<string>) returns (r: Coreqs)
    ensures r == ListStep(st, ListGroup(t, code))
  {
    var group, courses := CollectList(OrParts(t), PartCodes, NotCode(code), st.courses);
    r := st;
    if group != [] {
      var groups := st.groups;
      if group !in groups {
        groups := groups + [group];
      }
      r := Coreqs(st.text, groups, courses);
    }
  }

  /** The loop over the "..., or concurrent enrollment" matches. */
  method AddListGroups(st: Coreqs, texts: seq<string>, code: Option<string>) returns (r: Coreqs)
    ensures r == ListsUpTo(st, texts, ListGroupOf(code), |texts|)
  {
    r := st;
    for i := 0 to |texts|
      invariant r == ListsUpTo(st, texts, ListGroupOf(code), i)
    {
      r := AddListGroup(r, texts[i], code);
    }
  }

  // ---------------------------------------------------------------------------
  // Everything the corequisite branch produces
  // ---------------------------------------------------------------------------

  /** The final step: the flat list de-duplicated in first-seen order, and a text made from it when none was set. */
  function Finish(st: Coreqs): Coreqs {
    if st.courses == [] then st
    else
      var unique := Dedup(st.courses);
      Coreqs(if st.text.None? then Some("Concurrent enrollment in " + Join(", ", unique)) else st.text, st.groups, unique)
  }

  /** The flat list is the de-duplicated list, in first-seen order, and it has a text when non-empty. */
  lemma FinishSpec(st: Coreqs)
    ensures Finish(st).courses == Dedup(st.courses) && Finish(st).groups == st.groups
    ensures NoDuplicates(Finish(st).courses)
    ensures forall c :: c in Finish(st).courses <==> c in st.courses
    ensures Finish(st).courses != [] ==> Finish(st).text.Some?
    ensures st.text.Some? ==> Finish(st).text == st.text
  {
    DedupSpec(st.courses);
  }

  /** The de-duplication loop and the text it sets. */
  method FinishCoreqs(st: Coreqs) returns (r: Coreqs)
    ensures r == Finish(st)
  {
    r := st;
    if st.courses != [] {
      var unique := DedupInOrder(st.courses);
      var text := st.text;
      if text.None? {
        text := Some("Concurrent enrollment in " + Join(", ", unique));
      }
      r := Coreqs(text, st.groups, unique);
    }
  }

  /**
   * The branch on the prerequisite fields: the mapped groups, then the
   * course lists of the prerequisite text when it mentions "or concurrent
   * enrollment", then the final step.
   */
  function Combine(st: Coreqs, pre: Prereqs, mtexts: seq<string>, conc: string -> bool, origins: seq<nat>,
                   lists: seq<string>, lg: string -> seq<string>): Coreqs
    requires |origins| == |pre.groups|
  {
    var st2 :=
      if pre.text.Some? && pre.text.value != [] && pre.groups != [] then
        var mapped := MapUpTo(st, mtexts, conc, pre.groups, origins, |pre.groups|);
        if conc(pre.text.value) then ListsUpTo(mapped, lists, lg, |lists|) else mapped
      else st;
    Finish(st2)
  }

  /** Combining keeps the flat list and the groups consistent and free of repeats, and gives a non-empty list a text. */
  lemma CombineSpec(st: Coreqs, pre: Prereqs, mtexts: seq<string>, conc: string -> bool, origins: seq<nat>,
                    lists: seq<string>, lg: string -> seq<string>)
    requires |origins| == |pre.groups|
    requires NoDuplicates(st.groups) && Consistent(st)
    ensures var r := Combine(st, pre, mtexts, conc, origins, lists, lg);
      NoDuplicates(r.courses) && NoDuplicates(r.groups) && Consistent(r) && (r.courses != [] ==> r.text.Some?)
  {
    var mapped := MapUpTo(st, mtexts, conc, pre.groups, origins, |pre.groups|);
    MapKeeps(st, mtexts, conc, pre.groups, origins, |pre.groups|);
    ListsSpec(mapped, lists, lg, |lists|);
    var st2 :=
      if pre.text.Some? && pre.text.value != [] && pre.groups != [] then
        if conc(pre.text.value) then ListsUpTo(mapped, lists, lg, |lists|) else mapped
      else st;
    assert Combine(st, pre, mtexts, conc, origins, lists, lg) == Finish(st2);
    FinishSpec(st2);
  }

  /**
   * The corequisite fields, given the prerequisite fields and the index of
   * the group text each prerequisite group came from.
   */
  function CoreqsFrom(full: string, pre: Prereqs, origins: seq<nat>, code: Option<string>): Coreqs
    requires |origins| == |pre.groups|
  {
    var lists := if pre.text.Some? then OrListTexts(pre.text.value) else [];
    Combine(ClauseCoreqs(full, code), pre, MappingTexts(full), OrConcurrentIn, origins, lists, ListGroupOf(code))
  }

  /**
   * The flat corequisite list has no repeats and is exactly the courses of
   * the groups; the groups do not repeat; a non-empty list comes with a text.
   */
  lemma CoreqsSpec(full: string, pre: Prereqs, origins: seq<nat>, code: Option<string>)
    requires |origins| == |pre.groups|
    ensures var r := CoreqsFrom(full, pre, origins, code);
      NoDuplicates(r.courses) && NoDuplicates(r.groups) && Consistent(r) &&
      (r.courses != [] ==> r.text.Some?)
  {
    var lists := if pre.text.Some? then OrListTexts(pre.text.value) else [];
    CombineSpec(ClauseCoreqs(full, code), pre, MappingTexts(full), OrConcurrentIn, origins, lists, ListGroupOf(code));
  }
}
