// get_all_departments: the department links of the catalog's index page,
// parsed from their "CODE - Name (CODE)" text, de-duplicated by URL (the
// first kept) and sorted by code. The page arrives as its anchors' href
// values and stripped texts; urljoin and html.unescape are parameters.
module CatalogDepartments {
  import opened Common
  import opened CourseCatalog

  /** An anchor of the index page: its href and its stripped text. */
  datatype Link = Link(href: string, text: string)

  /** One department as the scraper reports it. */
  datatype Department = Department(id: string, title: string, longName: string, url: string, path: string)

  const DescriptionsPath: string := "/undergraduate/course-descriptions/"

  predicate NotSlash(c: char) { c != '/' }

  /** `/undergraduate/course-descriptions/[^/]+/$` matches at `k`. */
  predicate DepartmentPathAt(h: string, k: nat) {
    LitAt(h, k, DescriptionsPath) &&
    var a := k + |DescriptionsPath|;
    var b := Skip(h, a, NotSlash);
    a < b < |h| && h[b] == '/' && (b + 1 == |h| || (b + 2 == |h| && h[b + 1] == '\n'))
  }

  /** The href filter of `find_all`: the pattern is searched for anywhere in the href. */
  predicate IsDepartmentHref(h: string) {
    exists k :: 0 <= k < |h| && DepartmentPathAt(h, k)
  }

  // ---------------------------------------------------------------------------
  // ^([A-Z]+)\s*-\s*(.+?)\s*\([A-Z]+\)$
  // ---------------------------------------------------------------------------

  /** `\s*\([A-Z]+\)$` at `p`; `$` also matches before a final newline. */
  predicate ClosingCodeAt(s: string, p: nat)
    requires p <= |s|
  {
    var k := Skip(s, p, IsSpace);
    k < |s| && s[k] == '(' &&
    var m := Skip(s, k + 1, IsUpper);
    k + 1 < m < |s| && s[m] == ')' && (m + 1 == |s| || (m + 2 == |s| && s[m + 1] == '\n'))
  }

  /**
   * The lazy `.+?` whose last character is at `p - 1`: the first end from
   * `p` on where the closing code matches, taking no newline.
   */
  function LazyNameEnd(s: string, p: nat): (r: Option<nat>)
    requires 1 <= p <= |s|
    ensures r.Some? ==> p <= r.value <= |s| && ClosingCodeAt(s, r.value)
    ensures r.Some? ==> forall j :: p - 1 <= j < r.value ==> s[j] != '\n'
    decreases |s| - p
  {
    if s[p - 1] == '\n' then None
    else if ClosingCodeAt(s, p) then Some(p)
    else if p == |s| then None
    else LazyNameEnd(s, p + 1)
  }

  /**
   * The name group when `\s*` after the dash ends at `q`: `\s*` is greedy,
   * so the longest run is tried first and shorter ones, down to `c`, after.
   */
  function NameFrom(s: string, c: nat, q: nat): (r: Option<(nat, nat)>)
    requires c <= q <= |s|
    ensures r.Some? ==> c <= r.value.0 < r.value.1 <= |s|
    decreases q
  {
    var e := if q < |s| then LazyNameEnd(s, q + 1) else None;
    if e.Some? then Some((q, e.value))
    else if q == c then None
    else NameFrom(s, c, q - 1)
  }

  /** The department-text pattern: the end of the code, and the name group's start and end. */
  function MatchDepartment(s: string): (r: Option<(nat, nat, nat)>)
    ensures r.Some? ==> 0 < r.value.0 < r.value.1 < r.value.2 <= |s|
    ensures r.Some? ==> forall j :: 0 <= j < r.value.0 ==> IsUpper(s[j])
  {
    var a := Skip(s, 0, IsUpper);
    var b := Skip(s, a, IsSpace);
    if a == 0 || b >= |s| || s[b] != '-' then None
    else
      match NameFrom(s, b + 1, Skip(s, b + 1, IsSpace))
      case None => None
      case Some((q, e)) => Some((a, q, e))
  }

  /** `.replace` of the zero-width space by nothing. */
  function DropZeroWidth(s: string): (r: string)
    ensures '\U{200B}' !in r && forall ch :: ch in r <==> ch in s && ch != '\U{200B}'
  {
    Filter(s, (ch: char) => ch != '\U{200B}')
  }

  /** One link's department, or None when the link is skipped or its text does not match. */
  function DepartmentOf(l: Link, unescape: string -> string, urlJoin: string -> string): (r: Option<Department>)
    ensures r.Some? ==> r.value.id != [] && AllUpper(r.value.id) && r.value.path == l.href
    ensures r.Some? ==> r.value.longName == r.value.id + " - " + r.value.title && r.value.url == urlJoin(l.href)
  {
    if l.text == [] || '/' !in l.href then None
    else
      match MatchDepartment(l.text)
      case None => None
      case Some((a, q, e)) =>
        var code := l.text[..a];
        var name := Strip(DropZeroWidth(unescape(Strip(l.text[q..e]))));
        Some(Department(code, name, code + " - " + name, urlJoin(l.href), l.href))
  }

  /** The departments of the first `n` links that pass the href filter, in page order. */
  function ParsedUpTo(links: seq<Link>, unescape: string -> string, urlJoin: string -> string, n: nat): (r: seq<Department>)
    requires n <= |links|
    ensures forall d :: d in r ==> d.id != [] && AllUpper(d.id)
  {
    if n == 0 then []
    else
      var l := links[n - 1];
      var d := DepartmentOf(l, unescape, urlJoin);
      var before := ParsedUpTo(links, unescape, urlJoin, n - 1);
      if IsDepartmentHref(l.href) && d.Some? then before + [d.value] else before
  }

  // ---------------------------------------------------------------------------
  // De-duplication by URL
  // ---------------------------------------------------------------------------

  function Urls(ds: seq<Department>): seq<string> {
    MapSeq(ds, (d: Department) => d.url)
  }

  /** The departments whose URL was not seen earlier, in order. */
  function UniqueByUrl(ds: seq<Department>): seq<Department> {
    if ds == [] then []
    else
      var u := UniqueByUrl(ds[..|ds| - 1]);
      if ds[|ds| - 1].url in Urls(u) then u else u + [ds[|ds| - 1]]
  }

  /** Department `i` is the first with its URL. */
  predicate FirstOfUrl(ds: seq<Department>, i: nat)
    requires i < |ds|
  {
    forall j :: 0 <= j < i ==> ds[j].url != ds[i].url
  }

  lemma UrlsSnoc(u: seq<Department>, x: Department)
    ensures Urls(u + [x]) == Urls(u) + [x.url]
  {
    assert (u + [x])[..|u|] == u;
  }

  /** No two kept departments share a URL, every URL is kept, and nothing new is made up. */
  lemma {:induction false} UniqueByUrlUrls(ds: seq<Department>)
    ensures NoDuplicates(Urls(UniqueByUrl(ds)))
    ensures forall i :: 0 <= i < |ds| ==> ds[i].url in Urls(UniqueByUrl(ds))
    ensures forall d :: d in UniqueByUrl(ds) ==> d in ds
  {
    if ds != [] {
      var init, x := ds[..|ds| - 1], ds[|ds| - 1];
      assert ds == init + [x];
      UniqueByUrlUrls(init);
      var u := UniqueByUrl(init);
      if x.url !in Urls(u) {
        UrlsSnoc(u, x);
      }
    }
  }

  /** Every kept department is the first with its URL. */
  lemma {:induction false} KeptAreFirst(ds: seq<Department>)
    ensures forall d :: d in UniqueByUrl(ds) ==> exists i :: 0 <= i < |ds| && ds[i] == d && FirstOfUrl(ds, i)
  {
    if ds != [] {
      var init, x := ds[..|ds| - 1], ds[|ds| - 1];
      assert ds == init + [x];
      KeptAreFirst(init);
      var u := UniqueByUrl(init);
      forall d | d in UniqueByUrl(ds) ensures exists i :: 0 <= i < |ds| && ds[i] == d && FirstOfUrl(ds, i) {
        if d in u {
          var i :| 0 <= i < |init| && init[i] == d && FirstOfUrl(init, i);
          FirstOfUrlExtend(init, x, i);
        } else {
          FirstOfNewUrl(init, x);
        }
      }
    }
  }

  lemma FirstOfUrlExtend(init: seq<Department>, x: Department, i: nat)
    requires i < |init| && FirstOfUrl(init, i)
    ensures (init + [x])[i] == init[i] && FirstOfUrl(init + [x], i)
  {
  }

  lemma FirstOfNewUrl(init: seq<Department>, x: Department)
    requires x.url !in Urls(UniqueByUrl(init))
    ensures (init + [x])[|init|] == x && FirstOfUrl(init + [x], |init|)
  {
    UniqueByUrlUrls(init);
    forall j | 0 <= j < |init| ensures (init + [x])[j].url != x.url {
      assert (init + [x])[j] == init[j];
    }
  }

  /** Every department that is the first with its URL is kept. */
  lemma {:induction false} FirstAreKept(ds: seq<Department>)
    ensures forall i :: 0 <= i < |ds| && FirstOfUrl(ds, i) ==> ds[i] in UniqueByUrl(ds)
  {
    if ds != [] {
      var init, x := ds[..|ds| - 1], ds[|ds| - 1];
      assert ds == init + [x];
      FirstAreKept(init);
      var u := UniqueByUrl(init);
      forall i | 0 <= i < |init| && FirstOfUrl(ds, i) ensures ds[i] in u {
        assert FirstOfUrl(init, i);
      }
      if x.url in Urls(u) {
        UniqueByUrlUrls(init);
        var m :| 0 <= m < |u| && Urls(u)[m] == x.url;
        assert u[m] in u;
        var k :| 0 <= k < |init| && init[k] == u[m];
        assert ds[k].url == x.url;
      }
    }
  }

  // ---------------------------------------------------------------------------
  // The stable sort by code
  // ---------------------------------------------------------------------------

  /** Codes never decrease along `ds`. */
  predicate SortedById(ds: seq<Department>) {
    forall i, j :: 0 <= i < j < |ds| ==> LexLe(ds[i].id, ds[j].id)
  }

  /** `x` placed after every department whose code is not greater: one step of a stable insertion sort. */
  function InsertById(ds: seq<Department>, x: Department): (r: seq<Department>)
    ensures multiset(r) == multiset(ds) + multiset{x}
  {
    if ds == [] then [x]
    else if LexLe(ds[|ds| - 1].id, x.id) then ds + [x]
    else
      assert ds == ds[..|ds| - 1] + [ds[|ds| - 1]];
      InsertById(ds[..|ds| - 1], x) + [ds[|ds| - 1]]
  }

  /** Python's stable `list.sort` keyed on the code. */
  function SortById(ds: seq<Department>): (r: seq<Department>)
    ensures multiset(r) == multiset(ds)
  {
    if ds == [] then []
    else
      assert ds == ds[..|ds| - 1] + [ds[|ds| - 1]];
      InsertById(SortById(ds[..|ds| - 1]), ds[|ds| - 1])
  }

  lemma {:induction false} InsertSorted(ds: seq<Department>, x: Department)
    requires SortedById(ds)
    ensures SortedById(InsertById(ds, x))
  {
    if ds != [] {
      var init, last := ds[..|ds| - 1], ds[|ds| - 1];
      if LexLe(last.id, x.id) {
        forall i | 0 <= i < |ds| ensures LexLe(ds[i].id, x.id) {
          if i < |init| { LexLeTrans(ds[i].id, last.id, x.id); }
        }
      } else {
        InsertSorted(init, x);
        var r := InsertById(init, x);
        LexLeTotal(last.id, x.id);
        forall y | y in r ensures LexLe(y.id, last.id) {
          assert y in multiset(r);
          if y != x {
            assert y in multiset(init);
            var i :| 0 <= i < |init| && init[i] == y;
          }
        }
        forall i | 0 <= i < |r| ensures LexLe(r[i].id, last.id) {
          assert r[i] in r;
        }
      }
    }
  }

  /** The sorted list is ordered by code and holds the same departments. */
  lemma {:induction false} SortByIdSorted(ds: seq<Department>)
    ensures SortedById(SortById(ds)) && multiset(SortById(ds)) == multiset(ds)
  {
    if ds != [] {
      SortByIdSorted(ds[..|ds| - 1]);
      InsertSorted(SortById(ds[..|ds| - 1]), ds[|ds| - 1]);
    }
  }

  /** Whether a department has code `k`. */
  function HasId(k: string): Department -> bool {
    (d: Department) => d.id == k
  }

  /** Two pieces of which one is empty can be appended in either order. */
  lemma SwapPast<T>(f: seq<T>, a: seq<T>, b: seq<T>)
    requires a == [] || b == []
    ensures f + a + b == f + b + a
  {
    if a == [] {
      assert f + a == f && f + b + a == f + b;
    } else {
      assert f + a + b == f + a && f + b == f;
    }
  }

  lemma {:induction false} InsertStable(ds: seq<Department>, x: Department, k: string)
    ensures Filter(InsertById(ds, x), HasId(k)) == Filter(ds, HasId(k)) + (if x.id == k then [x] else [])
  {
    var p := HasId(k);
    assert p(x) == (x.id == k);
    if ds == [] {
      FilterSnoc([], x, p);
    } else if LexLe(ds[|ds| - 1].id, x.id) {
      FilterSnoc(ds, x, p);
    } else {
      var init, last := ds[..|ds| - 1], ds[|ds| - 1];
      assert ds == init + [last];
      LexLeRefl(x.id);
      InsertStable(init, x, k);
      FilterSnoc(InsertById(init, x), last, p);
      FilterSnoc(init, last, p);
      SwapPast(Filter(init, p), if p(x) then [x] else [], if p(last) then [last] else []);
    }
  }

  /** Stability: departments sharing a code keep their relative order. */
  lemma {:induction false} SortByIdStable(ds: seq<Department>, k: string)
    ensures Filter(SortById(ds), HasId(k)) == Filter(ds, HasId(k))
  {
    if ds != [] {
      var init, last := ds[..|ds| - 1], ds[|ds| - 1];
      assert ds == init + [last];
      SortByIdStable(init, k);
      InsertStable(SortById(init), last, k);
      FilterSnoc(init, last, HasId(k));
    }
  }

  // ---------------------------------------------------------------------------
  // get_all_departments
  // ---------------------------------------------------------------------------

  /** The departments of the index page: parsed, de-duplicated by URL, sorted by code. */
  function AllDepartments(links: seq<Link>, unescape: string -> string, urlJoin: string -> string): seq<Department> {
    SortById(UniqueByUrl(ParsedUpTo(links, unescape, urlJoin, |links|)))
  }

  /** get_all_departments over the anchors of the index page. */
  method GetAllDepartments(links: seq<Link>, unescape: string -> string, urlJoin: string -> string) returns (ds: seq<Department>)
    ensures ds == AllDepartments(links, unescape, urlJoin)
  {
    var departments := [];
    for i := 0 to |links|
      invariant departments == ParsedUpTo(links, unescape, urlJoin, i)
    {
      var l := links[i];
      if IsDepartmentHref(l.href) {
        var d := DepartmentOf(l, unescape, urlJoin);
        if d.Some? {
          departments := departments + [d.value];
        }
      }
    }
    var seen: set<string> := {};
    var unique := [];
    for i := 0 to |departments|
      invariant unique == UniqueByUrl(departments[..i])
      invariant forall c :: c in seen <==> c in Urls(unique)
    {
      var d := departments[i];
      assert departments[..i + 1][..i] == departments[..i];
      if d.url !in seen {
        UrlsSnoc(unique, d);
        seen := seen + {d.url};
        unique := unique + [d];
      }
    }
    assert departments[..|departments|] == departments;
    ds := SortById(unique);
  }

  /**
   * What get_all_departments returns: every department once per URL, the
   * first of each URL, with a non-empty upper-case code, ordered by code,
   * departments sharing a code in page order.
   */
  lemma AllDepartmentsSpec(links: seq<Link>, unescape: string -> string, urlJoin: string -> string)
    ensures var parsed := ParsedUpTo(links, unescape, urlJoin, |links|);
      var r := AllDepartments(links, unescape, urlJoin);
      SortedById(r) && multiset(r) == multiset(UniqueByUrl(parsed)) &&
      NoDuplicates(Urls(UniqueByUrl(parsed))) &&
      (forall i :: 0 <= i < |parsed| && FirstOfUrl(parsed, i) ==> parsed[i] in r) &&
      (forall d :: d in r ==> d.id != [] && AllUpper(d.id) && exists i :: 0 <= i < |parsed| && parsed[i] == d && FirstOfUrl(parsed, i)) &&
      (forall k :: Filter(r, HasId(k)) == Filter(UniqueByUrl(parsed), HasId(k)))
  {
    var parsed := ParsedUpTo(links, unescape, urlJoin, |links|);
    var u := UniqueByUrl(parsed);
    SortByIdSorted(u);
    UniqueByUrlUrls(parsed);
    KeptAreFirst(parsed);
    FirstAreKept(parsed);
    forall k ensures Filter(SortById(u), HasId(k)) == Filter(u, HasId(k)) {
      SortByIdStable(u, k);
    }
    forall d | d in SortById(u) ensures d in u {
      assert d in multiset(SortById(u));
    }
    forall i | 0 <= i < |parsed| && FirstOfUrl(parsed, i) ensures parsed[i] in SortById(u) {
      assert parsed[i] in multiset(u);
    }
  }
}
