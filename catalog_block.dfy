// parse_course_block put together, and the department page's loop over its
// course blocks. A block arrives as the texts BeautifulSoup hands the parser:
// the title element's stripped text, and for the description element the
// hours span's text, the description's text (joined with spaces and
// stripped) and the stripped texts of its course links.
module CatalogBlock {
  import opened Common
  import opened CourseCatalog
  import opened CatalogPrereqs
  import opened CatalogCoreqs
  import opened CatalogCross

  /** The description element, when the block has one. */
  datatype Desc = Desc(hours: Option<string>, text: string, links: seq<string>)

  /** A course block: its title text and its description, each possibly missing. */
  datatype Block = Block(title: Option<string>, desc: Option<Desc>)

  /** The credit and hour counts taken from the hours span. */
  datatype HourCounts = HourCounts(credits: Option<int>, lecture: Option<int>, lab: Option<int>, other: Option<int>)

  /** The fields parse_course_block fills in, apart from the description. */
  datatype CourseData = CourseData(
    code: Option<string>,
    name: Option<string>,
    hours: HourCounts,
    prereqs: Prereqs,
    coreqs: Coreqs,
    crossListings: seq<string>)

  const NoHours := HourCounts(None, None, None, None)

  /** The hours span: credits, then lecture and lab hours (case-sensitive) and other hours (any case). */
  function HoursOf(hours: Option<string>): HourCounts {
    match hours
    case None => NoHours
    case Some(h) => HourCounts(Credits(h), Hours(h, "Lecture", false), Hours(h, "Lab", false), Hours(h, "Other", true))
  }

  /** The title, normalized and matched, when the block has one. */
  function TitleOf(b: Block): Option<Title> {
    if b.title.Some? then ParseTitle(b.title.value) else None
  }

  /** The code a title gives the course. */
  function CodeOf(t: Option<Title>): Option<string> {
    if t.Some? then Some(t.value.code) else None
  }

  /** The cross-listings after the title: the second code of a slash title. */
  function TitleCross(t: Option<Title>): seq<string> {
    if t.Some? && t.value.crossListing.Some? then [t.value.crossListing.value] else []
  }

  /** For each prerequisite group, the index of the group text it came from. */
  function PrereqOrigins(full: string, links: seq<string>, code: Option<string>): (r: seq<nat>)
    ensures |r| == |PrereqsOf(full, links, code).groups|
  {
    match PrereqKeywordEnd(full)
    case None => []
    case Some(_) =>
      var texts := GroupTexts(full);
      GroupOriginsIndex(texts, links, Contributions(code), |texts|);
      GroupOrigins(texts, links, Contributions(code), |texts|)
  }

  /** The course data parse_course_block returns for a block. */
  function ParsedBlock(b: Block): CourseData {
    var title := TitleOf(b);
    var code := CodeOf(title);
    var name := if title.Some? then Some(title.value.name) else None;
    match b.desc
    case None => CourseData(code, name, NoHours, Prereqs(None, [], []), Coreqs(None, [], []), TitleCross(title))
    case Some(d) =>
      var links := MapSeq(d.links, Normalize);
      var pre := PrereqsOf(d.text, links, code);
      var origins := PrereqOrigins(d.text, links, code);
      CourseData(code, name, HoursOf(d.hours), pre, CoreqsFrom(d.text, pre, origins, code),
                 CrossListings(TitleCross(title), d.text, links, code))
  }

  /**
   * What a parsed block promises: both course lists are free of repeats and
   * in first-seen order, the corequisite list is exactly the courses of its
   * groups, and a cross-listing is either the title's second code or
   * another course's code, never repeated.
   */
  lemma ParsedBlockSpec(b: Block)
    ensures var r := ParsedBlock(b);
      r.prereqs.courses == Dedup(Flatten(r.prereqs.groups)) &&
      NoDuplicates(r.prereqs.courses) && NoDuplicates(r.coreqs.courses) && Consistent(r.coreqs) &&
      (r.coreqs.courses != [] ==> r.coreqs.text.Some?) &&
      NoDuplicates(r.crossListings) &&
      forall c :: c in r.crossListings ==> c in TitleCross(TitleOf(b)) || Some(c) != r.code
  {
    var title := TitleOf(b);
    var code := CodeOf(title);
    if b.desc.Some? {
      var d := b.desc.value;
      var links := MapSeq(d.links, Normalize);
      var pre := PrereqsOf(d.text, links, code);
      DedupSpec(Flatten(pre.groups));
      CoreqsSpec(d.text, pre, PrereqOrigins(d.text, links, code), code);
      CrossListingsSpec(TitleCross(title), d.text, links, code);
    }
  }

  // ---------------------------------------------------------------------------
  // The parser, step by step
  // ---------------------------------------------------------------------------

  /** The prerequisite branch, and the index of the group text each prerequisite group came from. */
  method ParsePrereqs(full: string, links: seq<string>, code: Option<string>) returns (pre: Prereqs, origins: seq<nat>)
    ensures pre == PrereqsOf(full, links, code) && origins == PrereqOrigins(full, links, code)
  {
    var start := PrereqKeywordEnd(full);
    if start.None? {
      return Prereqs(None, [], []), [];
    }
    var section := full[start.value..];
    PrereqEndSpec(section);
    var prereqEnd := FindPrereqEnd(section, StopPatterns);
    var text := CleanPrereq(section[..prereqEnd]);
    var sectionEnd := FindLinkSectionEnd(full);
    var linkSection := if sectionEnd > 0 then full[..sectionEnd] else full;
    var texts := SplitSemicolons(Normalize(linkSection));
    var groups, courses;
    groups, origins, courses := CollectGroups(texts, links, Contributions(code));
    pre := Prereqs(Some(text), groups, courses);
  }

  /** The corequisite branch: the clause, the mapped groups, the fallback lists, the final step. */
  method ParseCoreqs(full: string, pre: Prereqs, origins: seq<nat>, code: Option<string>) returns (co: Coreqs)
    requires |origins| == |pre.groups|
    ensures co == CoreqsFrom(full, pre, origins, code)
  {
    var st := ClauseCoreqs(full, code);
    if pre.text.Some? && pre.text.value != [] && pre.groups != [] {
      st := MapConcurrent(st, MappingTexts(full), OrConcurrentIn, pre.groups, origins);
      if OrConcurrentIn(pre.text.value) {
        st := AddListGroups(st, OrListTexts(pre.text.value), code);
      }
    }
    co := FinishCoreqs(st);
  }

  /** parse_course_block: the title, then the hours, prerequisites, corequisites and cross-listings. */
  method ParseCourseBlock(b: Block) returns (data: CourseData)
    ensures data == ParsedBlock(b)
  {
    var title := TitleOf(b);
    var code := CodeOf(title);
    var name := if title.Some? then Some(title.value.name) else None;
    var crossListings := TitleCross(title);
    if b.desc.None? {
      return CourseData(code, name, NoHours, Prereqs(None, [], []), Coreqs(None, [], []), crossListings);
    }
    var d := b.desc.value;
    var links := MapInOrder(d.links, Normalize);
    var pre, origins := ParsePrereqs(d.text, links, code);
    var co := ParseCoreqs(d.text, pre, origins, code);
    crossListings := AddCrossListings(crossListings, d.text, links, code);
    data := CourseData(code, name, HoursOf(d.hours), pre, co, crossListings);
  }

  // ---------------------------------------------------------------------------
  // get_courses_from_department
  // ---------------------------------------------------------------------------

  /** `if course_data["code"]`: a code was parsed and is not empty. */
  predicate HasCode(d: CourseData) {
    d.code.Some? && d.code.value != []
  }

  /** A matched title always has a non-empty code. */
  lemma TitleCodeNonEmpty(s: string)
    requires OneLine(s) && MatchTitle(s).Some?
    ensures MatchTitle(s).value.code != []
  {
    var e := CodeEnd(s, 0, IsUpper).value;
    if SlashTitle(s, e).None? {
      var a := Skip(s, 0, IsUpper);
      var b := Skip(s, a, IsSpace);
      assert MatchTitle(s).value.code == s[..a] + " " + s[b..e];
    }
  }

  /** A block is kept exactly when its title text matches one of the title patterns. */
  lemma HasCodeIff(b: Block)
    ensures HasCode(ParsedBlock(b)) <==> TitleOf(b).Some?
  {
    if b.title.Some? && TitleOf(b).Some? {
      NormalizedOneLine(b.title.value);
      TitleCodeNonEmpty(Normalize(b.title.value));
    }
  }

  /** The courses of a department page: every block parsed, those without a code dropped, in page order. */
  method CoursesFromDepartment(blocks: seq<Block>) returns (courses: seq<CourseData>)
    ensures courses == Filter(MapSeq(blocks, ParsedBlock), HasCode)
  {
    courses := [];
    for i := 0 to |blocks|
      invariant courses == Filter(MapSeq(blocks[..i], ParsedBlock), HasCode)
    {
      var data := ParseCourseBlock(blocks[i]);
      FilterMapSnoc(blocks, ParsedBlock, HasCode, i);
      if HasCode(data) {
        courses := courses + [data];
      }
    }
    assert blocks[..|blocks|] == blocks;
  }

  /** Every course a department page yields has a code, and every block with a matching title yields one. */
  lemma DepartmentCourses(blocks: seq<Block>)
    ensures forall d :: d in Filter(MapSeq(blocks, ParsedBlock), HasCode) ==> d.code.Some? && d.code.value != []
    ensures forall i :: 0 <= i < |blocks| && TitleOf(blocks[i]).Some? ==>
      ParsedBlock(blocks[i]) in Filter(MapSeq(blocks, ParsedBlock), HasCode)
  {
    forall i | 0 <= i < |blocks| && TitleOf(blocks[i]).Some?
      ensures ParsedBlock(blocks[i]) in Filter(MapSeq(blocks, ParsedBlock), HasCode)
    {
      HasCodeIff(blocks[i]);
      KeptIfPasses(blocks, ParsedBlock, HasCode, i);
    }
  }

  /** An element whose image passes the filter is kept. */
  lemma KeptIfPasses<T, U(!new)>(xs: seq<T>, f: T -> U, p: U -> bool, i: nat)
    requires i < |xs| && p(f(xs[i]))
    ensures f(xs[i]) in Filter(MapSeq(xs, f), p)
  {
    assert MapSeq(xs, f)[i] == f(xs[i]);
  }
}
