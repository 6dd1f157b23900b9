// The two "before" validators of the Rate My Professors review record: the
// rating-tag string split on "--", and the date parser that tries the RMP
// timestamp layout, then ISO 8601, then three fixed layouts.
module ReviewSchema {
  import opened Common
  import opened Json

  // ---------------------------------------------------------------------------
  // parse_rating_tags
  // ---------------------------------------------------------------------------

  /** A stripped string that is not empty starts and ends with a non-space. */
  predicate Trimmed(t: string) { t != [] && !IsSpace(t[0]) && !IsSpace(t[|t| - 1]) }

  lemma StrippedTrimmed(s: string)
    requires Strip(s) != []
    ensures Trimmed(Strip(s))
  {
    var l := StripLeft(s);
    assert Strip(s) == StripRight(l);
    assert StripRight(l)[0] == l[0];
  }

  /** `[tag.strip() for tag in pieces if tag.strip()]`. */
  function StrippedTags(pieces: seq<string>): (r: seq<string>)
    ensures |r| <= |pieces|
  {
    if pieces == [] then []
    else
      var rest := StrippedTags(pieces[1..]);
      if Strip(pieces[0]) != [] then [Strip(pieces[0])] + rest else rest
  }

  /** The kept tags are the non-blank pieces, stripped, and each of them is trimmed. */
  lemma {:induction false} StrippedTagsSpec(pieces: seq<string>)
    ensures forall t :: t in StrippedTags(pieces) <==> exists p :: p in pieces && Strip(p) == t && t != []
    ensures forall t :: t in StrippedTags(pieces) ==> Trimmed(t)
    ensures StrippedTags(pieces) == [] <==> forall p :: p in pieces ==> Strip(p) == []
  {
    if pieces != [] {
      StrippedTagsSpec(pieces[1..]);
      if Strip(pieces[0]) != [] {
        StrippedTrimmed(pieces[0]);
      }
      forall t | exists p :: p in pieces && Strip(p) == t && t != []
        ensures t in StrippedTags(pieces)
      {
        var p :| p in pieces && Strip(p) == t && t != [];
        if p != pieces[0] {
          assert p in pieces[1..];
        }
      }
      forall p | p in pieces[1..] ensures p in pieces { }
    }
  }

  /** The tags of a rating-tag string. */
  function Tags(s: string): seq<string> {
    StrippedTags(SplitOn(s, "--"))
  }

  function AsJsonStrings(xs: seq<string>): (r: seq<Json>)
    ensures |r| == |xs| && forall i :: 0 <= i < |xs| ==> r[i] == JStr(xs[i])
  {
    MapSeq(xs, (x: string) => JStr(x))
  }

  /**
   * `Review.parse_rating_tags`: None stays None, a list is kept as it is, a
   * string is split into tags (None when it holds none), anything else is None.
   */
  function ParseRatingTags(v: Json): (r: Option<Json>)
    ensures v.JNull? ==> r == None
    ensures v.JList? ==> r == Some(v)
    ensures !v.JNull? && !v.JList? && !v.JStr? ==> r == None
    ensures v.JStr? && IsBlank(v.s) ==> r == None
    ensures v.JStr? && r.Some? ==> r == Some(JList(AsJsonStrings(Tags(v.s)))) && Tags(v.s) != []
    ensures v.JStr? && !IsBlank(v.s) && Tags(v.s) != [] ==> r.Some?
  {
    match v
    case JNull => None
    case JList(_) => Some(v)
    case JStr(s) =>
      if IsBlank(s) then None
      else
        var tags := Tags(s);
        if tags == [] then None else Some(JList(AsJsonStrings(tags)))
    case _ => None
  }

  /**
   * For a string, the result is None or a non-empty list of trimmed tags,
   * each the strip of one "--"-separated piece, and the pieces join back into
   * the string.
   */
  lemma StringTags(s: string)
    ensures var r := ParseRatingTags(JStr(s));
      r.None? || (r.value.JList? && r.value.items != [] &&
                  forall i :: 0 <= i < |r.value.items| ==> r.value.items[i].JStr? && Trimmed(r.value.items[i].s))
    ensures forall t :: t in Tags(s) <==> exists p :: p in SplitOn(s, "--") && Strip(p) == t && t != []
    ensures Join("--", SplitOn(s, "--")) == s
  {
    StrippedTagsSpec(SplitOn(s, "--"));
    JoinSplit(s, "--");
    var tags := Tags(s);
    forall i | 0 <= i < |tags| ensures Trimmed(tags[i]) {
      assert tags[i] in tags;
    }
  }

  /** A non-blank string with no "--" is one tag: the string stripped. */
  lemma SingleTag(s: string)
    requires !IsBlank(s) && forall i :: 0 <= i < |s| - 1 ==> !(s[i] == '-' && s[i + 1] == '-')
    ensures ParseRatingTags(JStr(s)) == Some(JList([JStr(Strip(s))]))
  {
    NoSeparatorOnePiece(s);
    assert StrippedTags([s]) == [Strip(s)] by {
      assert [s][1..] == [];
    }
    assert Tags(s) == [Strip(s)];
    assert AsJsonStrings([Strip(s)]) == [JStr(Strip(s))];
  }

  lemma {:induction false} NoSeparatorOnePiece(s: string)
    requires forall i :: 0 <= i < |s| - 1 ==> !(s[i] == '-' && s[i + 1] == '-')
    ensures SplitOn(s, "--") == [s]
    decreases |s|
  {
    if |s| >= 2 {
      assert s[..2] != "--" by { assert !(s[0] == '-' && s[1] == '-'); }
      NoSeparatorOnePiece(s[1..]);
      assert [s[0]] + s[1..] == s;
    }
  }

  // ---------------------------------------------------------------------------
  // parse_datetime
  // ---------------------------------------------------------------------------

  /** A naive or offset-aware timestamp as the parsers produce it. */
  datatype DateTime = DateTime(year: int, month: int, day: int, hour: int, minute: int, second: int,
                               utcOffsetMinutes: Option<int>)

  /** What the validator receives: None, a datetime, a string, or another value. */
  datatype DateInput = NoDate | GivenDate(dt: DateTime) | DateText(text: string) | OtherValue

  /** `datetime.strptime(text, layout)`, None where it raises ValueError. */
  type StrpTime = (string, string) -> Option<DateTime>

  /** `datetime.fromisoformat(text)`, None where it raises ValueError. */
  type FromIso = string -> Option<DateTime>

  const RmpSuffix: string := " +0000 UTC"
  const RmpLayout: string := "%Y-%m-%d %H:%M:%S"
  const FallbackLayouts: seq<string> := ["%Y-%m-%d %H:%M:%S", "%Y-%m-%dT%H:%M:%S", "%Y-%m-%d"]

  /** The first layout, from index `i` on, under which `text` parses. */
  function FirstParse(text: string, layouts: seq<string>, strptime: StrpTime, i: nat): Option<DateTime>
    requires i <= |layouts|
    decreases |layouts| - i
  {
    if i == |layouts| then None
    else if strptime(text, layouts[i]).Some? then strptime(text, layouts[i])
    else FirstParse(text, layouts, strptime, i + 1)
  }

  /** The result is the parse under the first layout that accepts the text, and None when none does. */
  lemma {:induction false} FirstParseSpec(text: string, layouts: seq<string>, strptime: StrpTime, i: nat)
    requires i <= |layouts|
    ensures FirstParse(text, layouts, strptime, i).None? <==>
      forall k :: i <= k < |layouts| ==> strptime(text, layouts[k]).None?
    ensures FirstParse(text, layouts, strptime, i).Some? ==>
      exists k :: i <= k < |layouts| && FirstParse(text, layouts, strptime, i) == strptime(text, layouts[k]) &&
        forall j :: i <= j < k ==> strptime(text, layouts[j]).None?
    decreases |layouts| - i
  {
    if i < |layouts| {
      FirstParseSpec(text, layouts, strptime, i + 1);
      if strptime(text, layouts[i]).None? && FirstParse(text, layouts, strptime, i).Some? {
        var k :| i + 1 <= k < |layouts| && FirstParse(text, layouts, strptime, i + 1) == strptime(text, layouts[k]) &&
          forall j :: i + 1 <= j < k ==> strptime(text, layouts[j]).None?;
        assert FirstParse(text, layouts, strptime, i) == strptime(text, layouts[k]);
      }
    }
  }

  /** The `for fmt in formats` loop. */
  method TryLayouts(text: string, layouts: seq<string>, strptime: StrpTime) returns (r: Option<DateTime>)
    ensures r == FirstParse(text, layouts, strptime, 0)
  {
    for i := 0 to |layouts|
      invariant FirstParse(text, layouts, strptime, 0) == FirstParse(text, layouts, strptime, i)
    {
      var parsed := strptime(text, layouts[i]);
      if parsed.Some? {
        return parsed;
      }
    }
    return None;
  }

  /** The string branch, on the stripped, non-empty text. */
  function ParseText(t: string, strptime: StrpTime, fromIso: FromIso): Option<DateTime> {
    var rmp := if EndsWith(t, RmpSuffix) then strptime(ReplaceAll(t, RmpSuffix, ""), RmpLayout) else None;
    if rmp.Some? then rmp
    else
      var iso := fromIso(ReplaceAll(t, "Z", "+00:00"));
      if iso.Some? then iso
      else FirstParse(t, FallbackLayouts, strptime, 0)
  }

  /** `Review.parse_datetime`, with `strptime` and `fromisoformat` as parameters. */
  function ParseDatetime(v: DateInput, strptime: StrpTime, fromIso: FromIso): (r: Option<DateTime>)
    ensures v.NoDate? || v.OtherValue? ==> r == None
    ensures v.GivenDate? ==> r == Some(v.dt)
    ensures v.DateText? && IsBlank(v.text) ==> r == None
  {
    match v
    case NoDate => None
    case GivenDate(dt) => Some(dt)
    case DateText(s) =>
      var t := Strip(s);
      if t == [] then None else ParseText(t, strptime, fromIso)
    case OtherValue => None
  }

  /** The string branch as the validator runs it: the fallback layouts are tried by the loop. */
  method ParseDatetimeText(s: string, strptime: StrpTime, fromIso: FromIso) returns (r: Option<DateTime>)
    ensures r == ParseDatetime(DateText(s), strptime, fromIso)
  {
    var t := Strip(s);
    if t == [] {
      return None;
    }
    if EndsWith(t, RmpSuffix) {
      var parsed := strptime(ReplaceAll(t, RmpSuffix, ""), RmpLayout);
      if parsed.Some? {
        return parsed;
      }
    }
    var iso := fromIso(ReplaceAll(t, "Z", "+00:00"));
    if iso.Some? {
      return iso;
    }
    r := TryLayouts(t, FallbackLayouts, strptime);
  }

  /** An RMP timestamp whose date part parses is taken from that parse, whatever the other parsers say. */
  lemma RmpFormatFirst(s: string, strptime: StrpTime, fromIso: FromIso)
    requires var t := Strip(s); EndsWith(t, RmpSuffix) && strptime(ReplaceAll(t, RmpSuffix, ""), RmpLayout).Some?
    ensures ParseDatetime(DateText(s), strptime, fromIso) ==
      strptime(ReplaceAll(Strip(s), RmpSuffix, ""), RmpLayout)
  {
  }

  /**
   * A string that is neither an RMP timestamp nor ISO 8601 gets the parse of
   * the first fixed layout that accepts it.
   */
  lemma FallbackOrder(s: string, strptime: StrpTime, fromIso: FromIso, k: nat)
    requires var t := Strip(s);
      t != [] && !EndsWith(t, RmpSuffix) && fromIso(ReplaceAll(t, "Z", "+00:00")).None?
    requires k < |FallbackLayouts| && strptime(Strip(s), FallbackLayouts[k]).Some?
    requires forall j :: 0 <= j < k ==> strptime(Strip(s), FallbackLayouts[j]).None?
    ensures ParseDatetime(DateText(s), strptime, fromIso) == strptime(Strip(s), FallbackLayouts[k])
  {
    var t := Strip(s);
    FirstParseAt(t, FallbackLayouts, strptime, 0, k);
    assert ParseDatetime(DateText(s), strptime, fromIso) == ParseText(t, strptime, fromIso);
  }

  /** From layout `i` on, the first layout that accepts the text gives the result. */
  lemma {:induction false} FirstParseAt(text: string, layouts: seq<string>, strptime: StrpTime, i: nat, k: nat)
    requires i <= k < |layouts| && strptime(text, layouts[k]).Some?
    requires forall j :: i <= j < k ==> strptime(text, layouts[j]).None?
    ensures FirstParse(text, layouts, strptime, i) == strptime(text, layouts[k])
    decreases k - i
  {
    if i < k {
      FirstParseAt(text, layouts, strptime, i + 1, k);
    }
  }

  /** A string that no parser accepts gives None. */
  lemma Unparseable(s: string, strptime: StrpTime, fromIso: FromIso)
    requires forall text, layout :: strptime(text, layout).None?
    requires forall text :: fromIso(text).None?
    ensures ParseDatetime(DateText(s), strptime, fromIso) == None
  {
    FirstParseSpec(Strip(s), FallbackLayouts, strptime, 0);
  }

  /** Any parsed value came from one of the parsers. */
  lemma ParsedFromSomeParser(s: string, strptime: StrpTime, fromIso: FromIso)
    requires ParseDatetime(DateText(s), strptime, fromIso).Some?
    ensures var r := ParseDatetime(DateText(s), strptime, fromIso);
      r == fromIso(ReplaceAll(Strip(s), "Z", "+00:00")) ||
      r == strptime(ReplaceAll(Strip(s), RmpSuffix, ""), RmpLayout) ||
      exists k :: 0 <= k < |FallbackLayouts| && r == strptime(Strip(s), FallbackLayouts[k])
  {
    FirstParseSpec(Strip(s), FallbackLayouts, strptime, 0);
  }
}
