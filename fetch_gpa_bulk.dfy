// The bulk GPA loader script: the same per-entry conversion as the anex.us
// scraper without any semester filter, with both timestamps stamped on every
// record, and inserts batched by the slicing generator.
module FetchGpaBulk {
  import opened Common
  import opened Json
  import opened GpaRecords
  import opened AnexGpa

  /** Records per insert batch. */
  const BulkInsertSize: int := 10000

  /**
   * A record with its `created_at` and `updated_at` values. The clock is a
   * parameter: `now` stands for both readings of it.
   */
  datatype StampedRecord = StampedRecord(record: GpaRecord, createdAt: int, updatedAt: int)

  /** One pass of the loop: the stamped record of an entry that converts. */
  function BulkEntry(info: Json, now: int): Option<StampedRecord> {
    match Converted(info)
    case Some(rec) => Some(StampedRecord(rec, now, now))
    case None => None
  }

  function BulkEntryFor(now: int): Json -> Option<StampedRecord> {
    info => BulkEntry(info, now)
  }

  /** `extract_class_records(course_data)` of the bulk script. */
  function BulkRecords(courseData: Dict, now: int): (r: Outcome<seq<StampedRecord>>)
    ensures (!Truthy(Get(courseData, "success")) || "data" !in courseData) ==> r == Ok([])
  {
    if !Truthy(Get(courseData, "success")) || "data" !in courseData then Ok([])
    else
      var data := courseData["data"];
      if !data.JObj? then Fail(AttributeError)
      else
        var items :- ClassItems(GetOr(data.fields, "classes", JList([])));
        Ok(Kept(items, BulkEntryFor(now), |items|))
  }

  method ExtractClassRecords(courseData: Dict, now: int) returns (r: Outcome<seq<StampedRecord>>)
    ensures r == BulkRecords(courseData, now)
  {
    if !Truthy(Get(courseData, "success")) || "data" !in courseData {
      return Ok([]);
    }
    var data := courseData["data"];
    if !data.JObj? {
      return Fail(AttributeError);
    }
    var classes := ClassItems(GetOr(data.fields, "classes", JList([])));
    if classes.Fail? {
      return Fail(classes.err);
    }
    var records := CollectEntries(classes.value, BulkEntryFor(now));
    return Ok(records);
  }

  /** The records without their timestamps. */
  function Unstamped(xs: seq<StampedRecord>): (r: seq<GpaRecord>)
    ensures |r| == |xs| && forall i :: 0 <= i < |xs| ==> r[i] == xs[i].record
  {
    seq(|xs|, i requires 0 <= i < |xs| => xs[i].record)
  }

  /** `stamped` yields `base`'s record with both timestamps set to `now`. */
  ghost predicate StampsOf(base: Json -> Option<GpaRecord>, stamped: Json -> Option<StampedRecord>, now: int) {
    forall x :: stamped(x) == (match base(x) case Some(rec) => Some(StampedRecord(rec, now, now)) case None => None)
  }

  lemma BulkEntryStamps(now: int)
    ensures StampsOf(EntryFor(None), BulkEntryFor(now), now)
  {
  }

  lemma {:induction false} KeptUnstamped(items: seq<Json>, base: Json -> Option<GpaRecord>,
                                         stamped: Json -> Option<StampedRecord>, now: int, n: nat)
    requires n <= |items| && StampsOf(base, stamped, now)
    ensures Unstamped(Kept(items, stamped, n)) == Kept(items, base, n)
    ensures forall s :: s in Kept(items, stamped, n) ==> s.createdAt == now && s.updatedAt == now
  {
    if n > 0 {
      KeptUnstamped(items, base, stamped, now, n - 1);
      var prev := Kept(items, stamped, n - 1);
      var e := stamped(items[n - 1]);
      var tail: seq<StampedRecord> := if e.Some? then [e.value] else [];
      assert Kept(items, stamped, n) == prev + tail;
      assert Unstamped(prev + tail) == Unstamped(prev) + Unstamped(tail);
    }
  }

  /**
   * The bulk script extracts exactly what the scraper extracts with no
   * semester bound, each record stamped with the current time.
   */
  lemma SameAsUnfiltered(courseData: Dict, now: int)
    ensures BulkRecords(courseData, now).Ok? <==> Records(courseData, None, None).Ok?
    ensures BulkRecords(courseData, now).Ok? ==>
      Unstamped(BulkRecords(courseData, now).value) == Records(courseData, None, None).value
    ensures BulkRecords(courseData, now).Ok? ==>
      forall s :: s in BulkRecords(courseData, now).value ==> s.createdAt == now && s.updatedAt == now
  {
    assert FilterOf(None, None) == None;
    if Truthy(Get(courseData, "success")) && "data" in courseData && courseData["data"].JObj? {
      var items := ClassItems(GetOr(courseData["data"].fields, "classes", JList([])));
      if items.Ok? {
        BulkEntryStamps(now);
        KeptUnstamped(items.value, EntryFor(None), BulkEntryFor(now), now, |items.value|);
      }
    }
  }

  /** One record per class entry that converts. */
  lemma OnePerConvertingEntry(courseData: Dict, now: int)
    requires Truthy(Get(courseData, "success")) && "data" in courseData
    requires BulkRecords(courseData, now).Ok?
    ensures var items := ClassItems(GetOr(courseData["data"].fields, "classes", JList([]))).value;
      |BulkRecords(courseData, now).value| == |Filter(items, Converts)|
  {
    var items := ClassItems(GetOr(courseData["data"].fields, "classes", JList([]))).value;
    BulkEntryStamps(now);
    KeptUnstamped(items, EntryFor(None), BulkEntryFor(now), now, |items|);
    UnfilteredOnePerEntry(items, |items|);
    assert items[..|items|] == items;
  }

  /**
   * The insert batches: put back together they are the records, and each
   * holds between 1 and BulkInsertSize records.
   */
  function Batches(records: seq<StampedRecord>): (r: seq<seq<StampedRecord>>)
    ensures Flatten(r) == records
    ensures forall b :: b in r ==> 0 < |b| <= BulkInsertSize
  {
    ChunksSpec(records, BulkInsertSize);
    ChunksBounded(records, BulkInsertSize);
    Chunks(records, BulkInsertSize).value
  }
}
