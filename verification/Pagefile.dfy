/** The active pagefile: a header sector, two alternating state sectors and a run of equally sized raw
    records (src/store.rs, `read_active_state`, `load_active_records`). Record k starts at byte
    12288 + k * (24 + page size); the model addresses records by k. */
module Pagefile {
  import opened Bytes
  import opened Format

  const METADATA_END: nat := 12288

  datatype Rec = Rec(head: Bytes, body: Bytes)

  datatype File = File(header: Bytes, slotA: Bytes, slotB: Bytes, recs: seq<Rec>)

  function RecordOffset(ps: nat, k: nat): nat {
    METADATA_END + k * (FRAME_HEADER_SIZE + ps)
  }

  lemma MulOrder(j: nat, k: nat, r: nat)
    requires j < k
    ensures j * r + r <= k * r
  {
    assert k * r == j * r + r + (k - j - 1) * r;
  }

  /** Comparing ordinals is comparing byte offsets. */
  lemma OffsetsOrdered(ps: nat, j: nat, k: nat)
    ensures j < k <==> RecordOffset(ps, j) < RecordOffset(ps, k)
  {
    if j < k {
      MulOrder(j, k, FRAME_HEADER_SIZE + ps);
    } else if k < j {
      MulOrder(k, j, FRAME_HEADER_SIZE + ps);
    }
  }

  // State sectors

  /** `active_state_offset`: even sequences use the second sector. */
  function StateOffset(sequence: nat): nat {
    if sequence % 2 == 0 then 2 * SECTOR else SECTOR
  }

  function Slot(f: File, sequence: nat): Bytes {
    if sequence % 2 == 0 then f.slotB else f.slotA
  }

  function WriteSlot(f: File, sequence: nat, b: Bytes): File {
    if sequence % 2 == 0 then f.(slotB := b) else f.(slotA := b)
  }

  /** An untouched sector, a decoded state, or the error that makes the whole file unreadable. */
  function ReadSlot(p: Primitives, b: Bytes, database: Digest): Result<Option<ActiveState>> {
    if b == Zeros(SECTOR) then Ok(None)
    else
      var s := DecodeState(p, b);
      if s.Err? then Err(Corrupt)
      else if s.value.database != database then Err(IdentityMismatch)
      else Ok(Some(s.value))
  }

  function ReadActiveState(p: Primitives, f: File, database: Digest): Result<ActiveState> {
    var a :- ReadSlot(p, f.slotA, database);
    var b :- ReadSlot(p, f.slotB, database);
    if a.None? && b.None? then Err(Corrupt)
    else
      var newest := if a.None? || (b.Some? && b.value.sequence >= a.value.sequence) then b.value else a.value;
      if (a.None? || b.None?) && newest.sequence != 1 then Err(Corrupt) else Ok(newest)
  }

  // Records

  function RawFrame(page: u32, ps: u32): FrameHeader {
    FrameHeader(page, Raw, NO_DICTIONARY, ps, ps)
  }

  /** The page a record claims, when its header is exactly that of a raw record of this page size. */
  function PageNo(p: Primitives, ps: nat, r: Rec): Option<nat> {
    var h := DecodeFrame(p, r.head);
    if h.Ok? && h.value.codec.Raw? && h.value.dictionary == NO_DICTIONARY && h.value.storedLen == ps && h.value.rawLen == ps
    then Some(h.value.pageNo) else None
  }

  lemma PageNoOfRawFrame(p: Primitives, page: u32, ps: u32, body: Bytes)
    requires page != 0 && ValidPageSize(ps)
    ensures PageNo(p, ps, Rec(FrameImage(p, RawFrame(page, ps)), body)) == Some(page)
  {
    hide FrameImage, DecodeFrame;
    FrameRoundTrip(p, RawFrame(page, ps));
  }

  type Records = map<nat, nat>

  function LoadRecordsFrom(p: Primitives, recs: seq<Rec>, ps: nat, count: nat, k: nat, acc: Records): Result<Records>
    requires k <= count
    decreases count - k
  {
    if k == count then Ok(acc)
    else if k >= |recs| || PageNo(p, ps, recs[k]).None? || PageNo(p, ps, recs[k]).value in acc then Err(Corrupt)
    else LoadRecordsFrom(p, recs, ps, count, k + 1, acc[PageNo(p, ps, recs[k]).value := k])
  }

  function LoadRecords(p: Primitives, recs: seq<Rec>, ps: nat, count: nat): Result<Records> {
    if ps == 0 then (if count != 0 then Err(Corrupt) else Ok(map[]))
    else LoadRecordsFrom(p, recs, ps, count, 0, map[])
  }

  /** The two directions of the record index agree on the first `count` records. */
  ghost predicate Indexes(p: Primitives, recs: seq<Rec>, ps: nat, count: nat, records: Records) {
    && count <= |recs|
    && (forall k | 0 <= k < count ::
        PageNo(p, ps, recs[k]).Some? && PageNo(p, ps, recs[k]).value in records && records[PageNo(p, ps, recs[k]).value] == k)
    && (forall n | n in records :: records[n] < count && PageNo(p, ps, recs[records[n]]) == Some(n))
  }

  lemma IndexesOverwrite(p: Primitives, recs: seq<Rec>, ps: nat, records: Records, k: nat, body: Bytes)
    requires Indexes(p, recs, ps, |recs|, records) && k < |recs|
    ensures var recs' := recs[k := recs[k].(body := body)]; Indexes(p, recs', ps, |recs'|, records)
  {
    SameHeadSamePage(p, ps, recs[k], recs[k].(body := body));
    hide PageNo;
  }

  lemma IndexesAppend(p: Primitives, recs: seq<Rec>, ps: nat, records: Records, n: nat, r: Rec)
    requires Indexes(p, recs, ps, |recs|, records) && n !in records && PageNo(p, ps, r) == Some(n)
    ensures Indexes(p, recs + [r], ps, |recs| + 1, records[n := |recs|])
  {
    hide PageNo;
  }

  lemma SameHeadSamePage(p: Primitives, ps: nat, a: Rec, b: Rec)
    requires a.head == b.head
    ensures PageNo(p, ps, a) == PageNo(p, ps, b)
  {
  }

  ghost function Restrict(records: Records, k: nat): Records {
    map n | n in records && records[n] < k :: records[n]
  }

  lemma {:induction false} LoadRecordsIndexes(p: Primitives, recs: seq<Rec>, ps: nat, count: nat, records: Records, k: nat)
    requires Indexes(p, recs, ps, count, records) && k <= count
    ensures LoadRecordsFrom(p, recs, ps, count, k, Restrict(records, k)) == Ok(records)
    decreases count - k
  {
    hide PageNo;
    if k == count {
      assert Restrict(records, k) == records;
    } else {
      var n := PageNo(p, ps, recs[k]).value;
      assert Restrict(records, k + 1) == Restrict(records, k)[n := k];
      LoadRecordsIndexes(p, recs, ps, count, records, k + 1);
    }
  }

  /** The index has one entry per record. */
  lemma {:induction false} IndexSize(p: Primitives, recs: seq<Rec>, ps: nat, count: nat, records: Records, k: nat)
    requires Indexes(p, recs, ps, count, records) && k <= count
    ensures |Restrict(records, k)| == k
    ensures k == count ==> |records| == count
  {
    hide PageNo;
    if k == 0 {
      assert Restrict(records, 0) == map[];
    } else {
      IndexSize(p, recs, ps, count, records, k - 1);
      var n := PageNo(p, ps, recs[k - 1]).value;
      assert Restrict(records, k) == Restrict(records, k - 1)[n := k - 1];
      assert n !in Restrict(records, k - 1);
      assert Restrict(records, k).Keys == Restrict(records, k - 1).Keys + {n};
    }
    assert k == count ==> Restrict(records, k) == records;
  }

  /** Whatever the loader accepts is an index of the first `count` records. */
  lemma {:induction false} LoadedIndexes(p: Primitives, recs: seq<Rec>, ps: nat, count: nat, k: nat, acc: Records)
    requires k <= count && Indexes(p, recs, ps, k, acc)
    requires LoadRecordsFrom(p, recs, ps, count, k, acc).Ok?
    ensures Indexes(p, recs, ps, count, LoadRecordsFrom(p, recs, ps, count, k, acc).value)
    decreases count - k
  {
    hide PageNo;
    if k < count {
      LoadedIndexes(p, recs, ps, count, k + 1, acc[PageNo(p, ps, recs[k]).value := k]);
    }
  }

  // The same two readers as the program runs them

  method ScanStates(p: Primitives, f: File, database: Digest) returns (r: Result<ActiveState>)
    ensures r == ReadActiveState(p, f, database)
  {
    hide DecodeState;
    var sectors := [f.slotA, f.slotB];
    var newest: Option<ActiveState>, empty := None, false;
    var i := 0;
    while i < 2
      invariant 0 <= i <= 2
      invariant i >= 1 ==> ReadSlot(p, f.slotA, database).Ok?
      invariant i >= 2 ==> ReadSlot(p, f.slotB, database).Ok?
      invariant i == 0 ==> newest.None? && !empty
      invariant i == 1 ==> newest == ReadSlot(p, f.slotA, database).value && empty == newest.None?
      invariant i == 2 ==>
        var a, b := ReadSlot(p, f.slotA, database).value, ReadSlot(p, f.slotB, database).value;
        && empty == (a.None? || b.None?)
        && newest == (if a.None? || (b.Some? && b.value.sequence >= a.value.sequence) then b else a)
    {
      if sectors[i] == Zeros(SECTOR) {
        empty := true;
      } else {
        var s := DecodeState(p, sectors[i]);
        if s.Err? {
          return Err(Corrupt);
        }
        if s.value.database != database {
          return Err(IdentityMismatch);
        }
        if newest.None? || s.value.sequence >= newest.value.sequence {
          newest := Some(s.value);
        }
      }
      i := i + 1;
    }
    if newest.None? || (empty && newest.value.sequence != 1) {
      return Err(Corrupt);
    }
    return Ok(newest.value);
  }

  method ScanRecords(p: Primitives, recs: seq<Rec>, ps: nat, count: nat) returns (r: Result<Records>)
    ensures r == LoadRecords(p, recs, ps, count)
  {
    hide PageNo;
    if ps == 0 {
      return if count != 0 then Err(Corrupt) else Ok(map[]);
    }
    var records: Records, k := map[], 0;
    while k < count
      invariant 0 <= k <= count
      invariant LoadRecords(p, recs, ps, count) == LoadRecordsFrom(p, recs, ps, count, k, records)
    {
      if k >= |recs| {
        return Err(Corrupt);
      }
      var page := PageNo(p, ps, recs[k]);
      if page.None? || page.value in records {
        return Err(Corrupt);
      }
      records := records[page.value := k];
      k := k + 1;
    }
    return Ok(records);
  }
}
