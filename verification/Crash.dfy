/** Crash safety of the durable publication protocol (src/store.rs, `publish_inner`, `append_active_record`,
    `overwrite_active_record`, `read_active_state`, `load_active_records`). */
module Crash {
  import opened Bytes
  import opened Format
  import opened Pagefile
  import opened Engine
  import opened Publication
  import Transactions

  // What a crash can leave behind

  /** A published state and the pages whose records may have been written since. */
  datatype Endpoint = Endpoint(engine: Engine, changed: set<nat>)

  /** The open store over a file of which only `synced` is known to be on disk. Since then the bodies of the
      records in `touched` were written in place, and the file was at times as short as `floor` records. The
      newer endpoint, if any, has its state sector written but not yet synced. */
  datatype Sys = Sys(
    e: Engine,
    synced: File,
    touched: set<nat>,
    floor: nat,
    older: Endpoint,
    newer: Option<Endpoint>)
  {
    function Newest(): Endpoint {
      if newer.Some? then newer.value else older
    }
  }

  /** A sector written since the last sync holds its old bytes, its new bytes, nothing at all, or something
      that does not decode. */
  predicate SectorPossible(p: Primitives, database: Digest, before: Bytes, current: Bytes, b: Bytes) {
    if before == current then b == before
    else b == before || b == current || b == Zeros(SECTOR) || ReadSlot(p, b, database).Err?
  }

  ghost predicate Possible(p: Primitives, s: Sys, c: File) {
    && c.header == s.synced.header
    && SectorPossible(p, s.e.header.database, s.synced.slotA, s.e.file.slotA, c.slotA)
    && SectorPossible(p, s.e.header.database, s.synced.slotB, s.e.file.slotB, c.slotB)
    && s.floor <= |s.synced.recs| && s.floor <= |c.recs|
    && (forall k | 0 <= k < s.floor :: c.recs[k].head == s.synced.recs[k].head)
    && (forall k | 0 <= k < s.floor && k !in s.touched :: c.recs[k].body == s.synced.recs[k].body)
  }

  function Reopened(p: Primitives, s: Sys, c: File): Result<Engine> {
    LoadLocal(p, c, s.e.header, ViewOf(s.e.base), SourceOf(s.e.base))
  }

  /** Exactly this endpoint, record index and boundary included, with its bytes on every page not written
      since. */
  ghost predicate Recovers(r: Engine, ep: Endpoint) {
    && r == ep.engine.(file := r.file)
    && forall n | n >= 1 && n !in ep.changed :: ReadPage(r, n) == ReadPage(ep.engine, n)
  }

  // The protocol

  datatype Action =
    | WriteOne(n: nat, page: Bytes)
    | Reshape(size: nat, cut: Option<nat>)
    | Abandon
    | Sync
    | WriteState(now: u64)

  /** `WriteState` comes right after a successful sync, with an encodable size. */
  predicate Enabled(s: Sys, a: Action) {
    match a
    case WriteOne(n, page) => 1 <= n <= MAX_PAGE && |page| == s.e.Ps()
    case Reshape(size, cut) => true
    case Abandon => s.e.head.commitEnd <= |s.e.file.recs|
    case Sync => true
    case WriteState(_) =>
      && s.touched == {} && s.synced == s.e.file && s.floor == |s.e.file.recs| && s.newer.None?
      && s.e.HasPending() && Publishable(s.e) && s.e.Ps() > 0 && s.e.size % s.e.Ps() == 0
  }

  function Mark(ep: Endpoint, ns: set<nat>): Endpoint {
    ep.(changed := ep.changed + ns)
  }

  function MarkNewer(ep: Option<Endpoint>, ns: set<nat>): Option<Endpoint> {
    if ep.Some? then Some(Mark(ep.value, ns)) else None
  }

  /** The same endpoint, known to be on disk as it is when nothing is pending. */
  function Settled(s: Sys): Endpoint {
    if s.e.HasPending() then s.Newest() else s.Newest().(changed := {})
  }

  /** The records a discard writes back. */
  function Undone(e: Engine): set<nat> {
    set n | n in e.originals.Keys && n in e.records :: e.records[n]
  }

  /** A crash in the middle of an action is covered by a crash right after it: everything the action wrote may
      then be lost or torn. */
  ghost function Next(p: Primitives, s: Sys, a: Action): Sys {
    if !Enabled(s, a) then s
    else match a
      case WriteOne(n, page) =>
        var e' := WritePage(p, s.e, n, page);
        var k := if n in s.e.records then s.e.records[n] else |s.e.file.recs|;
        s.(e := e', touched := s.touched + {k}, older := Mark(s.older, {n}), newer := MarkNewer(s.newer, {n}))
      case Reshape(size, cut) =>
        var e' := s.e.(size := size, cut := cut, dirty := true);
        if Wf(p, e') then s.(e := e') else s
      case Abandon =>
        var ns := s.e.originals.Keys;
        s.(e := Discard(p, s.e), touched := s.touched + Undone(s.e),
           floor := Min(s.floor, s.e.head.commitEnd), older := Mark(s.older, ns), newer := MarkNewer(s.newer, ns))
      case Sync =>
        s.(synced := s.e.file, touched := {}, floor := |s.e.file.recs|, older := Settled(s), newer := None)
      case WriteState(now) =>
        var r := Publish(p, s.e, now);
        if r.Err? then s else s.(e := r.value, newer := Some(Endpoint(r.value, {})))
  }

  ghost function Run(p: Primitives, s: Sys, actions: seq<Action>): Sys
    decreases |actions|
  {
    if actions == [] then s else Run(p, Next(p, s, actions[0]), actions[1..])
  }

  /** A store just opened. */
  function Opened(e: Engine): Sys {
    Sys(e, e.file, {}, |e.file.recs|, Endpoint(e, {}), None)
  }

  // The invariant

  /** The disk holds this endpoint's records, and its bytes wherever the page was not written since. */
  ghost predicate OnDisk(synced: File, touched: set<nat>, floor: nat, ep: Endpoint) {
    var recs := ep.engine.file.recs;
    && |recs| <= floor && floor <= |synced.recs|
    && (forall k | 0 <= k < |recs| :: synced.recs[k].head == recs[k].head)
    && (forall n | n in ep.engine.records && n !in ep.changed && ep.engine.records[n] < |recs| ::
        ep.engine.records[n] !in touched && synced.recs[ep.engine.records[n]].body == recs[ep.engine.records[n]].body)
  }

  ghost predicate Settles(p: Primitives, e: Engine, ep: Endpoint) {
    && Wf(p, ep.engine) && Rooted(p, ep.engine) && !ep.engine.HasPending()
    && ep.engine.header == e.header && ep.engine.base == e.base
  }

  /** In memory and on disk the records agree below the floor, except for the bodies being written. */
  ghost predicate Tracks(e: Engine, synced: File, touched: set<nat>, floor: nat) {
    && e.head.commitEnd <= floor <= |synced.recs| && floor <= |e.file.recs|
    && (forall k | 0 <= k < floor :: synced.recs[k].head == e.file.recs[k].head)
    && (forall k | 0 <= k < floor && k !in touched :: synced.recs[k].body == e.file.recs[k].body)
  }

  function Sectors(f: File): (Bytes, Bytes, Bytes) {
    (f.header, f.slotA, f.slotB)
  }

  ghost predicate SectorsOk(s: Sys) {
    && Sectors(s.synced) == Sectors(s.older.engine.file)
    && Sectors(s.e.file) == Sectors(s.Newest().engine.file)
    && (s.newer.Some? ==>
        var o, w := s.older.engine, s.newer.value.engine;
        && w.sequence == o.sequence + 1 && w.file.header == o.file.header
        && Slot(w.file, o.sequence) == Slot(o.file, o.sequence))
  }

  ghost predicate Inv(p: Primitives, s: Sys) {
    && Wf(p, s.e) && Rooted(p, s.e) && Tracks(s.e, s.synced, s.touched, s.floor) && SectorsOk(s)
    && s.e.head.commitEnd <= |s.e.file.recs| && Discard(p, s.e) == s.Newest().engine
    && |s.older.engine.file.recs| <= s.e.head.commitEnd
    && Settles(p, s.e, s.older) && OnDisk(s.synced, s.touched, s.floor, s.older)
    && (s.newer.Some? ==> Settles(p, s.e, s.newer.value) && OnDisk(s.synced, s.touched, s.floor, s.newer.value))
  }

  // Recovery

  /** Only the heads of the records matter to the index. */
  lemma SameHeadsIndex(p: Primitives, e: Engine, recs: seq<Rec>)
    requires Wf(p, e) && !e.HasPending() && |e.file.recs| <= |recs|
    requires forall k | 0 <= k < |e.file.recs| :: recs[k].head == e.file.recs[k].head
    ensures LoadRecords(p, recs, e.Ps(), e.head.commitEnd) == Ok(e.records)
  {
    NothingPending(p, e);
    forall k | 0 <= k < |e.file.recs|
      ensures PageNo(p, e.Ps(), recs[k]) == PageNo(p, e.Ps(), e.file.recs[k])
    {
      SameHeadSamePage(p, e.Ps(), recs[k], e.file.recs[k]);
    }
    IndexCarriesOver(p, e, recs);
    LoadRecordsIndexes(p, recs, e.Ps(), |e.file.recs|, e.records, 0);
    assert Restrict(e.records, 0) == map[];
  }

  lemma IndexCarriesOver(p: Primitives, e: Engine, recs: seq<Rec>)
    requires RecordsOk(p, e) && |e.file.recs| <= |recs|
    requires forall k | 0 <= k < |e.file.recs| :: PageNo(p, e.Ps(), recs[k]) == PageNo(p, e.Ps(), e.file.recs[k])
    ensures Indexes(p, recs, e.Ps(), |e.file.recs|, e.records)
  {
    hide PageNo;
  }

  /** A file with an endpoint's state in force and its record heads opens as that endpoint. */
  lemma OpensAs(p: Primitives, e: Engine, c: File)
    requires Wf(p, e) && Rooted(p, e) && !e.HasPending() && |e.file.recs| <= |c.recs|
    requires forall k | 0 <= k < |e.file.recs| :: c.recs[k].head == e.file.recs[k].head
    requires Encodable(e) && ReadActiveState(p, c, e.header.database) == Ok(CurrentState(e))
    ensures LoadLocal(p, c, e.header, ViewOf(e.base), SourceOf(e.base)) == Ok(e.(file := c))
  {
    hide ReadActiveState, LoadRecords, Wf, SlotsOk, HeaderOk, HeaderFitsView, StateFitsHeader, SourceFits, BaseFor, HeadFor,
         ViewOf, SourceOf;
    OpeningChecks(p, e);
    SameHeadsIndex(p, e, c.recs);
    NothingPending(p, e);
    PendingParts(e);
  }

  lemma PendingParts(e: Engine)
    requires !e.HasPending()
    ensures e.rawPages == {} && e.originals == map[] && !e.dirty
  {
  }

  lemma BytesCarryOver(p: Primitives, e: Engine, changed: set<nat>, c: File, n: nat)
    requires Wf(p, e) && !e.HasPending() && |e.file.recs| <= |c.recs| && n >= 1 && n !in changed
    requires n in e.records && e.records[n] < |e.file.recs| ==> c.recs[e.records[n]].body == e.file.recs[e.records[n]].body
    ensures ReadPage(e.(file := c), n) == ReadPage(e, n)
  {
    RecordInRange(p, e, n);
    hide BasePage, Indexes;
  }

  lemma DiskRecovers(p: Primitives, s: Sys, ep: Endpoint, c: File)
    requires Possible(p, s, c) && OnDisk(s.synced, s.touched, s.floor, ep) && Settles(p, s.e, ep)
    requires Encodable(ep.engine) && ReadActiveState(p, c, s.e.header.database) == Ok(CurrentState(ep.engine))
    ensures Reopened(p, s, c).Ok? && Recovers(Reopened(p, s, c).value, ep) && Reopened(p, s, c).value.file == c
  {
    hide ReadActiveState, LoadLocal, Wf, Rooted, ReadPage, SectorPossible;
    var e := ep.engine;
    OpensAs(p, e, c);
    WfRecords(p, e);
    forall n | n >= 1 && n !in ep.changed
      ensures ReadPage(e.(file := c), n) == ReadPage(e, n)
    {
      RecordInRange(p, e, n);
      BytesCarryOver(p, e, ep.changed, c, n);
    }
  }

  lemma SameSlotsSameState(p: Primitives, e: Engine, c: File)
    requires SlotsOk(p, e) && c.slotA == e.file.slotA && c.slotB == e.file.slotB
    ensures Encodable(e) && ReadActiveState(p, c, e.header.database) == Ok(CurrentState(e))
  {
    hide ReadSlot, ValidState, StateImage;
    ReadsCurrentState(p, e);
  }

  /** With a state sector in flight the older state, the newer one or nothing at all is read. */
  lemma InFlight(p: Primitives, o: Engine, w: Engine, c: File)
    requires SlotsOk(p, o) && SlotsOk(p, w) && w.header.database == o.header.database
    requires w.sequence == o.sequence + 1 && Slot(w.file, o.sequence) == Slot(o.file, o.sequence)
    requires Slot(c, o.sequence) == Slot(o.file, o.sequence)
    requires SectorPossible(p, o.header.database, Slot(o.file, w.sequence), Slot(w.file, w.sequence), Slot(c, w.sequence))
    ensures Encodable(o) && Encodable(w)
    ensures var r := ReadActiveState(p, c, o.header.database);
      r.Err? || r == Ok(CurrentState(o)) || r == Ok(CurrentState(w))
  {
    hide StateImage, ReadSlot, ValidState;
    ReadsCurrentState(p, o);
    ReadsCurrentState(p, w);
    ReadWrittenSlot(p, CurrentState(o));
    ReadEmptySlot(p, o.header.database);
    var b := Slot(c, w.sequence);
    if b == Slot(o.file, w.sequence) {
      SameSlotsSameState(p, o, c);
    } else if b == Slot(w.file, w.sequence) {
      SameSlotsSameState(p, w, c);
    } else if b == Zeros(SECTOR) {
      assert o.sequence != 1;
    }
  }

  /** Whatever a crash leaves, reopening fails, or gives one of the two endpoints with its exact index and its
      bytes on every page not written since; it fails only while a state sector is in flight. */
  lemma CrashRecovers(p: Primitives, s: Sys, c: File)
    requires Inv(p, s) && Possible(p, s, c)
    ensures var r := Reopened(p, s, c);
      || (r.Err? && s.newer.Some?)
      || (r.Ok? && Recovers(r.value, s.older))
      || (r.Ok? && s.newer.Some? && Recovers(r.value, s.newer.value))
  {
    hide Wf, HeaderOk, SlotsOk, Discard, Tracks, OnDisk, Recovers, ReadActiveState;
    var o := s.older.engine;
    if s.newer.None? {
      SameSlotsSameState(p, o, c);
      DiskRecovers(p, s, s.older, c);
    } else {
      var w := s.newer.value.engine;
      InFlight(p, o, w, c);
      var r := ReadActiveState(p, c, s.e.header.database);
      if r == Ok(CurrentState(o)) {
        DiskRecovers(p, s, s.older, c);
      } else if r == Ok(CurrentState(w)) {
        DiskRecovers(p, s, s.newer.value, c);
      } else {
        UnreadableState(p, s, c);
      }
    }
  }

  lemma UnreadableState(p: Primitives, s: Sys, c: File)
    requires ReadActiveState(p, c, s.e.header.database).Err?
    ensures Reopened(p, s, c).Err?
  {
    hide ReadActiveState;
  }

  // Every action keeps the invariant

  lemma OpenedInv(p: Primitives, e: Engine)
    requires Wf(p, e) && Rooted(p, e) && !e.HasPending()
    ensures Inv(p, Opened(e))
  {
    hide Wf, Rooted, Discard;
    NothingPending(p, e);
    DiscardClean(p, e);
  }

  /** Writing the record of one page leaves the records of all other pages on disk alone. */
  lemma OtherRecords(p: Primitives, s: Sys, ep: Endpoint, n: nat, k: nat, m: nat)
    requires RecordsOk(p, s.e) && Tracks(s.e, s.synced, s.touched, s.floor) && Settles(p, s.e, ep)
    requires OnDisk(s.synced, s.touched, s.floor, ep) && ep.engine.Ps() == s.e.Ps()
    requires k == (if n in s.e.records then s.e.records[n] else |s.e.file.recs|)
    requires m in ep.engine.records && m != n
    ensures ep.engine.records[m] != k
  {
    hide Wf, Rooted, PageNo, RecordsOk;
    WfRecords(p, ep.engine);
    RecordInRange(p, ep.engine, m);
    var j := ep.engine.records[m];
    IndexAt(p, ep.engine, m, j);
    if n in s.e.records && j == k {
      RecordInRange(p, s.e, n);
      SameHeadSamePage(p, s.e.Ps(), ep.engine.file.recs[j], s.e.file.recs[j]);
      IndexAt(p, s.e, n, k);
    }
  }

  lemma MarkedOnDisk(p: Primitives, s: Sys, ep: Endpoint, n: nat, k: nat)
    requires RecordsOk(p, s.e) && Tracks(s.e, s.synced, s.touched, s.floor) && Settles(p, s.e, ep)
    requires OnDisk(s.synced, s.touched, s.floor, ep) && ep.engine.Ps() == s.e.Ps()
    requires k == (if n in s.e.records then s.e.records[n] else |s.e.file.recs|)
    ensures OnDisk(s.synced, s.touched + {k}, s.floor, Mark(ep, {n}))
  {
    hide RecordsOk, Settles, Tracks;
    forall m | m in ep.engine.records && m !in ep.changed && m != n
      ensures ep.engine.records[m] != k
    {
      OtherRecords(p, s, ep, n, k, m);
    }
  }

  lemma MarkedSettles(p: Primitives, e: Engine, e': Engine, ep: Endpoint, ns: set<nat>)
    requires Settles(p, e, ep) && e'.header == e.header && e'.base == e.base
    ensures Settles(p, e', ep) && Settles(p, e', Mark(ep, ns))
  {
    hide Wf, Rooted;
  }

  lemma PagesAgree(p: Primitives, s: Sys)
    requires Inv(p, s)
    ensures s.older.engine.Ps() == s.e.Ps() && (s.newer.Some? ==> s.newer.value.engine.Ps() == s.e.Ps())
  {
    hide Wf, SlotsOk, Tracks, OnDisk, Discard, ValidHeader, HeaderImage, ParsePageSize;
  }

  lemma WriteOneInv(p: Primitives, s: Sys, n: nat, page: Bytes)
    requires Inv(p, s) && Enabled(s, WriteOne(n, page))
    ensures Inv(p, Next(p, s, WriteOne(n, page)))
  {
    hide Wf, Rooted, Discard, OnDisk, Tracks, Settles, WritePage, Publishable, RecordsOk;
    PagesAgree(p, s);
    WfRecords(p, s.e);
    var s' := Next(p, s, WriteOne(n, page));
    WritePageWf(p, s.e, n, page);
    WriteOneFile(p, s.e, n, page);
    WriteOneTracks(p, s, n, page);
    RootedDepends(p, s.e, s'.e);
    DiscardUndoes(p, s.e, n, page);
    var k := if n in s.e.records then s.e.records[n] else |s.e.file.recs|;
    MarkedOnDisk(p, s, s.older, n, k);
    MarkedSettles(p, s.e, s'.e, s.older, {n});
    if s.newer.Some? {
      MarkedOnDisk(p, s, s.newer.value, n, k);
      MarkedSettles(p, s.e, s'.e, s.newer.value, {n});
    }
  }

  lemma WriteOneFile(p: Primitives, e: Engine, n: nat, page: Bytes)
    requires RecordsOk(p, e) && 1 <= n <= MAX_PAGE
    ensures var e', k := WritePage(p, e, n, page), if n in e.records then e.records[n] else |e.file.recs|;
      && SameSectors(e, e') && |e.file.recs| <= |e'.file.recs|
      && (forall j | 0 <= j < |e.file.recs| :: e'.file.recs[j].head == e.file.recs[j].head)
      && (forall j | 0 <= j < |e.file.recs| && j != k :: e'.file.recs[j] == e.file.recs[j])
  {
    hide RecordsOk, ReadPage, FrameImage;
    RecordInRange(p, e, n);
  }

  lemma WriteOneTracks(p: Primitives, s: Sys, n: nat, page: Bytes)
    requires RecordsOk(p, s.e) && Tracks(s.e, s.synced, s.touched, s.floor) && 1 <= n <= MAX_PAGE
    ensures var k := if n in s.e.records then s.e.records[n] else |s.e.file.recs|;
      Tracks(WritePage(p, s.e, n, page), s.synced, s.touched + {k}, s.floor)
  {
    hide RecordsOk, WritePage;
    WriteOneFile(p, s.e, n, page);
  }

  lemma ReshapeInv(p: Primitives, s: Sys, size: nat, cut: Option<nat>)
    requires Inv(p, s)
    ensures Inv(p, Next(p, s, Reshape(size, cut)))
  {
    hide Wf, Rooted, OnDisk;
    var e' := s.e.(size := size, cut := cut, dirty := true);
    RootedDepends(p, s.e, e');
    DiscardForgets(p, s.e, size, cut);
  }

  lemma DiscardForgets(p: Primitives, e: Engine, size: nat, cut: Option<nat>)
    requires e.head.commitEnd <= |e.file.recs|
    ensures Discard(p, e.(size := size, cut := cut, dirty := true)) == Discard(p, e)
  {
    hide PageNo;
    var e' := e.(size := size, cut := cut, dirty := true);
    forall k | 0 <= k < |e.file.recs|
      ensures Restored(p, e', e.file.recs[k]) == Restored(p, e, e.file.recs[k])
    {
    }
    assert Discard(p, e').file.recs == Discard(p, e).file.recs;
  }

  lemma AbandonOnDisk(p: Primitives, s: Sys, ep: Endpoint)
    requires RecordsOk(p, s.e) && Tracks(s.e, s.synced, s.touched, s.floor) && Settles(p, s.e, ep)
    requires OnDisk(s.synced, s.touched, s.floor, ep) && ep.engine.Ps() == s.e.Ps()
    requires |ep.engine.file.recs| <= s.e.head.commitEnd
    ensures OnDisk(s.synced, s.touched + Undone(s.e), Min(s.floor, s.e.head.commitEnd), Mark(ep, s.e.originals.Keys))
  {
    hide RecordsOk, Settles, Tracks;
    forall m, n | m in ep.engine.records && m != n && n in s.e.records
      ensures ep.engine.records[m] != s.e.records[n]
    {
      OtherRecords(p, s, ep, n, s.e.records[n], m);
    }
  }

  /** Below the committed end only bodies with undo copies change. */
  lemma AbandonFile(p: Primitives, e: Engine)
    requires Wf(p, e)
    ensures e.head.commitEnd <= |e.file.recs|
    ensures var e' := Discard(p, e);
      && SameSectors(e, e') && |e'.file.recs| == e.head.commitEnd
      && (forall k | 0 <= k < e.head.commitEnd :: e'.file.recs[k].head == e.file.recs[k].head)
      && (forall k | 0 <= k < e.head.commitEnd && k !in Undone(e) :: e'.file.recs[k] == e.file.recs[k])
  {
    hide Wf, PageNo, RecordsOk;
    WfRecords(p, e);
    RecordInRange(p, e, 1);
    var e' := Discard(p, e);
    forall k | 0 <= k < e.head.commitEnd && k !in Undone(e)
      ensures e'.file.recs[k] == e.file.recs[k]
    {
      var m := PageNo(p, e.Ps(), e.file.recs[k]);
      IndexAt(p, e, if m.Some? then m.value else 0, k);
      assert m.value in e.records && e.records[m.value] == k;
    }
  }

  lemma AbandonTracks(p: Primitives, s: Sys)
    requires Wf(p, s.e) && Tracks(s.e, s.synced, s.touched, s.floor)
    ensures s.e.head.commitEnd <= |s.e.file.recs|
    ensures Tracks(Discard(p, s.e), s.synced, s.touched + Undone(s.e), Min(s.floor, s.e.head.commitEnd))
  {
    hide Wf, Discard, Undone;
    AbandonFile(p, s.e);
  }

  lemma AbandonInv(p: Primitives, s: Sys)
    requires Inv(p, s)
    ensures Inv(p, Next(p, s, Abandon))
  {
    hide Wf, Rooted, Discard, OnDisk, Tracks, Settles, Publishable, RecordsOk, Undone;
    PagesAgree(p, s);
    NewestLength(p, s);
    WfRecords(p, s.e);
    var s', ns := Next(p, s, Abandon), s.e.originals.Keys;
    DiscardWf(p, s.e);
    AbandonFile(p, s.e);
    RootedDepends(p, s.e, s'.e);
    DiscardClean(p, s'.e);
    AbandonOnDisk(p, s, s.older);
    MarkedSettles(p, s.e, s'.e, s.older, ns);
    if s.newer.Some? {
      AbandonOnDisk(p, s, s.newer.value);
      MarkedSettles(p, s.e, s'.e, s.newer.value, ns);
    }
    AbandonTracks(p, s);
  }

  lemma NewestLength(p: Primitives, s: Sys)
    requires Inv(p, s)
    ensures |s.Newest().engine.file.recs| == s.e.head.commitEnd
  {
    hide Wf, Rooted, Tracks, SectorsOk, OnDisk;
  }

  lemma SyncOnDisk(s: Sys, ep: Endpoint)
    requires OnDisk(s.synced, s.touched, s.floor, ep) && Tracks(s.e, s.synced, s.touched, s.floor)
    ensures OnDisk(s.e.file, {}, |s.e.file.recs|, ep)
  {
  }

  lemma SyncInv(p: Primitives, s: Sys)
    requires Inv(p, s)
    ensures Inv(p, Next(p, s, Sync))
  {
    hide Wf, Rooted, Discard, OnDisk;
    NewestLength(p, s);
    var s' := Next(p, s, Sync);
    SyncOnDisk(s, s.Newest());
    if !s.e.HasPending() {
      DiscardClean(p, s.e);
      SelfOnDisk(s.e);
    }
  }

  lemma SelfOnDisk(e: Engine)
    ensures OnDisk(e.file, {}, |e.file.recs|, Endpoint(e, {}))
  {
  }

  lemma WriteStateInv(p: Primitives, s: Sys, now: u64)
    requires Inv(p, s) && Enabled(s, WriteState(now))
    ensures Inv(p, Next(p, s, WriteState(now)))
  {
    hide Wf, HeaderOk, SlotsOk, Discard, OnDisk, StateImage, PublishedState, Publishable;
    NewestLength(p, s);
    var r := Publish(p, s.e, now);
    if r.Ok? {
      PublishWf(p, s.e, now);
      PublishHeader(p, s.e, now);
      WfPageSize(p, s.e);
      PublishSlots(p, s.e, now);
      DiscardClean(p, r.value);
      SelfOnDisk(r.value);
      OnDiskRecs(s.e.file, r.value.file, Endpoint(r.value, {}));
      OldHead(p, s.e);
    }
  }

  lemma OnDiskRecs(f: File, g: File, ep: Endpoint)
    requires OnDisk(g, {}, |g.recs|, ep) && f.recs == g.recs
    ensures OnDisk(f, {}, |f.recs|, ep)
  {
  }

  lemma OldHead(p: Primitives, e: Engine)
    requires e.head.commitEnd <= |e.file.recs|
    ensures Discard(p, e).sequence == e.sequence && Discard(p, e).head == e.head && Discard(p, e).base == e.base
    ensures Discard(p, e).header == e.header
  {
  }

  lemma NextInv(p: Primitives, s: Sys, a: Action)
    requires Inv(p, s)
    ensures Inv(p, Next(p, s, a))
  {
    hide Inv;
    if Enabled(s, a) {
      match a {
        case WriteOne(n, page) => WriteOneInv(p, s, n, page);
        case Reshape(size, cut) => ReshapeInv(p, s, size, cut);
        case Abandon => AbandonInv(p, s);
        case Sync => SyncInv(p, s);
        case WriteState(now) => WriteStateInv(p, s, now);
      }
    }
  }

  lemma {:induction false} RunInv(p: Primitives, s: Sys, actions: seq<Action>)
    requires Inv(p, s)
    ensures Inv(p, Run(p, s, actions))
    decreases |actions|
  {
    hide Inv, Next;
    if actions != [] {
      NextInv(p, s, actions[0]);
      RunInv(p, Next(p, s, actions[0]), actions[1..]);
    }
  }

  /** At any point of any sequence of writes, resizes, discards and durable publications, whatever a crash
      leaves behind reopens as one of the two endpoints or, only while a state sector is in flight, not at all. */
  lemma CrashSafe(p: Primitives, e: Engine, actions: seq<Action>, c: File)
    requires Wf(p, e) && Rooted(p, e) && !e.HasPending()
    requires Possible(p, Run(p, Opened(e), actions), c)
    ensures var s := Run(p, Opened(e), actions);
      var r := Reopened(p, s, c);
      || (r.Err? && s.newer.Some?)
      || (r.Ok? && Recovers(r.value, s.older))
      || (r.Ok? && s.newer.Some? && Recovers(r.value, s.newer.value))
  {
    hide Wf, Rooted, Possible, Inv, Run;
    OpenedInv(p, e);
    RunInv(p, Opened(e), actions);
    CrashRecovers(p, Run(p, Opened(e), actions), c);
  }

  /** A new endpoint is complete: it reads as the transaction did, on every page. */
  lemma NewEndpointComplete(p: Primitives, s: Sys, now: u64, n: nat)
    requires Inv(p, s) && Enabled(s, WriteState(now)) && n >= 1
    requires s.e.head.txid + 1 < U64_LIMIT && s.e.sequence + 1 < U64_LIMIT
    ensures var s' := Next(p, s, WriteState(now));
      && s'.newer.Some? && s'.newer.value.changed == {}
      && ReadPage(s'.newer.value.engine, n) == ReadPage(s.e, n) && s'.newer.value.engine.head.logicalSize == s.e.size
      && s'.newer.value.engine.head.txid == s.e.head.txid + 1
  {
    hide Wf, Rooted, Discard, StateImage, ReadPage, Tracks, OnDisk, SectorsOk;
    PublishReads(p, s.e, now, n);
  }

  // A durable transaction survives

  lemma {:induction false} RunConcat(p: Primitives, s: Sys, a: seq<Action>, b: seq<Action>)
    ensures Run(p, s, a + b) == Run(p, Run(p, s, a), b)
    decreases |a|
  {
    hide Next;
    if a == [] {
      assert a + b == b;
    } else {
      assert (a + b)[1..] == a[1..] + b;
      RunConcat(p, Next(p, s, a[0]), a[1..], b);
    }
  }

  lemma RunOne(p: Primitives, s: Sys, a: Action)
    ensures Run(p, s, [a]) == Next(p, s, a)
  {
    hide Next;
    assert [a][1..] == [];
  }

  /** `publish_synced`: the data, then the state sector, then the state sector on disk. */
  function Synced(now: u64): seq<Action> {
    [Sync, WriteState(now), Sync]
  }

  lemma RunSynced(p: Primitives, s: Sys, now: u64)
    ensures Run(p, s, Synced(now)) == Next(p, Next(p, Next(p, s, Sync), WriteState(now)), Sync)
  {
    hide Next, Run;
    RunConcat(p, s, [Sync, WriteState(now)], [Sync]);
    RunConcat(p, s, [Sync], [WriteState(now)]);
    assert [Sync] + [WriteState(now)] == [Sync, WriteState(now)];
    assert [Sync, WriteState(now)] + [Sync] == Synced(now);
    RunOne(p, s, Sync);
    RunOne(p, Next(p, s, Sync), WriteState(now));
    RunOne(p, Next(p, Next(p, s, Sync), WriteState(now)), Sync);
  }

  /** After it nothing is in flight, and the one endpoint on disk is the published engine. */
  lemma SyncedSettles(p: Primitives, s: Sys, now: u64)
    requires s.e.HasPending() && Publishable(s.e) && s.e.Ps() > 0 && s.e.size % s.e.Ps() == 0
    requires s.e.head.txid + 1 < U64_LIMIT && s.e.sequence + 1 < U64_LIMIT
    ensures var t := Run(p, s, Synced(now));
      t.e == Publish(p, s.e, now).value && t.newer.None? && t.older == Endpoint(t.e, {}) && !t.e.HasPending()
  {
    hide Run, Publishable, PublishedState, StateImage;
    RunSynced(p, s, now);
  }

  /** Once a publication is durable, whatever a crash leaves opens as that transaction: every page, the size and the
      next transaction number. */
  lemma DurableCommit(p: Primitives, s: Sys, now: u64, c: File, n: nat)
    requires Inv(p, s) && s.e.HasPending() && Publishable(s.e) && s.e.Ps() > 0 && s.e.size % s.e.Ps() == 0
    requires s.e.head.txid + 1 < U64_LIMIT && s.e.sequence + 1 < U64_LIMIT
    requires Possible(p, Run(p, s, Synced(now)), c) && n >= 1
    ensures var r := Reopened(p, Run(p, s, Synced(now)), c);
      && r.Ok? && ReadPage(r.value, n) == ReadPage(s.e, n) && !r.value.HasPending()
      && r.value.size == s.e.size && r.value.head.txid == s.e.head.txid + 1
  {
    hide Wf, Rooted, Inv, Run, Possible, Publishable, PublishedState, StateImage, ReadPage, LoadLocal;
    var t := Run(p, s, Synced(now));
    SyncedSettles(p, s, now);
    RunInv(p, s, Synced(now));
    CrashRecovers(p, t, c);
    InvEngine(p, s);
    PublishReads(p, s.e, now, n);
    assert t.e.size == s.e.size && t.e.head.txid == s.e.head.txid + 1;
  }

  lemma InvEngine(p: Primitives, s: Sys)
    requires Inv(p, s)
    ensures Wf(p, s.e) && Rooted(p, s.e)
  {
    hide Wf, Rooted, Discard, OnDisk, Tracks;
  }

  datatype PageWrite = PageWrite(n: nat, page: Bytes)

  predicate Writable(ws: seq<PageWrite>, ps: nat) {
    forall w | w in ws :: 1 <= w.n <= MAX_PAGE && |w.page| == ps
  }

  function WriteAll(ws: seq<PageWrite>): seq<Action> {
    if ws == [] then [] else WriteAll(ws[..|ws| - 1]) + [WriteOne(ws[|ws| - 1].n, ws[|ws| - 1].page)]
  }

  /** What was last written to this page, if anything. */
  function LastWritten(ws: seq<PageWrite>, n: nat, before: Bytes): Bytes {
    if ws == [] then before
    else if ws[|ws| - 1].n == n then ws[|ws| - 1].page
    else LastWritten(ws[..|ws| - 1], n, before)
  }

  lemma {:induction false} WritesRead(p: Primitives, s: Sys, ws: seq<PageWrite>, n: nat)
    requires Inv(p, s) && Writable(ws, s.e.Ps()) && n >= 1
    ensures var t := Run(p, s, WriteAll(ws));
      && Inv(p, t) && ReadPage(t.e, n) == LastWritten(ws, n, ReadPage(s.e, n))
      && t.e.head == s.e.head && t.e.sequence == s.e.sequence && t.e.size == s.e.size && t.e.cut == s.e.cut
    decreases |ws|
  {
    hide Wf, Rooted, Inv, ReadPage, WritePage;
    if ws != [] {
      var init, w := ws[..|ws| - 1], ws[|ws| - 1];
      assert w in ws && forall x | x in init :: x in ws;
      WritesRead(p, s, init, n);
      var t := Run(p, s, WriteAll(init));
      RunConcat(p, s, WriteAll(init), [WriteOne(w.n, w.page)]);
      RunOne(p, t, WriteOne(w.n, w.page));
      NextInv(p, t, WriteOne(w.n, w.page));
      InvEngine(p, t);
      WritePageReads(p, t.e, w.n, w.page, n);
      WriteOneKeeps(p, t.e, w.n, w.page);
    }
  }

  lemma WriteOneKeeps(p: Primitives, e: Engine, n: nat, page: Bytes)
    requires 1 <= n <= MAX_PAGE
    ensures var e' := WritePage(p, e, n, page);
      e'.head == e.head && e'.sequence == e.sequence && e'.size == e.size && e'.cut == e.cut
  {
    hide ReadPage, FrameImage;
  }

  /** Any pages written, the size set, and a durable publication: afterwards no crash can bring up anything but the last
      bytes written to each page, over what was there before, at that size. */
  lemma DurableTransaction(p: Primitives, e: Engine, ws: seq<PageWrite>, size: nat, now: u64, c: File, n: nat)
    requires Wf(p, e) && Rooted(p, e) && !e.HasPending() && Writable(ws, e.Ps()) && n >= 1
    requires e.size <= size <= (MAX_PAGE + 1) * e.Ps() && e.Ps() > 0 && size % e.Ps() == 0
    requires e.head.txid + 1 < U64_LIMIT && e.sequence + 1 < U64_LIMIT
    requires Possible(p, Run(p, Opened(e), WriteAll(ws) + [Reshape(size, None)] + Synced(now)), c)
    ensures var r := Reopened(p, Run(p, Opened(e), WriteAll(ws) + [Reshape(size, None)] + Synced(now)), c);
      && r.Ok? && ReadPage(r.value, n) == LastWritten(ws, n, ReadPage(e, n))
      && r.value.size == size && r.value.head.txid == e.head.txid + 1
  {
    hide Wf, Rooted, Inv, Run, Possible, ReadPage, LoadLocal, WriteAll, LastWritten, Publishable;
    var s := Opened(e);
    OpenedInv(p, e);
    WritesRead(p, s, ws, n);
    NothingPending(p, e);
    var t := Run(p, s, WriteAll(ws));
    InvEngine(p, t);
    Transactions.GrowWf(p, t.e, size);
    RunConcat(p, s, WriteAll(ws), [Reshape(size, None)]);
    RunOne(p, t, Reshape(size, None));
    NextInv(p, t, Reshape(size, None));
    var u := Next(p, t, Reshape(size, None));
    assert u.e == t.e.(size := size, dirty := true);
    ReshapedReads(t.e, size, n);
    WfPublishable(p, u.e);
    RunConcat(p, s, WriteAll(ws) + [Reshape(size, None)], Synced(now));
    DurableCommit(p, u, now, c, n);
  }

  lemma ReshapedReads(e: Engine, size: nat, n: nat)
    requires n >= 1
    ensures ReadPage(e.(size := size, dirty := true), n) == ReadPage(e, n)
  {
  }

  /** A discard takes the store back to its newest endpoint. */
  lemma AbandonForgets(p: Primitives, s: Sys)
    requires Inv(p, s)
    ensures var t := Next(p, s, Abandon); t.e == s.Newest().engine && !t.e.HasPending()
  {
    hide Wf, Rooted, Discard, OnDisk, Tracks, SectorsOk;
  }

  /** With nothing open, one sync makes the store crash-proof as it is, whatever was written and discarded before. */
  lemma SyncedCleanRecovers(p: Primitives, s: Sys, c: File, n: nat)
    requires Inv(p, s) && !s.e.HasPending() && Possible(p, Next(p, s, Sync), c) && n >= 1
    ensures var r := Reopened(p, Next(p, s, Sync), c); r.Ok? && r.value.(file := s.e.file) == s.e && ReadPage(r.value, n) == ReadPage(s.e, n)
  {
    hide Wf, Rooted, Possible, ReadPage, LoadLocal, Discard, OnDisk, Tracks, SectorsOk;
    DiscardClean(p, s.e);
    SyncInv(p, s);
    CrashRecovers(p, Next(p, s, Sync), c);
  }

  // Why the sync comes first

  /** The state sector written without the sync before it. */
  function Rushed(s: Sys, e': Engine): Sys {
    s.(e := e', newer := Some(Endpoint(e', {})))
  }

  lemma RushedPossible(p: Primitives, s: Sys, e': Engine, k: nat)
    requires Tracks(s.e, s.synced, s.touched, s.floor) && e'.file.recs == s.e.file.recs && k < s.floor && k in s.touched
    requires e'.file.header == s.e.file.header == s.synced.header
    ensures Possible(p, Rushed(s, e'), e'.file.(recs := e'.file.recs[k := s.synced.recs[k]]))
  {
  }

  /** Without it a crash can bring up the new endpoint with the old bytes of a page it overwrote. */
  lemma BarrierMatters(p: Primitives, s: Sys, now: u64, n: nat)
    requires Inv(p, s) && s.e.HasPending() && Publishable(s.e) && s.e.Ps() > 0 && s.e.size % s.e.Ps() == 0
    requires Publish(p, s.e, now).Ok? && n in s.e.records && n >= 1
    requires var k := s.e.records[n]; k < s.floor && k in s.touched && s.floor <= |s.synced.recs| && s.floor <= |s.e.file.recs|
    requires s.synced.recs[s.e.records[n]].body != s.e.file.recs[s.e.records[n]].body
    ensures exists c ::
      var e' := Publish(p, s.e, now).value;
      var r := Reopened(p, Rushed(s, e'), c);
      && Possible(p, Rushed(s, e'), c)
      && r.Ok? && r.value.head == e'.head && ReadPage(r.value, n) != ReadPage(s.e, n)
  {
    hide Wf, HeaderOk, SlotsOk, Discard, OnDisk, Tracks, Publishable, PublishedState, StateImage, LoadLocal, ReadActiveState, Possible,
         BasePage;
    var e', k := Publish(p, s.e, now).value, s.e.records[n];
    var c := e'.file.(recs := e'.file.recs[k := s.synced.recs[k]]);
    PublishWf(p, s.e, now);
    PublishHeader(p, s.e, now);
    PublishSlots(p, s.e, now);
    PublishReads(p, s.e, now, n);
    RushedHeads(s, k);
    RushedPossible(p, s, e', k);
    SameSlotsSameState(p, e', c);
    OpensAs(p, e', c);
    assert Reopened(p, Rushed(s, e'), c) == Ok(e'.(file := c));
  }

  lemma RushedHeads(s: Sys, k: nat)
    requires Tracks(s.e, s.synced, s.touched, s.floor) && k < s.floor
    ensures k < |s.synced.recs| && k < |s.e.file.recs| && s.synced.recs[k].head == s.e.file.recs[k].head
  {
  }
}
