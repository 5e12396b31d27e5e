/** Publishing, discarding and reopening the pagefile (src/store.rs, `publish_inner`,
    `discard_mutable_pending`, `load_local`). */
module Publication {
  import opened Bytes
  import opened Format
  import opened Pages
  import opened Pagefile
  import opened Engine

  // What is durably recorded about a publication

  /** The head fits the fixed-width state record. */
  predicate Encodable(e: Engine) {
    e.head.logicalSize < U64_LIMIT && e.head.commitEnd < U64_LIMIT && (e.truncate.Some? ==> e.truncate.value < U32_LIMIT)
  }

  /** The state sector that stands for the current head. */
  function CurrentState(e: Engine): ActiveState
    requires Encodable(e)
  {
    ActiveState(e.header.database, e.sequence, e.head.txid, e.head.logicalSize, e.head.pageSize, e.head.history,
                e.head.last, e.head.oldest, e.head.commitEnd, if e.truncate.Some? then Some(e.truncate.value) else None)
  }

  /** The header, the base and the head agree on where this file starts. */
  ghost predicate HeaderOk(p: Primitives, e: Engine) {
    var h := e.header;
    && ValidHeader(p, h)
    && h.pageSize == e.head.pageSize
    && e.file.header == HeaderImage(p, h)
    && e.head.history == h.baseHistory
    && h.startTxid <= e.head.txid + 1
    && (match e.base
        case Genesis => h.parent == ZeroDigest() && h.sourceBytes == 0 && h.baseSize == 0
        case SealedBase(v) =>
          && h.parent == v.id && v.id != ZeroDigest() && h.sourceBytes == 0
          && v.database == h.database && h.startTxid == v.txid + 1 && h.baseHistory == v.history
          && h.baseSize == v.size && v.pageSize == h.pageSize
        case SourceBase(s) =>
          && h.parent == ZeroDigest() && h.baseSize == 0 && 1 <= e.head.txid
          && h.sourceBytes == |s| && |s| >= 100
          && h.sourceDigest == p.blake3(s[..100]) && ParsePageSize(s[..100]) == Some(e.Ps()))
    && (e.head.txid + 1 == h.startTxid ==> e.head.logicalSize == h.baseSize && e.head.commitEnd == 0 && e.truncate.None?)
    && (e.base.SourceBase? && e.head.txid == 1 ==>
        e.head.logicalSize == h.sourceBytes && e.head.commitEnd == 0 && e.truncate.None?)
    && e.head.commitOffset == (if e.head.txid < h.startTxid then 0 else StateOffset(e.sequence))
    && (e.head.oldest == 0 ==> e.head.last == 0)
  }

  /** The newest sector holds the current state; the other holds its predecessor or was never written. */
  ghost predicate SlotsOk(p: Primitives, e: Engine) {
    && Encodable(e)
    && ValidState(CurrentState(e))
    && Slot(e.file, e.sequence) == StateImage(p, CurrentState(e))
    && (if e.sequence == 1 then Slot(e.file, 2) == Zeros(SECTOR)
        else exists prev :: ValidState(prev) && prev.database == e.header.database && prev.sequence == e.sequence - 1
                            && Slot(e.file, e.sequence - 1) == StateImage(p, prev))
  }

  ghost predicate Rooted(p: Primitives, e: Engine) {
    HeaderOk(p, e) && SlotsOk(p, e)
  }

  lemma StateImageNonZero(p: Primitives, s: ActiveState)
    ensures StateImage(p, s) != Zeros(SECTOR)
  {
    hide StateImage, U16, U32, U64;
    StateImageLaidOut(p, s);
    assert STATE_MAGIC[0] == StateImage(p, s)[0..8][0] == StateImage(p, s)[0];
  }

  lemma ReadWrittenSlot(p: Primitives, s: ActiveState)
    requires ValidState(s)
    ensures ReadSlot(p, StateImage(p, s), s.database) == Ok(Some(s))
  {
    hide StateImage, DecodeState;
    StateImageNonZero(p, s);
    StateRoundTrip(p, s);
  }

  /** The scan of both sectors returns the current state. */
  lemma ReadsCurrentState(p: Primitives, e: Engine)
    requires SlotsOk(p, e)
    ensures ReadActiveState(p, e.file, e.header.database) == Ok(CurrentState(e))
  {
    hide StateImage, ReadSlot, ValidState;
    var s := CurrentState(e);
    ReadWrittenSlot(p, s);
    if e.sequence == 1 {
      ReadEmptySlot(p, e.header.database);
    } else {
      var prev :| ValidState(prev) && prev.database == e.header.database && prev.sequence == e.sequence - 1
                  && Slot(e.file, e.sequence - 1) == StateImage(p, prev);
      ReadWrittenSlot(p, prev);
    }
  }

  lemma ReadEmptySlot(p: Primitives, database: Digest)
    ensures ReadSlot(p, Zeros(SECTOR), database) == Ok(None)
  {
  }

  // Opening the file again

  function ViewOf(b: Base): Option<View> {
    if b.SealedBase? then Some(b.view) else None
  }

  function SourceOf(b: Base): Option<Bytes> {
    if b.SourceBase? then Some(b.source) else None
  }

  /** What the header demands of the sealed view it names. */
  predicate HeaderFitsView(p: Primitives, h: ActiveHeader, view: Option<View>) {
    && (view.Some? ==> view.value.database == h.database && view.value.pageSize == h.pageSize)
    && h.startTxid == (if view.Some? then view.value.txid else 0) + 1
    && h.baseHistory == (if view.Some? then view.value.history else GenesisHistory(p))
    && h.baseSize == (if view.Some? then view.value.size else 0)
  }

  predicate StateFitsHeader(s: ActiveState, h: ActiveHeader) {
    && s.pageSize == h.pageSize
    && s.history == h.baseHistory
    && h.startTxid <= s.txid + 1
    && (s.txid + 1 == h.startTxid ==> s.logicalSize == h.baseSize)
  }

  predicate SourceFits(p: Primitives, h: ActiveHeader, source: Option<Bytes>) {
    h.sourceBytes != 0 ==>
      && source.Some? && |source.value| == h.sourceBytes && |source.value| >= 100
      && p.blake3(source.value[..100]) == h.sourceDigest && ParsePageSize(source.value[..100]) == Some(h.pageSize)
  }

  function BaseFor(h: ActiveHeader, view: Option<View>, source: Option<Bytes>): Base {
    if view.Some? then SealedBase(view.value)
    else if h.sourceBytes != 0 && source.Some? then SourceBase(source.value)
    else Genesis
  }

  function HeadFor(s: ActiveState, h: ActiveHeader): HeadState {
    HeadState(s.pageSize, s.logicalSize, s.txid, s.history, if s.txid < h.startTxid then 0 else StateOffset(s.sequence),
              s.recordCount, if s.firstCommitUnix == 0 then s.commitUnix else s.firstCommitUnix, s.commitUnix)
  }

  function LoadLocal(p: Primitives, f: File, h: ActiveHeader, view: Option<View>, source: Option<Bytes>): Result<Engine> {
    if !HeaderFitsView(p, h, view) then Err(IdentityMismatch) else
    var s :- ReadActiveState(p, f, h.database);
    if !StateFitsHeader(s, h) then Err(IdentityMismatch) else
    var records :- LoadRecords(p, f.recs, s.pageSize, s.recordCount);
    if !SourceFits(p, h, source) then Err(IdentityMismatch) else
    Ok(Engine(h, f, s.sequence, records, if s.truncatePages.Some? then Some(s.truncatePages.value) else None,
              BaseFor(h, view, source), HeadFor(s, h), {}, map[], s.logicalSize, None, false))
  }

  /** A sector that was never written, or one that holds a state of this database no newer than the given one. */
  ghost predicate NotNewer(p: Primitives, b: Bytes, database: Digest, sequence: nat) {
    b == Zeros(SECTOR) || exists t :: ValidState(t) && b == StateImage(p, t) && t.database == database && t.sequence <= sequence
  }

  lemma ReadSlotSound(p: Primitives, b: Bytes, database: Digest)
    requires ReadSlot(p, b, database).Ok?
    ensures match ReadSlot(p, b, database).value
      case None => b == Zeros(SECTOR)
      case Some(s) => ValidState(s) && s.database == database && b == StateImage(p, s)
  {
    hide DecodeState, StateImage, ValidState;
    if b != Zeros(SECTOR) {
      StateCanonical(p, b);
    }
  }

  /** The state that is read is written in one of the two sectors, and the other holds nothing newer. */
  lemma StateReadSound(p: Primitives, f: File, database: Digest)
    requires ReadActiveState(p, f, database).Ok?
    ensures var s := ReadActiveState(p, f, database).value;
      && ValidState(s) && s.database == database && (f.slotA == StateImage(p, s) || f.slotB == StateImage(p, s))
      && NotNewer(p, f.slotA, database, s.sequence) && NotNewer(p, f.slotB, database, s.sequence)
      && (f.slotA == Zeros(SECTOR) || f.slotB == Zeros(SECTOR) ==> s.sequence == 1)
  {
    hide ReadSlot, StateImage, ValidState;
    ReadSlotSound(p, f.slotA, database);
    ReadSlotSound(p, f.slotB, database);
    SlotFilled(p, f.slotA, database);
    SlotFilled(p, f.slotB, database);
  }

  lemma SlotFilled(p: Primitives, b: Bytes, database: Digest)
    requires ReadSlot(p, b, database).Ok?
    ensures b == Zeros(SECTOR) <==> ReadSlot(p, b, database).value.None?
  {
  }

  /** Whatever opens, from whatever bytes: the newest state either sector holds, over the view or the native file the
      header asks for, with the exact index of that many records and nothing pending. */
  lemma OpenedIsSound(p: Primitives, f: File, h: ActiveHeader, view: Option<View>, source: Option<Bytes>)
    requires LoadLocal(p, f, h, view, source).Ok?
    ensures var e := LoadLocal(p, f, h, view, source).value;
      && e.header == h && e.file == f && !e.HasPending() && e.cut.None? && e.size == e.head.logicalSize
      && Indexes(p, f.recs, e.Ps(), e.head.commitEnd, e.records)
      && h.startTxid <= e.head.txid + 1 && (e.head.txid + 1 == h.startTxid ==> e.head.logicalSize == h.baseSize)
      && e.head.pageSize == h.pageSize && e.head.history == h.baseHistory
    ensures var e := LoadLocal(p, f, h, view, source).value;
      exists s ::
        && ValidState(s) && s.database == h.database && (f.slotA == StateImage(p, s) || f.slotB == StateImage(p, s))
        && NotNewer(p, f.slotA, h.database, s.sequence) && NotNewer(p, f.slotB, h.database, s.sequence)
        && e.sequence == s.sequence && e.head.txid == s.txid && e.head.logicalSize == s.logicalSize
        && e.head.commitEnd == s.recordCount && e.head.last == s.commitUnix
        && e.head.oldest == (if s.firstCommitUnix == 0 then s.commitUnix else s.firstCommitUnix)
        && (e.truncate.Some? <==> s.truncatePages.Some?) && (e.truncate.Some? ==> e.truncate.value == s.truncatePages.value)
    ensures var e := LoadLocal(p, f, h, view, source).value;
      match e.base
      case SealedBase(v) =>
        && view == Some(v) && v.database == h.database && v.pageSize == h.pageSize
        && h.startTxid == v.txid + 1 && h.baseHistory == v.history && h.baseSize == v.size
      case SourceBase(b) =>
        && view.None? && source == Some(b) && |b| == h.sourceBytes && |b| >= 100 && p.blake3(b[..100]) == h.sourceDigest
        && ParsePageSize(b[..100]) == Some(h.pageSize) && h.startTxid == 1 && h.baseSize == 0
      case Genesis => view.None? && h.sourceBytes == 0 && h.startTxid == 1 && h.baseHistory == GenesisHistory(p) && h.baseSize == 0
  {
    hide ReadActiveState, LoadRecordsFrom, NotNewer, StateImage, ValidState, ParsePageSize, Indexes;
    StateReadSound(p, f, h.database);
    var s := ReadActiveState(p, f, h.database).value;
    EmptyIndexes(p, f.recs, s.pageSize);
    if s.pageSize != 0 {
      LoadedIndexes(p, f.recs, s.pageSize, s.recordCount, 0, map[]);
    }
  }

  lemma EmptyIndexes(p: Primitives, recs: seq<Rec>, ps: nat)
    ensures Indexes(p, recs, ps, 0, map[])
  {
  }

  lemma UncommittedIsPending(p: Primitives, e: Engine)
    requires RecordsOk(p, e) && PendingOk(e) && e.head.commitEnd < |e.file.recs|
    ensures e.rawPages != {}
  {
    hide PageNo;
    assert PageNo(p, e.Ps(), e.file.recs[e.head.commitEnd]).value in e.rawPages;
  }

  lemma NothingPending(p: Primitives, e: Engine)
    requires Wf(p, e) && !e.HasPending()
    ensures e.head.commitEnd == |e.file.recs| == |e.records|
    ensures e.size == e.head.logicalSize && e.cut.None?
  {
    hide PageNo;
    if e.head.commitEnd < |e.file.recs| {
      UncommittedIsPending(p, e);
    }
    IndexSize(p, e.file.recs, e.Ps(), |e.file.recs|, e.records, |e.file.recs|);
  }

  lemma LoadsRecords(p: Primitives, e: Engine)
    requires Wf(p, e) && !e.HasPending()
    ensures LoadRecords(p, e.file.recs, e.Ps(), e.head.commitEnd) == Ok(e.records)
  {
    NothingPending(p, e);
    LoadRecordsIndexes(p, e.file.recs, e.Ps(), |e.file.recs|, e.records, 0);
    assert Restrict(e.records, 0) == map[];
  }

  /** The checks made on opening all hold of a rooted engine. */
  lemma OpeningChecks(p: Primitives, e: Engine)
    requires HeaderOk(p, e) && Encodable(e)
    ensures HeaderFitsView(p, e.header, ViewOf(e.base))
    ensures StateFitsHeader(CurrentState(e), e.header)
    ensures SourceFits(p, e.header, SourceOf(e.base))
    ensures BaseFor(e.header, ViewOf(e.base), SourceOf(e.base)) == e.base
    ensures HeadFor(CurrentState(e), e.header) == e.head
  {
    hide HeaderImage, ParsePageSize, ValidPolicy, ValidPageSize;
  }

  /** Reopening accepts everything the engine wrote and rebuilds exactly the engine: header, head, record
      index, boundary and base. */
  lemma ReopenRebuilds(p: Primitives, e: Engine)
    requires Wf(p, e) && Rooted(p, e) && !e.HasPending()
    ensures DecodeHeader(p, e.file.header) == Ok(e.header)
    ensures LoadLocal(p, e.file, e.header, ViewOf(e.base), SourceOf(e.base)) == Ok(e)
  {
    hide DecodeHeader, HeaderImage, ReadActiveState, LoadRecords, Wf, SlotsOk, HeaderOk, HeaderFitsView, StateFitsHeader,
         SourceFits, BaseFor, HeadFor, ViewOf, SourceOf;
    HeaderDecodes(p, e);
    SlotsEncodable(p, e);
    ReadsCurrentState(p, e);
    OpeningChecks(p, e);
    LoadsRecords(p, e);
    NothingPending(p, e);
  }

  lemma HeaderDecodes(p: Primitives, e: Engine)
    requires HeaderOk(p, e)
    ensures DecodeHeader(p, e.file.header) == Ok(e.header)
  {
    hide DecodeHeader, HeaderImage, ValidHeader;
    HeaderRoundTrip(p, e.header);
  }

  lemma SlotsEncodable(p: Primitives, e: Engine)
    requires SlotsOk(p, e)
    ensures Encodable(e)
  {
  }

  // publish

  function LowerOf(a: Option<nat>, b: Option<nat>): Option<nat> {
    if a.Some? && b.Some? then Some(Min(a.value, b.value)) else if a.Some? then a else b
  }

  /** Everything the new state sector will hold fits its fixed widths. */
  predicate Publishable(e: Engine) {
    && e.size < U64_LIMIT && |e.records| < U64_LIMIT
    && (LowerOf(e.truncate, e.cut).Some? ==> LowerOf(e.truncate, e.cut).value < U32_LIMIT)
  }

  function PublishedState(e: Engine, now: u64): ActiveState
    requires Publishable(e) && e.sequence + 1 < U64_LIMIT && e.head.txid + 1 < U64_LIMIT
  {
    var t := LowerOf(e.truncate, e.cut);
    ActiveState(e.header.database, e.sequence + 1, e.head.txid + 1, e.size, e.head.pageSize, e.head.history, now,
                if e.head.oldest == 0 then now else e.head.oldest, |e.records|,
                if t.Some? then Some(t.value) else None)
  }

  /** The in-memory half of a publication. */
  function Advance(e: Engine, now: u64): Engine
    requires e.sequence + 1 < U64_LIMIT && e.head.txid + 1 < U64_LIMIT
  {
    e.(sequence := e.sequence + 1,
       truncate := LowerOf(e.truncate, e.cut),
       head := HeadState(e.head.pageSize, e.size, e.head.txid + 1, e.head.history, StateOffset(e.sequence + 1),
                         |e.file.recs|, if e.head.oldest == 0 then now else e.head.oldest, now),
       rawPages := {}, originals := map[], cut := None, dirty := false)
  }

  function Publish(p: Primitives, e: Engine, now: u64): Result<Engine>
    requires Publishable(e)
  {
    if !e.HasPending() then Ok(e)
    else if e.head.txid + 1 >= U64_LIMIT || e.sequence + 1 >= U64_LIMIT then Err(Range)
    else Ok(Advance(e, now).(file := WriteSlot(e.file, e.sequence + 1, StateImage(p, PublishedState(e, now)))))
  }

  lemma {:induction false} BoundedKeys(s: set<nat>, n: nat)
    requires forall k | k in s :: 1 <= k <= n
    ensures |s| <= n
    decreases n
  {
    if n == 0 {
      assert s == {};
    } else {
      BoundedKeys(s - {n}, n - 1);
      assert |s| <= |s - {n}| + 1 by {
        if n in s {
          assert s == (s - {n}) + {n};
        } else {
          assert s == s - {n};
        }
      }
    }
  }

  lemma CutBound(ps: nat, cut: nat, size: nat)
    requires ps > 0 && Start(ps, cut + 1) <= size <= (MAX_PAGE + 1) * ps
    ensures cut < U32_LIMIT
  {
    assert Start(ps, MAX_PAGE + 2) == (MAX_PAGE + 1) * ps;
    if cut + 1 > MAX_PAGE + 2 {
      StartOrder(ps, MAX_PAGE + 2, cut + 1);
    }
  }

  lemma SizeFits(ps: nat, size: nat)
    requires ValidPageSize(ps) && size <= (MAX_PAGE + 1) * ps
    ensures size < U64_LIMIT
  {
  }

  lemma WfPublishable(p: Primitives, e: Engine)
    requires Wf(p, e)
    ensures Publishable(e)
    ensures LowerOf(e.truncate, e.cut).Some? ==> Start(e.Ps(), LowerOf(e.truncate, e.cut).value + 1) <= e.size
  {
    hide Indexes, PendingOk;
    BoundedKeys(e.records.Keys, MAX_PAGE);
    SizeFits(e.Ps(), e.size);
    LowerOfFits(e.Ps(), e.truncate, e.cut, e.size);
    var t := LowerOf(e.truncate, e.cut);
    if t.Some? {
      CutBound(e.Ps(), t.value, e.size);
    }
  }

  lemma LowerOfFits(ps: nat, a: Option<nat>, b: Option<nat>, size: nat)
    requires b.Some? ==> Start(ps, b.value + 1) <= size
    requires b.None? && a.Some? ==> Start(ps, a.value + 1) <= size
    ensures LowerOf(a, b).Some? ==> Start(ps, LowerOf(a, b).value + 1) <= size
  {
    if a.Some? && b.Some? && a.value < b.value {
      StartOrder(ps, a.value + 1, b.value + 1);
    }
  }

  lemma PublishWf(p: Primitives, e: Engine, now: u64)
    requires Wf(p, e) && Publishable(e) && e.HasPending() && Publish(p, e, now).Ok?
    ensures Wf(p, Publish(p, e, now).value)
  {
    hide StateImage, PublishedState, PageNo, Start;
    WfPublishable(p, e);
    var e' := Publish(p, e, now).value;
    assert e'.file.recs == e.file.recs && e'.records == e.records;
    assert RecordsOk(p, e');
    assert PendingOk(e');
  }

  /** Publishing changes what no page reads as, and makes it all committed. */
  lemma PublishReads(p: Primitives, e: Engine, now: u64, n: nat)
    requires Wf(p, e) && Publishable(e) && e.HasPending() && Publish(p, e, now).Ok? && n >= 1
    ensures ReadPage(Publish(p, e, now).value, n) == ReadPage(e, n)
    ensures CommittedPage(Publish(p, e, now).value, n) == ReadPage(e, n)
  {
    hide StateImage, Indexes, PublishedState, BasePage;
    RecordInRange(p, e, n);
  }

  lemma PublishHeader(p: Primitives, e: Engine, now: u64)
    requires HeaderOk(p, e) && Publishable(e) && e.HasPending() && Publish(p, e, now).Ok?
    ensures HeaderOk(p, Publish(p, e, now).value)
  {
    hide StateImage, PublishedState, ValidHeader, HeaderImage, ParsePageSize;
  }

  lemma DivBound(ps: nat, t: nat, size: nat)
    requires ps > 0 && Start(ps, t + 1) <= size
    ensures t <= size / ps
  {
    Locate(ps, size);
    if size / ps + 1 < t + 1 {
      StartOrder(ps, size / ps + 1, t + 1);
    }
  }

  lemma PublishedStateValid(p: Primitives, e: Engine, now: u64)
    requires Wf(p, e) && Publishable(e) && e.sequence + 1 < U64_LIMIT && e.head.txid + 1 < U64_LIMIT
    requires e.size % e.Ps() == 0
    ensures ValidState(PublishedState(e, now))
  {
    hide RecordsOk, PendingOk;
    WfPublishable(p, e);
    var t := LowerOf(e.truncate, e.cut);
    if t.Some? {
      DivBound(e.Ps(), t.value, e.size);
    }
  }

  lemma PublishSlots(p: Primitives, e: Engine, now: u64)
    requires Wf(p, e) && SlotsOk(p, e) && Publishable(e) && e.HasPending() && Publish(p, e, now).Ok?
    requires e.size % e.Ps() == 0
    ensures SlotsOk(p, Publish(p, e, now).value)
  {
    hide StateImage, Wf, ValidState;
    RecordCount(p, e);
    PublishedStateValid(p, e, now);
    var e' := Publish(p, e, now).value;
    assert CurrentState(e') == PublishedState(e, now);
    assert Slot(e'.file, e'.sequence - 1) == Slot(e.file, e.sequence) == StateImage(p, CurrentState(e));
    assert CurrentState(e).sequence == e'.sequence - 1;
  }

  lemma RecordCount(p: Primitives, e: Engine)
    requires Wf(p, e)
    ensures |e.records| == |e.file.recs|
  {
    hide PageNo;
    IndexSize(p, e.file.recs, e.Ps(), |e.file.recs|, e.records, |e.file.recs|);
  }

  lemma UnalignedUnreadable(p: Primitives, e: Engine, now: u64, view: Option<View>, source: Option<Bytes>)
    requires Publishable(e) && e.HasPending() && Publish(p, e, now).Ok? && ValidPageSize(e.Ps()) && e.size % e.Ps() != 0
    ensures LoadLocal(p, Publish(p, e, now).value.file, e.header, view, source).Err?
  {
    hide StateImage, DecodeState, LoadRecords;
    StateRejected(p, PublishedState(e, now));
    StateImageNonZero(p, PublishedState(e, now));
  }

  /** Publishing makes the working vector the committed one. The published file can be opened again
      exactly when the size is a whole number of pages, and then gives back the same engine. */
  lemma PublishCommits(p: Primitives, e: Engine, v: Bytes, now: u64)
    requires Wf(p, e) && Rooted(p, e) && Shows(e, v) && e.HasPending()
    requires Publishable(e) && Publish(p, e, now).Ok?
    ensures e.Ps() > 0
    ensures var e' := Publish(p, e, now).value;
      && Wf(p, e') && Shows(e', v) && ShowsCommitted(e', v) && !e'.HasPending()
      && (e.size % e.Ps() == 0 ==> Rooted(p, e'))
      && (LoadLocal(p, e'.file, e.header, ViewOf(e.base), SourceOf(e.base)).Ok? <==> e.size % e.Ps() == 0)
      && (e.size % e.Ps() == 0 ==> LoadLocal(p, e'.file, e.header, ViewOf(e.base), SourceOf(e.base)) == Ok(e'))
  {
    hide Wf, HeaderOk, SlotsOk, ReadPage, CommittedPage, LoadLocal, Publishable;
    var e' := Publish(p, e, now).value;
    PublishWf(p, e, now);
    forall n | n >= 1
      ensures ReadPage(e', n) == ReadPage(e, n) && CommittedPage(e', n) == ReadPage(e, n)
    {
      PublishReads(p, e, now, n);
    }
    WfPageSize(p, e);
    if e.size % e.Ps() == 0 {
      PublishHeader(p, e, now);
      PublishSlots(p, e, now);
      ReopenRebuilds(p, e');
    } else {
      UnalignedUnreadable(p, e, now, ViewOf(e.base), SourceOf(e.base));
    }
  }

  lemma WfPageSize(p: Primitives, e: Engine)
    requires Wf(p, e)
    ensures ValidPageSize(e.Ps())
  {
  }

  // Changing only records

  /** Everything but the records and the pending transaction is the same. */
  ghost predicate SameSectors(e: Engine, e': Engine) {
    && e'.file.(recs := e.file.recs) == e.file && e'.header == e.header && e'.sequence == e.sequence
    && e'.head == e.head && e'.truncate == e.truncate && e'.base == e.base
  }

  lemma RootedDepends(p: Primitives, e: Engine, e': Engine)
    requires Rooted(p, e) && SameSectors(e, e')
    ensures Rooted(p, e')
  {
    hide HeaderImage, StateImage, ValidHeader, ValidState, ParsePageSize;
    assert Encodable(e') && CurrentState(e') == CurrentState(e);
  }

  // discard

  /** A committed record with its undo copy, if it has one, put back. */
  function Restored(p: Primitives, e: Engine, r: Rec): Rec {
    var n := PageNo(p, e.Ps(), r);
    if n.Some? && n.value in e.originals then r.(body := e.originals[n.value]) else r
  }

  /** Undo copies are written back, appended records cut off and forgotten. */
  function Discard(p: Primitives, e: Engine): Engine
    requires e.head.commitEnd <= |e.file.recs|
  {
    e.(file := e.file.(recs := seq(e.head.commitEnd, k requires 0 <= k < e.head.commitEnd => Restored(p, e, e.file.recs[k]))),
       records := map n | n in e.records && e.records[n] < e.head.commitEnd :: e.records[n],
       rawPages := {}, originals := map[], size := e.head.logicalSize, cut := None, dirty := false)
  }

  lemma RestoredKeepsHead(p: Primitives, e: Engine, r: Rec)
    ensures PageNo(p, e.Ps(), Restored(p, e, r)) == PageNo(p, e.Ps(), r)
  {
    SameHeadSamePage(p, e.Ps(), Restored(p, e, r), r);
  }

  lemma DiscardRecords(p: Primitives, e: Engine)
    requires Wf(p, e)
    ensures RecordsOk(p, Discard(p, e))
  {
    hide PageNo, SizesOk;
    var e' := Discard(p, e);
    forall k | 0 <= k < e.head.commitEnd
      ensures PageNo(p, e.Ps(), e'.file.recs[k]) == PageNo(p, e.Ps(), e.file.recs[k])
    {
      RestoredKeepsHead(p, e, e.file.recs[k]);
    }
  }

  lemma DiscardWf(p: Primitives, e: Engine)
    requires Wf(p, e)
    ensures Wf(p, Discard(p, e))
    ensures !Discard(p, e).HasPending()
  {
    hide RecordsOk, PageNo;
    RecordInRange(p, e, 1);
    DiscardRecords(p, e);
  }

  /** After discarding, every page reads as it was last committed. */
  lemma DiscardReads(p: Primitives, e: Engine, n: nat)
    requires Wf(p, e) && n >= 1
    ensures ReadPage(Discard(p, e), n) == CommittedPage(e, n)
    ensures CommittedPage(Discard(p, e), n) == CommittedPage(e, n)
  {
    hide PageNo, BasePage, SizesOk;
    if n in e.records && e.records[n] < e.head.commitEnd {
      var r := e.file.recs[e.records[n]];
      assert PageNo(p, e.Ps(), r) == Some(n);
      assert Discard(p, e).file.recs[e.records[n]] == Restored(p, e, r);
    }
  }

  lemma DiscardRooted(p: Primitives, e: Engine)
    requires Wf(p, e) && Rooted(p, e)
    ensures Rooted(p, Discard(p, e))
  {
    hide StateImage, HeaderImage, ValidHeader, ValidState, Wf, ParsePageSize;
    RecordInRange(p, e, 1) by { WfRecords(p, e); }
    var e' := Discard(p, e);
    assert Encodable(e') && CurrentState(e') == CurrentState(e);
  }

  lemma WfRecords(p: Primitives, e: Engine)
    requires Wf(p, e)
    ensures RecordsOk(p, e)
  {
  }

  /** Discarding, and so closing and reopening, brings back the committed vector, in memory and in the
      file. */
  lemma DiscardRestores(p: Primitives, e: Engine, u: Bytes)
    requires Wf(p, e) && Rooted(p, e) && ShowsCommitted(e, u)
    ensures var e' := Discard(p, e);
      && Wf(p, e') && Rooted(p, e') && !e'.HasPending() && Shows(e', u) && ShowsCommitted(e', u)
      && LoadLocal(p, e'.file, e.header, ViewOf(e.base), SourceOf(e.base)) == Ok(e')
  {
    hide Wf, Rooted, ReadPage, CommittedPage, LoadLocal;
    WfRecords(p, e);
    RecordInRange(p, e, 1);
    var e' := Discard(p, e);
    DiscardWf(p, e);
    DiscardRooted(p, e);
    forall n | n >= 1
      ensures ReadPage(e', n) == CommittedPage(e, n) && CommittedPage(e', n) == CommittedPage(e, n)
    {
      DiscardReads(p, e, n);
    }
    ReopenRebuilds(p, e');
  }

  /** An undo copy is the committed body. */
  lemma UndoIsBody(p: Primitives, e: Engine, n: nat)
    requires Wf(p, e) && n >= 1 && NeedsUndo(e, n)
    ensures e.records[n] < |e.file.recs| && ReadPage(e, n) == e.file.recs[e.records[n]].body
  {
    hide PageNo, BasePage;
  }

  lemma DiscardClean(p: Primitives, e: Engine)
    requires Wf(p, e) && !e.HasPending()
    ensures e.head.commitEnd <= |e.file.recs| && Discard(p, e) == e
  {
    hide Wf, PageNo, RecordsOk;
    NothingPending(p, e);
    WfRecords(p, e);
    forall n | n in e.records
      ensures e.records[n] < |e.file.recs|
    {
      RecordInRange(p, e, n);
    }
    var d := Discard(p, e);
    assert d.file.recs == e.file.recs;
    assert d.records == e.records;
  }

  /** Record k is the record of page n exactly when its header says so. */
  lemma IndexAt(p: Primitives, e: Engine, n: nat, k: nat)
    requires RecordsOk(p, e) && k < |e.file.recs|
    ensures PageNo(p, e.Ps(), e.file.recs[k]).Some?
    ensures PageNo(p, e.Ps(), e.file.recs[k]) == Some(n) <==> n in e.records && e.records[n] == k
  {
    hide PageNo;
  }

  /** Discarding undoes any page write: the record bodies. */
  lemma DiscardUndoesBody(p: Primitives, e: Engine, n: nat, page: Bytes, k: nat)
    requires Wf(p, e) && 1 <= n <= MAX_PAGE && k < e.head.commitEnd
    ensures var e' := WritePage(p, e, n, page);
      && k < |e.file.recs| && k < |e'.file.recs|
      && Restored(p, e', e'.file.recs[k]) == Restored(p, e, e.file.recs[k])
  {
    hide Wf, PageNo, ReadPage, FrameImage, RecordsOk;
    var e' := WritePage(p, e, n, page);
    WfRecords(p, e);
    RecordInRange(p, e, n);
    IndexAt(p, e, n, k);
    if NeedsUndo(e, n) {
      UndoIsBody(p, e, n);
    }
    SameHeadSamePage(p, e.Ps(), e'.file.recs[k], e.file.recs[k]);
  }

  /** Discarding undoes any page write. */
  lemma DiscardUndoes(p: Primitives, e: Engine, n: nat, page: Bytes)
    requires Wf(p, e) && 1 <= n <= MAX_PAGE
    ensures var e' := WritePage(p, e, n, page);
      && e.head.commitEnd <= |e.file.recs| && e'.head.commitEnd <= |e'.file.recs|
      && Discard(p, e') == Discard(p, e)
  {
    hide Wf, Restored, ReadPage, FrameImage, RecordsOk;
    WfRecords(p, e);
    RecordInRange(p, e, n);
    var e' := WritePage(p, e, n, page);
    forall k | 0 <= k < e.head.commitEnd
      ensures Discard(p, e').file.recs[k] == Discard(p, e).file.recs[k]
    {
      DiscardUndoesBody(p, e, n, page, k);
    }
    assert Discard(p, e').file.recs == Discard(p, e).file.recs;
    assert Discard(p, e').records == Discard(p, e).records;
  }
}
