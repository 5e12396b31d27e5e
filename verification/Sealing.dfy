/** Changing what lies under the active records: sealing them into a new view, and swapping an adopted
    native file for its sealed copy (src/store.rs, `prepare_active_work`, `create_active`,
    `install_source_base`). */
module Sealing {
  import opened Bytes
  import opened Layout
  import opened Format
  import opened Pages
  import opened Pagefile
  import opened Engine
  import opened Publication

  // A fresh active file over a base

  function FreshFile(p: Primitives, h: ActiveHeader, s: ActiveState, recs: seq<Rec>): File {
    File(HeaderImage(p, h), StateImage(p, s), Zeros(SECTOR), recs)
  }

  /** The header of an empty active file that continues the current head. */
  function NextHeader(e: Engine, parent: Digest, history: Digest, policy: StoragePolicy, layout: LayoutPolicy): ActiveHeader
    requires e.head.txid + 1 < U64_LIMIT && e.head.logicalSize < U64_LIMIT
  {
    ActiveHeader(e.header.attachment, e.header.database, e.head.pageSize, e.head.txid + 1, history, parent,
                 e.head.logicalSize, policy, layout, e.header.sourceBytes, e.header.sourceDigest)
  }

  function InitialState(e: Engine, history: Digest): ActiveState
    requires e.head.logicalSize < U64_LIMIT
  {
    ActiveState(e.header.database, 1, e.head.txid, e.head.logicalSize, e.head.pageSize, history, 0, 0, 0, None)
  }

  /** `create_active` and `adopt_active`: an empty file whose base holds everything. */
  function CreateActive(p: Primitives, e: Engine, base: Base, parent: Digest, history: Digest, policy: StoragePolicy,
                        layout: LayoutPolicy): Engine
    requires e.head.txid + 1 < U64_LIMIT && e.head.logicalSize < U64_LIMIT
  {
    var h := NextHeader(e, parent, history, policy, layout);
    Engine(h, FreshFile(p, h, InitialState(e, history), []), 1, map[], None, base,
           HeadState(e.head.pageSize, e.head.logicalSize, e.head.txid, history, 0, 0, 0, 0), {}, map[],
           e.head.logicalSize, None, false)
  }

  /** The base ends exactly where the head is. */
  ghost predicate Continues(p: Primitives, e: Engine, base: Base, parent: Digest, history: Digest) {
    && e.header.sourceBytes == 0
    && BaseOk(e.(base := base))
    && match base
       case Genesis =>
         && parent == ZeroDigest() && e.head.txid == 0 && e.head.logicalSize == 0 && history == GenesisHistory(p)
       case SealedBase(v) =>
         && parent == v.id && v.id != ZeroDigest() && v.database == e.header.database && v.txid == e.head.txid
         && history == v.history && v.size == e.head.logicalSize && v.pageSize == e.head.pageSize && e.head.txid >= 1
       case SourceBase(_) => false
  }

  lemma HeadFacts(p: Primitives, e: Engine)
    requires Wf(p, e) && Rooted(p, e)
    ensures ValidPageSize(e.Ps()) && e.head.logicalSize % e.Ps() == 0 && e.head.logicalSize < U64_LIMIT
    ensures e.head.logicalSize <= (MAX_PAGE + 1) * e.Ps()
    ensures e.header.sourceBytes == 0 <==> e.header.sourceDigest == ZeroDigest()
    ensures e.header.pageSize == e.head.pageSize && e.header.startTxid >= 1
    ensures ValidPolicy(e.header.policy) && ValidLayout(e.header.layout)
  {
    hide RecordsOk, PendingOk, StateImage, HeaderImage, ValidPolicy, ValidLayout, ParsePageSize;
  }

  lemma CreateActiveWf(p: Primitives, e: Engine, base: Base, parent: Digest, history: Digest, policy: StoragePolicy,
                       layout: LayoutPolicy)
    requires Wf(p, e) && Rooted(p, e) && Continues(p, e, base, parent, history)
    requires e.head.txid + 1 < U64_LIMIT && e.head.logicalSize < U64_LIMIT
    ensures var e' := CreateActive(p, e, base, parent, history, policy, layout); Wf(p, e') && !e'.HasPending()
  {
    hide FreshFile, NextHeader, InitialState, Indexes, Rooted, Start;
    HeadFacts(p, e);
    EmptyIndexes(p, [], e.Ps());
    var e' := CreateActive(p, e, base, parent, history, policy, layout);
    assert e'.file.recs == [] by { FreshFileRecs(p, e'.header, InitialState(e, history), []); }
  }

  lemma FreshFileRecs(p: Primitives, h: ActiveHeader, s: ActiveState, recs: seq<Rec>)
    ensures FreshFile(p, h, s, recs).recs == recs
    ensures FreshFile(p, h, s, recs).header == HeaderImage(p, h)
    ensures Slot(FreshFile(p, h, s, recs), 1) == StateImage(p, s)
    ensures Slot(FreshFile(p, h, s, recs), 2) == Zeros(SECTOR)
  {
  }

  lemma CreateActiveHeader(p: Primitives, e: Engine, base: Base, parent: Digest, history: Digest, policy: StoragePolicy,
                           layout: LayoutPolicy)
    requires Wf(p, e) && Rooted(p, e) && Continues(p, e, base, parent, history) && ValidPolicy(policy) && ValidLayout(layout)
    requires e.head.txid + 1 < U64_LIMIT && e.head.logicalSize < U64_LIMIT
    ensures HeaderOk(p, CreateActive(p, e, base, parent, history, policy, layout))
  {
    hide FreshFile, Wf, Rooted, ValidPolicy, ValidLayout, HeaderImage, InitialState, BaseOk;
    HeadFacts(p, e);
    var e' := CreateActive(p, e, base, parent, history, policy, layout);
    FreshFileRecs(p, e'.header, InitialState(e, history), []);
  }

  lemma CreateActiveSlots(p: Primitives, e: Engine, base: Base, parent: Digest, history: Digest, policy: StoragePolicy,
                          layout: LayoutPolicy)
    requires Wf(p, e) && Rooted(p, e)
    requires e.head.txid + 1 < U64_LIMIT && e.head.logicalSize < U64_LIMIT
    ensures SlotsOk(p, CreateActive(p, e, base, parent, history, policy, layout))
  {
    hide FreshFile, Wf, Rooted, StateImage, NextHeader, Slot;
    HeadFacts(p, e);
    var e' := CreateActive(p, e, base, parent, history, policy, layout);
    FreshFileRecs(p, e'.header, InitialState(e, history), []);
    assert e'.header.database == e.header.database by { NextHeaderDatabase(e, parent, history, policy, layout); }
    assert CurrentState(e') == InitialState(e, history);
  }

  lemma NextHeaderDatabase(e: Engine, parent: Digest, history: Digest, policy: StoragePolicy, layout: LayoutPolicy)
    requires e.head.txid + 1 < U64_LIMIT && e.head.logicalSize < U64_LIMIT
    ensures NextHeader(e, parent, history, policy, layout).database == e.header.database
  {
  }

  lemma CreateActiveOk(p: Primitives, e: Engine, base: Base, parent: Digest, history: Digest, policy: StoragePolicy,
                       layout: LayoutPolicy)
    requires Wf(p, e) && Rooted(p, e) && Continues(p, e, base, parent, history) && ValidPolicy(policy) && ValidLayout(layout)
    requires e.head.txid + 1 < U64_LIMIT && e.head.logicalSize < U64_LIMIT
    ensures var e' := CreateActive(p, e, base, parent, history, policy, layout);
      Wf(p, e') && Rooted(p, e') && !e'.HasPending()
  {
    hide Wf, HeaderOk, SlotsOk, CreateActive, Continues, ValidPolicy, ValidLayout;
    CreateActiveWf(p, e, base, parent, history, policy, layout);
    CreateActiveHeader(p, e, base, parent, history, policy, layout);
    CreateActiveSlots(p, e, base, parent, history, policy, layout);
  }

  /** The new file goes on where the old one was: the same database and transaction, this parent, these policies, and
      nothing left to seal. The header read back from disk says so. */
  ghost predicate GoesOn(p: Primitives, e: Engine, e': Engine, parent: Digest, history: Digest, policy: StoragePolicy,
                         layout: LayoutPolicy) {
    && DecodeHeader(p, e'.file.header) == Ok(e'.header)
    && e'.header.database == e.header.database && e'.header.attachment == e.header.attachment
    && e'.header.pageSize == e.header.pageSize && e'.head.pageSize == e.head.pageSize
    && e'.header.policy == policy && e'.header.layout == layout
    && e'.header.parent == parent && e'.header.baseHistory == history && e'.head.history == history
    && e'.header.baseSize == e.head.logicalSize == e'.head.logicalSize
    && e'.header.startTxid == e.head.txid + 1 && e'.head.txid == e.head.txid && e'.head.oldest == 0 == e'.head.last
  }

  lemma CreateActiveGoesOn(p: Primitives, e: Engine, base: Base, parent: Digest, history: Digest, policy: StoragePolicy,
                           layout: LayoutPolicy)
    requires e.head.txid + 1 < U64_LIMIT && e.head.logicalSize < U64_LIMIT && e.header.pageSize == e.head.pageSize
    requires HeaderOk(p, CreateActive(p, e, base, parent, history, policy, layout))
    ensures GoesOn(p, e, CreateActive(p, e, base, parent, history, policy, layout), parent, history, policy, layout)
  {
    hide HeaderOk, FreshFile, DecodeHeader;
    HeaderDecodes(p, CreateActive(p, e, base, parent, history, policy, layout));
  }

  // Sealing

  /** The pages of the new view: what survives of the parent, overridden by the active records; pages whose
      record is all zero are left out. */
  function SealedPages(e: Engine): map<nat, Bytes>
    requires forall n | n in e.records :: e.records[n] < |e.file.recs|
    requires e.Ps() > 0
  {
    var count := e.head.logicalSize / e.Ps();
    var parent := if e.base.SealedBase? then e.base.view.pages else map[];
    (map n | n in parent && n <= count && !Above(e.truncate, n) && n !in e.records :: parent[n])
    + (map n | n in e.records && n <= count && e.file.recs[e.records[n]].body != Zeros(e.Ps()) :: e.file.recs[e.records[n]].body)
  }

  function SealedView(e: Engine, id: Digest, history: Digest): View
    requires forall n | n in e.records :: e.records[n] < |e.file.recs|
    requires e.Ps() > 0
  {
    View(id, e.header.database, e.head.logicalSize, e.head.pageSize, e.head.txid, history, SealedPages(e))
  }

  /** A seal of committed, unsealed work. */
  function Seal(p: Primitives, e: Engine, id: Digest, history: Digest): Engine
    requires forall n | n in e.records :: e.records[n] < |e.file.recs|
    requires e.Ps() > 0 && e.head.txid + 1 < U64_LIMIT && e.head.logicalSize < U64_LIMIT
  {
    CreateActive(p, e, SealedBase(SealedView(e, id, history)), id, history, e.header.policy, e.header.layout)
  }

  lemma InsideCount(ps: nat, size: nat, n: nat)
    requires ps > 0 && size % ps == 0 && n >= 1
    ensures n <= size / ps <==> Start(ps, n) < size
  {
    Locate(ps, size);
    var m := size / ps + 1;
    if n < m {
      StartOrder(ps, n, m);
    } else if m < n {
      StartOrder(ps, m, n);
    }
  }

  /** A page of the view is the page of the engine it was sealed from. */
  lemma SealedPageReads(p: Primitives, e: Engine, u: Bytes, id: Digest, history: Digest, n: nat)
    requires Wf(p, e) && Rooted(p, e) && !e.HasPending() && !e.base.SourceBase? && Shows(e, u) && n >= 1
    requires forall k | k in e.records :: e.records[k] < |e.file.recs|
    ensures ValidPageSize(e.Ps())
    ensures BasePage(SealedBase(SealedView(e, id, history)), e.Ps(), n) == ReadPage(e, n)
  {
    hide RecordsOk, PendingOk, Rooted, PageOf, Start;
    HeadFacts(p, e);
    InsideCount(e.Ps(), e.head.logicalSize, n);
    assert ReadPage(e, n) == PageOf(u, e.Ps(), n);
    if e.head.logicalSize <= Start(e.Ps(), n) {
      PageOfZero(u, e.Ps(), n);
    }
  }

  lemma SealContinues(p: Primitives, e: Engine, id: Digest, history: Digest)
    requires Wf(p, e) && Rooted(p, e) && !e.base.SourceBase? && id != ZeroDigest() && e.head.txid >= e.header.startTxid
    requires forall k | k in e.records :: e.records[k] < |e.file.recs|
    ensures ValidPageSize(e.Ps())
    ensures Continues(p, e, SealedBase(SealedView(e, id, history)), id, history)
  {
    hide Indexes, PendingOk, SlotsOk, ValidHeader, HeaderImage, ParsePageSize;
    HeadFacts(p, e);
    var pages := SealedPages(e);
    forall n | n in pages
      ensures n >= 1 && Start(e.Ps(), n) < e.head.logicalSize && |pages[n]| == e.Ps()
    {
      InsideCount(e.Ps(), e.head.logicalSize, n);
    }
  }

  /** A fresh active file shows its base and nothing else. */
  lemma CreateActiveReads(p: Primitives, e: Engine, base: Base, parent: Digest, history: Digest, policy: StoragePolicy,
                          layout: LayoutPolicy, n: nat)
    requires e.head.txid + 1 < U64_LIMIT && e.head.logicalSize < U64_LIMIT && n >= 1
    ensures var e' := CreateActive(p, e, base, parent, history, policy, layout);
      ReadPage(e', n) == BasePage(base, e.Ps(), n) && CommittedPage(e', n) == BasePage(base, e.Ps(), n)
  {
    hide FreshFile, NextHeader, BasePage;
  }

  /** Sealing leaves every logical byte unchanged, zero overrides and truncation included, and the new file
      opens again, over the seal and under the same policies. */
  lemma SealPreserves(p: Primitives, e: Engine, u: Bytes, id: Digest, history: Digest)
    requires Wf(p, e) && Rooted(p, e) && !e.HasPending() && Shows(e, u) && !e.base.SourceBase?
    requires id != ZeroDigest() && e.header.startTxid <= e.head.txid && e.head.txid + 1 < U64_LIMIT
    ensures ValidPageSize(e.Ps()) && e.head.logicalSize < U64_LIMIT
    ensures forall k | k in e.records :: e.records[k] < |e.file.recs|
    ensures var e' := Seal(p, e, id, history);
      && Wf(p, e') && Rooted(p, e') && !e'.HasPending() && Shows(e', u) && ShowsCommitted(e', u)
      && GoesOn(p, e, e', id, history, e.header.policy, e.header.layout) && e'.base.SealedBase?
  {
    InRangeAll(p, e);
    hide GoesOn, Wf, Rooted, ReadPage, CommittedPage, BasePage, PageOf, Continues, CreateActive, SealedView, ValidPolicy, ValidLayout;
    HeadFacts(p, e);
    var base := SealedBase(SealedView(e, id, history));
    SealContinues(p, e, id, history);
    CreateActiveOk(p, e, base, id, history, e.header.policy, e.header.layout);
    var e' := Seal(p, e, id, history);
    CreateActiveSize(p, e, base, id, history, e.header.policy, e.header.layout);
    RootedHeader(p, e');
    CreateActiveGoesOn(p, e, base, id, history, e.header.policy, e.header.layout);
    NothingPending(p, e);
    forall n | n >= 1
      ensures ReadPage(e', n) == PageOf(u, e.Ps(), n) && CommittedPage(e', n) == PageOf(u, e.Ps(), n)
    {
      CreateActiveReads(p, e, base, id, history, e.header.policy, e.header.layout, n);
      SealedPageReads(p, e, u, id, history, n);
      assert ReadPage(e, n) == PageOf(u, e.Ps(), n);
    }
  }

  lemma RootedHeader(p: Primitives, e: Engine)
    requires Rooted(p, e)
    ensures HeaderOk(p, e)
  {
  }

  lemma InRangeAll(p: Primitives, e: Engine)
    requires Wf(p, e)
    ensures forall k | k in e.records :: e.records[k] < |e.file.recs|
  {
  }

  lemma CreateActiveSize(p: Primitives, e: Engine, base: Base, parent: Digest, history: Digest, policy: StoragePolicy,
                         layout: LayoutPolicy)
    requires e.head.txid + 1 < U64_LIMIT && e.head.logicalSize < U64_LIMIT
    ensures var e' := CreateActive(p, e, base, parent, history, policy, layout);
      && e'.size == e.head.logicalSize && e'.head.logicalSize == e.head.logicalSize && e'.Ps() == e.Ps()
      && e'.header.database == e.header.database && e'.base == base
  {
    hide FreshFile;
  }

  // Changing the policy

  /** `install_active`: an empty file takes the place of the one with nothing unsealed in it; the bookkeeping of an open
      transaction is left as it is. */
  function Repolicied(p: Primitives, e: Engine, policy: StoragePolicy, layout: LayoutPolicy): Engine
    requires e.head.txid + 1 < U64_LIMIT && e.head.logicalSize < U64_LIMIT
  {
    CreateActive(p, e, e.base, e.header.parent, e.head.history, policy, layout)
      .(rawPages := e.rawPages, originals := e.originals, size := e.size, cut := e.cut, dirty := e.dirty)
  }

  /** Without an open transaction a policy change keeps every byte, and the new policies are the ones on disk. */
  lemma PolicyPreserves(p: Primitives, e: Engine, u: Bytes, policy: StoragePolicy, layout: LayoutPolicy)
    requires Wf(p, e) && Rooted(p, e) && !e.HasPending() && Shows(e, u) && !e.base.SourceBase?
    requires ValidPolicy(policy) && ValidLayout(layout) && e.head.txid < e.header.startTxid && e.head.txid + 1 < U64_LIMIT
    ensures e.head.logicalSize < U64_LIMIT
    ensures var e' := Repolicied(p, e, policy, layout);
      && Wf(p, e') && Rooted(p, e') && !e'.HasPending() && Shows(e', u) && ShowsCommitted(e', u)
      && GoesOn(p, e, e', e.header.parent, e.head.history, policy, layout) && e'.base == e.base
  {
    hide Wf, Rooted, ReadPage, CommittedPage, BasePage, PageOf, Continues, CreateActive, ValidPolicy, ValidLayout, GoesOn;
    HeadFacts(p, e);
    UnchangedContinues(p, e);
    CreateActiveOk(p, e, e.base, e.header.parent, e.head.history, policy, layout);
    CreateActiveSize(p, e, e.base, e.header.parent, e.head.history, policy, layout);
    NothingPending(p, e);
    CleanRepolicied(p, e, policy, layout);
    var e' := Repolicied(p, e, policy, layout);
    RootedHeader(p, e');
    CreateActiveGoesOn(p, e, e.base, e.header.parent, e.head.history, policy, layout);
    forall n | n >= 1
      ensures ReadPage(e', n) == PageOf(u, e.Ps(), n) && CommittedPage(e', n) == PageOf(u, e.Ps(), n)
    {
      CreateActiveReads(p, e, e.base, e.header.parent, e.head.history, policy, layout, n);
      UnchangedReads(p, e, n);
      assert ReadPage(e, n) == PageOf(u, e.Ps(), n);
    }
  }

  lemma CleanRepolicied(p: Primitives, e: Engine, policy: StoragePolicy, layout: LayoutPolicy)
    requires e.head.txid + 1 < U64_LIMIT && e.head.logicalSize < U64_LIMIT
    requires !e.HasPending() && e.size == e.head.logicalSize && e.cut.None?
    ensures Repolicied(p, e, policy, layout) == CreateActive(p, e, e.base, e.header.parent, e.head.history, policy, layout)
  {
    hide FreshFile, NextHeader;
  }

  /** Over an open transaction it keeps the working bytes if and only if every page the transaction wrote reads as the
      page of the base: the records are gone, and only the bookkeeping is left. */
  lemma PolicyShowsIff(p: Primitives, e: Engine, u: Bytes, policy: StoragePolicy, layout: LayoutPolicy)
    requires Wf(p, e) && Rooted(p, e) && Shows(e, u) && !e.base.SourceBase?
    requires e.head.txid < e.header.startTxid && e.head.txid + 1 < U64_LIMIT
    ensures e.head.logicalSize < U64_LIMIT
    ensures Shows(Repolicied(p, e, policy, layout), u) <==>
      forall n | n in e.records :: n >= 1 && ReadPage(e, n) == BasePage(e.base, e.Ps(), n)
  {
    hide Wf, Rooted, ReadPage, BasePage, PageOf, Repolicied;
    HeadFacts(p, e);
    var e' := Repolicied(p, e, policy, layout);
    RepoliciedSize(p, e, policy, layout);
    forall n | n >= 1
      ensures ReadPage(e, n) == PageOf(u, e.Ps(), n)
      ensures if n in e.records then ReadPage(e', n) == BasePage(e.base, e.Ps(), n) else ReadPage(e', n) == ReadPage(e, n)
    {
      RepoliciedReads(p, e, policy, layout, n);
      assert ReadPage(e, n) == PageOf(u, e.Ps(), n);
    }
    forall n | n in e.records
      ensures n >= 1
    {
      WfRecords(p, e);
      RecordInRange(p, e, n);
    }
  }

  lemma RepoliciedSize(p: Primitives, e: Engine, policy: StoragePolicy, layout: LayoutPolicy)
    requires e.head.txid + 1 < U64_LIMIT && e.head.logicalSize < U64_LIMIT
    ensures var e' := Repolicied(p, e, policy, layout);
      && e'.size == e.size && e'.head.logicalSize == e.head.logicalSize && e'.Ps() == e.Ps()
      && e'.HasPending() == e.HasPending()
  {
    hide FreshFile, NextHeader;
  }

  lemma RepoliciedReads(p: Primitives, e: Engine, policy: StoragePolicy, layout: LayoutPolicy, n: nat)
    requires Wf(p, e) && Rooted(p, e) && e.head.txid < e.header.startTxid && e.head.txid + 1 < U64_LIMIT && n >= 1
    requires e.head.logicalSize < U64_LIMIT
    ensures var e' := Repolicied(p, e, policy, layout);
      if n in e.records then ReadPage(e', n) == BasePage(e.base, e.Ps(), n) else ReadPage(e', n) == ReadPage(e, n)
  {
    hide Indexes, SlotsOk, HeaderImage, ValidHeader, ParsePageSize, BasePage, FreshFile, NextHeader;
  }

  /** So a page written in the open transaction is forgotten while the transaction stays open. */
  lemma PolicyForgetsWrite(p: Primitives, e: Engine, n: nat, page: Bytes, policy: StoragePolicy, layout: LayoutPolicy)
    requires Wf(p, e) && Rooted(p, e) && !e.HasPending() && e.head.txid < e.header.startTxid && e.head.txid + 1 < U64_LIMIT
    requires 1 <= n <= MAX_PAGE && |page| == e.Ps() && page != ReadPage(e, n)
    ensures e.head.logicalSize < U64_LIMIT
    ensures var w := WritePage(p, e, n, page);
      && w.head == e.head
      && var e' := Repolicied(p, w, policy, layout);
      ReadPage(w, n) == page && ReadPage(e', n) == ReadPage(e, n) && e'.HasPending()
  {
    hide Wf, Rooted, ReadPage, BasePage, Repolicied, FrameImage;
    HeadFacts(p, e);
    var w := WritePage(p, e, n, page);
    WritePageWf(p, e, n, page);
    WritePageReads(p, e, n, page, n);
    UnchangedReads(p, e, n);
    RootedDepends(p, e, w);
    RepoliciedReads(p, w, policy, layout, n);
    RepoliciedSize(p, w, policy, layout);
  }

  lemma UnchangedContinues(p: Primitives, e: Engine)
    requires Wf(p, e) && Rooted(p, e) && !e.base.SourceBase? && e.head.txid < e.header.startTxid
    ensures Continues(p, e, e.base, e.header.parent, e.head.history)
  {
    hide RecordsOk, PendingOk, SlotsOk, HeaderImage, ValidPolicy, ValidLayout;
  }

  lemma UnchangedReads(p: Primitives, e: Engine, n: nat)
    requires Wf(p, e) && Rooted(p, e) && !e.HasPending() && e.head.txid < e.header.startTxid && n >= 1
    ensures ReadPage(e, n) == BasePage(e.base, e.Ps(), n)
  {
    NothingPending(p, e);
    RecordInRange(p, e, n);
    hide RecordsOk, PendingOk, SlotsOk, HeaderImage, ValidHeader, ParsePageSize, BasePage;
  }

  // Attaching the sealed copy of an adopted native file

  /** Source conversion seals every page of the native file under transaction 1. */
  function SourcePages(s: Bytes, ps: nat): map<nat, Bytes>
    requires ps > 0
  {
    map n: nat | 1 <= n <= |s| / ps && PageOf(s, ps, n) != Zeros(ps) :: PageOf(s, ps, n)
  }

  function SourceView(e: Engine, id: Digest, history: Digest): View
    requires e.base.SourceBase? && e.Ps() > 0
  {
    View(id, e.header.database, |e.base.source|, e.head.pageSize, 1, history, SourcePages(e.base.source, e.Ps()))
  }

  function AttachedHeader(e: Engine, id: Digest, history: Digest, size: u64): ActiveHeader {
    e.header.(sourceBytes := 0, sourceDigest := ZeroDigest(), startTxid := 2, parent := id, baseSize := size, baseHistory := history)
  }

  function AttachedState(e: Engine, history: Digest): ActiveState
    requires Encodable(e) && |e.records| < U64_LIMIT
  {
    CurrentState(e).(sequence := 1, history := history, recordCount := |e.records|)
  }

  /** `install_source_base`: a new file over the sealed view, with every committed record copied. */
  function Attach(p: Primitives, e: Engine, id: Digest, history: Digest): Engine
    requires e.base.SourceBase? && e.Ps() > 0 && |e.base.source| < U64_LIMIT && Encodable(e) && |e.records| < U64_LIMIT
  {
    var h := AttachedHeader(e, id, history, |e.base.source|);
    e.(header := h, file := FreshFile(p, h, AttachedState(e, history), e.file.recs), sequence := 1,
       base := SealedBase(SourceView(e, id, history)),
       head := e.head.(history := history, commitOffset := if e.head.txid < 2 then 0 else StateOffset(1)))
  }

  /** Two engines whose transactions differ at most in their base. */
  ghost predicate SameTransaction(e: Engine, e': Engine) {
    && e'.file.recs == e.file.recs && e'.records == e.records && e'.truncate == e.truncate
    && e'.rawPages == e.rawPages && e'.originals == e.originals
    && e'.size == e.size && e'.cut == e.cut && e'.dirty == e.dirty
    && e'.head.pageSize == e.head.pageSize && e'.head.logicalSize == e.head.logicalSize
    && e'.head.commitEnd == e.head.commitEnd
  }

  lemma WfDepends(p: Primitives, e: Engine, e': Engine)
    requires Wf(p, e) && SameTransaction(e, e') && BaseOk(e')
    ensures Wf(p, e') && e'.HasPending() == e.HasPending()
  {
    hide Indexes, BaseOk;
  }

  lemma ReadsDepend(e: Engine, e': Engine, n: nat)
    requires SameTransaction(e, e') && n >= 1 && BasePage(e'.base, e.Ps(), n) == BasePage(e.base, e.Ps(), n)
    ensures ReadPage(e', n) == ReadPage(e, n) && CommittedPage(e', n) == CommittedPage(e, n)
  {
    hide BasePage;
  }

  lemma AttachFields(p: Primitives, e: Engine, id: Digest, history: Digest)
    requires e.base.SourceBase? && e.Ps() > 0 && |e.base.source| < U64_LIMIT && Encodable(e) && |e.records| < U64_LIMIT
    ensures var e' := Attach(p, e, id, history);
      && SameTransaction(e, e') && e'.base == SealedBase(SourceView(e, id, history))
  {
    hide SourceView, AttachedState, AttachedHeader;
  }

  lemma SourcePagesInside(s: Bytes, ps: nat, n: nat)
    requires ps > 0 && |s| % ps == 0 && n in SourcePages(s, ps)
    ensures Start(ps, n) < |s| && |SourcePages(s, ps)[n]| == ps
  {
    InsideCount(ps, |s|, n);
  }

  lemma AttachWf(p: Primitives, e: Engine, id: Digest, history: Digest)
    requires Wf(p, e) && Rooted(p, e) && e.base.SourceBase? && |e.base.source| < U64_LIMIT && Encodable(e) && |e.records| < U64_LIMIT
    ensures ValidPageSize(e.Ps())
    ensures Wf(p, Attach(p, e, id, history)) && Attach(p, e, id, history).HasPending() == e.HasPending()
  {
    hide Rooted, Wf, Attach, PageOf, SourcePages;
    SourceAligned(p, e);
    var e' := Attach(p, e, id, history);
    AttachFields(p, e, id, history);
    forall n | n in SourcePages(e.base.source, e.Ps())
      ensures n >= 1 && Start(e.Ps(), n) < |e.base.source| && |SourcePages(e.base.source, e.Ps())[n]| == e.Ps()
    {
      SourcePagesInside(e.base.source, e.Ps(), n);
    }
    WfDepends(p, e, e');
  }

  lemma SourceAligned(p: Primitives, e: Engine)
    requires Wf(p, e) && Rooted(p, e) && e.base.SourceBase?
    ensures ValidPageSize(e.Ps()) && |e.base.source| % e.Ps() == 0 && |e.base.source| > 0
  {
    hide RecordsOk, PendingOk, SlotsOk, HeaderImage, ParsePageSize;
  }

  /** What the header of an adopted file promises. */
  lemma SourceHeader(p: Primitives, e: Engine)
    requires HeaderOk(p, e) && e.base.SourceBase?
    ensures ValidPolicy(e.header.policy) && ValidLayout(e.header.layout) && ValidPageSize(e.header.pageSize)
    ensures e.header.pageSize == e.head.pageSize && |e.base.source| % e.Ps() == 0 && 1 <= e.head.txid
    ensures e.head.txid == 1 ==> e.head.logicalSize == |e.base.source| && e.head.commitEnd == 0 && e.truncate.None?
    ensures e.head.oldest == 0 ==> e.head.last == 0
  {
    hide ValidPolicy, ValidLayout, HeaderImage, ParsePageSize;
  }

  lemma AttachedHeaderValid(p: Primitives, e: Engine, id: Digest, history: Digest, size: u64)
    requires ValidPolicy(e.header.policy) && ValidLayout(e.header.layout) && ValidPageSize(e.header.pageSize)
    requires size % e.header.pageSize == 0 && id != ZeroDigest()
    ensures ValidHeader(p, AttachedHeader(e, id, history, size))
  {
    hide ValidPolicy, ValidLayout;
  }

  lemma AttachHeader(p: Primitives, e: Engine, id: Digest, history: Digest)
    requires HeaderOk(p, e) && e.base.SourceBase? && id != ZeroDigest()
    requires |e.base.source| < U64_LIMIT && Encodable(e) && |e.records| < U64_LIMIT
    ensures e.Ps() > 0
    ensures HeaderOk(p, Attach(p, e, id, history))
  {
    hide HeaderOk, Attach, HeaderImage, ValidHeader, Encodable, ValidPolicy, ValidLayout, StateImage, Slot, AttachedState;
    SourceHeader(p, e);
    AttachFile(p, e, id, history);
    AttachedHeaderValid(p, e, id, history, |e.base.source|);
    AttachHeaderFields(p, e, id, history);
    HeaderOkOver(p, Attach(p, e, id, history));
  }

  lemma HeaderOkOver(p: Primitives, e: Engine)
    requires e.base.SealedBase? && ValidHeader(p, e.header) && e.header.pageSize == e.head.pageSize
    requires e.file.header == HeaderImage(p, e.header) && e.head.history == e.header.baseHistory
    requires e.header.startTxid <= e.head.txid + 1 && e.header.parent == e.base.view.id != ZeroDigest()
    requires e.header.sourceBytes == 0 && e.base.view.database == e.header.database
    requires e.header.startTxid == e.base.view.txid + 1 && e.header.baseHistory == e.base.view.history
    requires e.header.baseSize == e.base.view.size && e.base.view.pageSize == e.header.pageSize
    requires e.head.txid + 1 == e.header.startTxid ==>
      e.head.logicalSize == e.header.baseSize && e.head.commitEnd == 0 && e.truncate.None?
    requires e.head.commitOffset == if e.head.txid < e.header.startTxid then 0 else StateOffset(e.sequence)
    requires e.head.oldest == 0 ==> e.head.last == 0
    ensures HeaderOk(p, e)
  {
    hide ValidHeader, HeaderImage, ParsePageSize;
  }

  lemma AttachHeaderFields(p: Primitives, e: Engine, id: Digest, history: Digest)
    requires e.base.SourceBase? && e.Ps() > 0 && |e.base.source| < U64_LIMIT && Encodable(e) && |e.records| < U64_LIMIT
    ensures var e' := Attach(p, e, id, history);
      && e'.header == AttachedHeader(e, id, history, |e.base.source|) && e'.truncate == e.truncate
      && e'.base == SealedBase(SourceView(e, id, history))
      && e'.head == e.head.(history := history, commitOffset := if e.head.txid < 2 then 0 else StateOffset(1))
      && e'.sequence == 1
  {
    hide SourceView, AttachedState, AttachedHeader, FreshFile;
  }

  lemma AttachFile(p: Primitives, e: Engine, id: Digest, history: Digest)
    requires e.base.SourceBase? && e.Ps() > 0 && |e.base.source| < U64_LIMIT && Encodable(e) && |e.records| < U64_LIMIT
    ensures var e' := Attach(p, e, id, history);
      && e'.file.header == HeaderImage(p, e'.header) && e'.sequence == 1
      && Slot(e'.file, 1) == StateImage(p, AttachedState(e, history)) && Slot(e'.file, 2) == Zeros(SECTOR)
  {
    hide SourceView, AttachedState, AttachedHeader, StateImage, HeaderImage;
  }

  /** The record count written down is the number of records copied. */
  lemma AttachState(p: Primitives, e: Engine, id: Digest, history: Digest)
    requires e.base.SourceBase? && e.Ps() > 0 && |e.base.source| < U64_LIMIT && Encodable(e) && |e.records| < U64_LIMIT
    requires e.head.commitEnd == |e.records| && ValidState(CurrentState(e))
    ensures var e' := Attach(p, e, id, history);
      Encodable(e') && CurrentState(e') == AttachedState(e, history) && ValidState(CurrentState(e'))
  {
    hide SourceView, FreshFile;
  }

  lemma AttachSlots(p: Primitives, e: Engine, id: Digest, history: Digest)
    requires Wf(p, e) && Rooted(p, e) && !e.HasPending() && e.base.SourceBase?
    requires |e.base.source| < U64_LIMIT && Encodable(e) && |e.records| < U64_LIMIT
    ensures ValidPageSize(e.Ps())
    ensures SlotsOk(p, Attach(p, e, id, history))
  {
    hide Wf, HeaderOk, Attach, StateImage, Slot, SourceView, ValidState, CurrentState, AttachedState;
    SourceAligned(p, e);
    NothingPending(p, e);
    AttachFile(p, e, id, history);
    AttachState(p, e, id, history);
  }

  /** Every page of the native file is in the sealed copy, or is all zero. */
  lemma SourceViewReads(e: Engine, id: Digest, history: Digest, n: nat)
    requires e.base.SourceBase? && e.Ps() > 0 && |e.base.source| % e.Ps() == 0 && n >= 1
    ensures BasePage(SealedBase(SourceView(e, id, history)), e.Ps(), n) == BasePage(e.base, e.Ps(), n)
  {
    hide PageOf, Start;
    InsideCount(e.Ps(), |e.base.source|, n);
    if |e.base.source| <= Start(e.Ps(), n) {
      PageOfZero(e.base.source, e.Ps(), n);
    }
  }

  /** The header names the copy as its base and keeps everything else; so does the head. */
  predicate KeptByAttach(e: Engine, e': Engine, id: Digest, history: Digest)
    requires e.base.SourceBase?
  {
    && e'.header.database == e.header.database && e'.header.attachment == e.header.attachment
    && e'.header.pageSize == e.header.pageSize && e'.header.policy == e.header.policy && e'.header.layout == e.header.layout
    && e'.header.parent == id && e'.header.baseHistory == history && e'.header.baseSize == |e.base.source|
    && e'.header.startTxid == 2 && e'.header.sourceBytes == 0
    && e'.head.txid == e.head.txid && e'.head.oldest == e.head.oldest && e'.head.last == e.head.last
  }

  /** Swapping the native file for its sealed copy leaves every logical byte unchanged, and the new file
      opens again with the same records and boundary. */
  lemma AttachPreserves(p: Primitives, e: Engine, u: Bytes, id: Digest, history: Digest)
    requires Wf(p, e) && Rooted(p, e) && !e.HasPending() && Shows(e, u) && ShowsCommitted(e, u) && e.base.SourceBase?
    requires id != ZeroDigest() && |e.base.source| < U64_LIMIT
    ensures ValidPageSize(e.Ps()) && Encodable(e) && |e.records| < U64_LIMIT
    ensures var e' := Attach(p, e, id, history);
      && Wf(p, e') && Rooted(p, e') && !e'.HasPending() && Shows(e', u) && ShowsCommitted(e', u)
      && e'.records == e.records && e'.truncate == e.truncate && e'.base.SealedBase?
      && KeptByAttach(e, e', id, history)
      && LoadLocal(p, e'.file, e'.header, ViewOf(e'.base), None) == Ok(e')
  {
    hide Wf, HeaderOk, SlotsOk, ReadPage, CommittedPage, PageOf, LoadLocal, Attach, Encodable;
    SourceAligned(p, e);
    SlotsEncodable(p, e);
    WfPublishable(p, e);
    AttachHeaderFields(p, e, id, history);
    AttachWf(p, e, id, history);
    AttachHeader(p, e, id, history);
    AttachSlots(p, e, id, history);
    AttachFields(p, e, id, history);
    var e' := Attach(p, e, id, history);
    forall n | n >= 1
      ensures ReadPage(e', n) == ReadPage(e, n) && CommittedPage(e', n) == CommittedPage(e, n)
    {
      SourceViewReads(e, id, history, n);
      ReadsDepend(e, e', n);
    }
    ReopenRebuilds(p, e');
  }
}
