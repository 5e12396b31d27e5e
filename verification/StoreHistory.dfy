/** Whole runs of the store against a pair of byte vectors, as in the randomized state-machine comparison of
    src/store.rs. */
module StoreHistory {
  import opened Bytes
  import opened Layout
  import opened Format
  import opened Pages
  import opened Pagefile
  import opened Engine
  import opened Writes
  import opened Transactions
  import opened Publication
  import opened Sealing

  datatype Op =
    | Write(at: nat, data: Bytes)
    | SetSize(size: nat)
    | Commit(now: u64)
    | Rollback
    | Reopen
    | SealNow(id: Digest, history: Digest)
    | SetPolicy(id: Digest, history: Digest, policy: StoragePolicy, layout: LayoutPolicy)
    | AttachCopy(id: Digest, history: Digest)

  /** What the store must look like: the committed bytes, the bytes of the open transaction, and the policies in
      force. */
  datatype Vectors = Vectors(committed: Bytes, working: Bytes, policy: StoragePolicy, layout: LayoutPolicy)

  datatype Outcome = Outcome(engine: Engine, accepted: bool)

  datatype World = World(engine: Engine, ref: Vectors)

  // Listing recorded pages

  ghost function Listing(s: set<PageNum>): (ns: seq<PageNum>)
    ensures forall n: nat :: n in ns <==> n in s
    decreases |s|
  {
    if s == {} then [] else
      var n: PageNum :| n in s;
      var rest := Listing(s - {n});
      assert forall k: nat :: k in [n] + rest <==> k == n || k in rest;
      [n] + rest
  }

  ghost function PagesBeyond(records: Records, limit: nat): seq<PageNum> {
    Listing(set n: PageNum | n in records.Keys && n > limit)
  }

  lemma PagesBeyondLists(p: Primitives, e: Engine, limit: nat)
    requires RecordsOk(p, e)
    ensures ListsAbove(PagesBeyond(e.records, limit), e.records, limit)
  {
    hide Indexes;
  }

  // One operation

  function Kept(e: Engine, r: Result<Engine>): Outcome {
    if r.Ok? then Outcome(r.value, true) else Outcome(e, false)
  }

  ghost predicate Holds(p: Primitives, w: World) {
    && Wf(p, w.engine) && Rooted(p, w.engine)
    && Shows(w.engine, w.ref.working) && ShowsCommitted(w.engine, w.ref.committed)
    && w.engine.header.policy == w.ref.policy && w.engine.header.layout == w.ref.layout
  }

  /** What the byte-vector law needs of an operation: writes that keep every byte they should, sizes that can
      be encoded when publishing, and nonzero content ids. */
  ghost predicate Legal(e: Engine, op: Op) {
    match op
    case Write(at, d) => at + |d| <= MAX_PAGE * e.Ps() && SafeWrite(e, at, d)
    case Commit(_) => e.Ps() > 0 && e.size % e.Ps() == 0
    case SealNow(id, _) => id != ZeroDigest()
    case SetPolicy(id, _, policy, layout) => id != ZeroDigest() && ValidPolicy(policy) && ValidLayout(layout)
    case AttachCopy(id, _) => id != ZeroDigest()
    case _ => true
  }

  /** Committed work not yet sealed, of a size the sealed format can name. */
  predicate Sealable(e: Engine)
    requires e.Ps() > 0
  {
    && !e.HasPending() && !e.base.SourceBase? && e.header.startTxid <= e.head.txid && e.head.txid + 1 < U64_LIMIT
    && e.head.logicalSize / e.Ps() <= MAX_PAGE
  }

  predicate Resettable(e: Engine) {
    !e.HasPending() && !e.base.SourceBase? && e.head.txid < e.header.startTxid && e.head.txid + 1 < U64_LIMIT
  }

  /** The fixed widths and ranges every operation relies on. */
  ghost predicate Ready(e: Engine) {
    && ValidPageSize(e.Ps()) && Publishable(e) && Encodable(e)
    && e.head.commitEnd <= |e.file.recs|
    && (forall n | n in e.records :: e.records[n] < |e.file.recs|)
    && (e.base.SourceBase? ==> |e.base.source| < U64_LIMIT)
  }

  lemma StepDefined(p: Primitives, w: World)
    requires Holds(p, w)
    ensures Ready(w.engine)
  {
    hide Wf, Rooted, Publishable, Encodable, Shows, ShowsCommitted;
    WfPageSize(p, w.engine);
    WfPublishable(p, w.engine);
    InRangeAll(p, w.engine);
    RootedFacts(p, w.engine);
    WfRecords(p, w.engine);
    RecordInRange(p, w.engine, 1);
  }

  lemma RootedFacts(p: Primitives, e: Engine)
    requires Rooted(p, e)
    ensures Encodable(e)
    ensures e.base.SourceBase? ==> |e.base.source| < U64_LIMIT
    ensures DecodeHeader(p, e.file.header) == Ok(e.header)
  {
    hide DecodeHeader, HeaderImage, ValidHeader, ParsePageSize;
    HeaderDecodes(p, e);
    SlotsEncodable(p, e);
  }

  /** What the program does. Closing discards whatever is pending before the file is opened again. The policy is set
      through a handle of its own (`configure`), which cannot have the lock while a transaction is open, and which
      seals first. */
  ghost function Step(p: Primitives, e: Engine, op: Op): Outcome
    requires Ready(e) && Legal(e, op)
  {
    match op
    case Write(at, d) => Kept(e, WriteAt(p, e, at, d))
    case SetSize(size) => Kept(e, Truncate(p, e, size, PagesBeyond(e.records, size / e.Ps())))
    case Commit(now) => Kept(e, Publish(p, e, now))
    case Rollback => Outcome(Discard(p, e), true)
    case Reopen => Kept(Discard(p, e), LoadLocal(p, Discard(p, e).file, e.header, ViewOf(e.base), SourceOf(e.base)))
    case SealNow(id, history) => if Sealable(e) then Outcome(Seal(p, e, id, history), true) else Outcome(e, false)
    case SetPolicy(id, history, policy, layout) =>
      if Sealable(e) then Outcome(Repolicied(p, Seal(p, e, id, history), policy, layout), true)
      else if Resettable(e) then Outcome(Repolicied(p, e, policy, layout), true)
      else Outcome(e, false)
    case AttachCopy(id, history) =>
      if e.base.SourceBase? && !e.HasPending() then Outcome(Attach(p, e, id, history), true) else Outcome(e, false)
  }

  /** What it must mean. */
  function Follow(ref: Vectors, op: Op, accepted: bool): Vectors {
    if !accepted then ref
    else match op
      case Write(at, d) => if d == [] then ref else ref.(working := Patch(ref.working, at, d))
      case SetSize(size) => ref.(working := Pages.Resize(ref.working, size))
      case Commit(_) => ref.(committed := ref.working)
      case Rollback => ref.(working := ref.committed)
      case Reopen => ref.(working := ref.committed)
      case SetPolicy(_, _, policy, layout) => ref.(policy := policy, layout := layout)
      case _ => ref
  }

  ghost function After(p: Primitives, w: World, op: Op): World
    requires Holds(p, w) && Legal(w.engine, op)
  {
    StepDefined(p, w);
    var o := Step(p, w.engine, op);
    World(o.engine, Follow(w.ref, op, o.accepted))
  }

  // Writes and resizes leave the sectors alone

  lemma {:induction false} ChunksKeepSectors(p: Primitives, e: Engine, at: nat, d: Bytes)
    requires ValidPageSize(e.Ps()) && at + |d| <= MAX_PAGE * e.Ps()
    ensures SameSectors(e, WriteChunks(p, e, at, d))
    decreases |d|
  {
    hide NextPage, ReadPage, FrameImage;
    if d != [] {
      ChunkInRange(e.Ps(), at, d);
      var amount := Amount(e.Ps(), at, d);
      var e' := WritePage(p, e, at / e.Ps() + 1, NextPage(e, at, d));
      ChunksKeepSectors(p, e', at + amount, d[amount..]);
    }
  }

  lemma {:induction false} ZeroingKeepsSectors(p: Primitives, e: Engine, ns: seq<PageNum>)
    ensures SameSectors(e, ZeroPages(p, e, ns))
    decreases |ns|
  {
    hide ReadPage, FrameImage;
    if ns != [] {
      ZeroingKeepsSectors(p, WritePage(p, e, ns[0], Zeros(e.Ps())), ns[1..]);
    }
  }

  // Each operation keeps the correspondence

  lemma WriteFollows(p: Primitives, w: World, at: nat, d: Bytes)
    requires Holds(p, w) && Legal(w.engine, Write(at, d))
    ensures Holds(p, After(p, w, Write(at, d)))
  {
    hide Wf, Rooted, ReadPage, CommittedPage, SafeWrite, NextPage, Patch, WriteChunks;
    StepDefined(p, w);
    var e := w.engine;
    if d != [] && WriteAt(p, e, at, d).Ok? {
      WriteIsPatch(p, e, w.ref.working, at, d);
      ChunksKeepSectors(p, e, at, d);
      RootedDepends(p, e, WriteAt(p, e, at, d).value);
    }
  }

  lemma ResizeFollows(p: Primitives, w: World, size: nat)
    requires Holds(p, w) && Legal(w.engine, SetSize(size))
    ensures Holds(p, After(p, w, SetSize(size)))
  {
    hide Wf, Rooted, ReadPage, CommittedPage, ZeroPages, PagesBeyond, ListsAbove;
    StepDefined(p, w);
    var e := w.engine;
    var ns := PagesBeyond(e.records, size / e.Ps());
    WfRecords(p, e);
    PagesBeyondLists(p, e, size / e.Ps());
    if Truncate(p, e, size, ns).Ok? {
      TruncateIsResize(p, e, w.ref.working, size, ns);
      ZeroingKeepsSectors(p, e, ns);
      RootedDepends(p, e, Truncate(p, e, size, ns).value);
    }
  }

  /** With nothing pending the two vectors are one. */
  lemma CleanVectors(p: Primitives, w: World)
    requires Holds(p, w) && !w.engine.HasPending()
    ensures w.ref.working == w.ref.committed
  {
    hide Wf, Rooted, ReadPage, CommittedPage, PageOf;
    var e, ps := w.engine, w.engine.Ps();
    WfPageSize(p, e);
    NothingPending(p, e);
    forall n | n >= 1
      ensures PageOf(w.ref.working, ps, n) == PageOf(w.ref.committed, ps, n)
    {
      CleanReads(p, e, n);
      assert ReadPage(e, n) == PageOf(w.ref.working, ps, n);
      assert CommittedPage(e, n) == PageOf(w.ref.committed, ps, n);
    }
    PagesDetermine(w.ref.working, w.ref.committed, ps);
  }

  lemma CleanReads(p: Primitives, e: Engine, n: nat)
    requires Wf(p, e) && !e.HasPending() && n >= 1
    ensures ReadPage(e, n) == CommittedPage(e, n)
  {
    NothingPending(p, e);
    RecordInRange(p, e, n);
    hide Indexes, BasePage;
  }

  lemma PublishKeepsHeader(p: Primitives, e: Engine, now: u64)
    requires Publishable(e) && Publish(p, e, now).Ok?
    ensures Publish(p, e, now).value.header == e.header
  {
    hide StateImage, PublishedState;
  }

  lemma DiscardKeepsHeader(p: Primitives, e: Engine)
    requires e.head.commitEnd <= |e.file.recs|
    ensures Discard(p, e).header == e.header
  {
  }

  lemma CommitFollows(p: Primitives, w: World, now: u64)
    requires Holds(p, w) && Legal(w.engine, Commit(now))
    ensures Holds(p, After(p, w, Commit(now)))
  {
    hide Wf, Rooted, Shows, ShowsCommitted, LoadLocal, PublishedState, Advance, Encodable;
    StepDefined(p, w);
    var e := w.engine;
    if !e.HasPending() {
      CleanVectors(p, w);
    } else if Publish(p, e, now).Ok? {
      PublishCommits(p, e, w.ref.working, now);
      PublishKeepsHeader(p, e, now);
    }
  }

  /** Reopening is accepted and is no different from discarding. */
  lemma RollbackFollows(p: Primitives, w: World, op: Op)
    requires Holds(p, w) && Legal(w.engine, op) && (op == Rollback || op == Reopen)
    ensures w.engine.head.commitEnd <= |w.engine.file.recs|
    ensures Holds(p, After(p, w, op)) && After(p, w, op).engine == Discard(p, w.engine)
  {
    hide Wf, Rooted, Shows, ShowsCommitted, LoadLocal, Discard, Publishable, Encodable;
    StepDefined(p, w);
    DiscardRestores(p, w.engine, w.ref.committed);
    DiscardKeepsHeader(p, w.engine);
  }

  lemma BaseChangeFollows(p: Primitives, w: World, op: Op)
    requires Holds(p, w) && Legal(w.engine, op) && (op.SealNow? || op.SetPolicy? || op.AttachCopy?)
    ensures Holds(p, After(p, w, op))
  {
    hide Wf, Rooted, Shows, ShowsCommitted, Seal, CreateActive, Attach, ValidPolicy, ValidLayout, LoadLocal;
    StepDefined(p, w);
    var e := w.engine;
    if !e.HasPending() {
      CleanVectors(p, w);
      match op {
        case SealNow(id, history) =>
          if Sealable(e) {
            SealPreserves(p, e, w.ref.working, id, history);
          }
        case SetPolicy(id, history, policy, layout) =>
          if Sealable(e) {
            SealPreserves(p, e, w.ref.working, id, history);
            PolicyPreserves(p, Seal(p, e, id, history), w.ref.working, policy, layout);
          } else if Resettable(e) {
            PolicyPreserves(p, e, w.ref.working, policy, layout);
          }
        case AttachCopy(id, history) =>
          if e.base.SourceBase? {
            AttachPreserves(p, e, w.ref.working, id, history);
          }
        case _ =>
      }
    }
  }

  lemma StepFollows(p: Primitives, w: World, op: Op)
    requires Holds(p, w) && Legal(w.engine, op)
    ensures Holds(p, After(p, w, op))
  {
    hide Holds, Legal, After;
    match op {
      case Write(at, d) => WriteFollows(p, w, at, d);
      case SetSize(size) => ResizeFollows(p, w, size);
      case Commit(now) => CommitFollows(p, w, now);
      case Rollback => RollbackFollows(p, w, op);
      case Reopen => RollbackFollows(p, w, op);
      case _ => BaseChangeFollows(p, w, op);
    }
  }

  // What is accepted

  /** When an operation is accepted: a write unless page 1 would stop naming the page size, a resize to whole pages
      that can be numbered and that keeps page 1 if it has a record, a publication while its counters last, and each
      change of base where it applies. */
  ghost predicate Accepts(w: World, op: Op)
    requires w.engine.Ps() > 0
  {
    var e, ps := w.engine, w.engine.Ps();
    match op
    case Write(at, d) => d == [] || at >= ps || ParsePageSize(PageOf(Patch(w.ref.working, at, d), ps, 1)) == Some(ps)
    case SetSize(size) =>
      size % ps == 0 && size / ps <= MAX_PAGE + 1 && (size == 0 < |w.ref.working| ==> 1 !in e.records)
    case Commit(_) => e.HasPending() ==> e.head.txid + 1 < U64_LIMIT && e.sequence + 1 < U64_LIMIT
    case Rollback => true
    case Reopen => true
    case SealNow(_, _) =>
      && !e.HasPending() && !e.base.SourceBase? && e.header.startTxid <= e.head.txid < U64_LIMIT - 1
      && |w.ref.committed| / ps <= MAX_PAGE
    case SetPolicy(_, _, _, _) =>
      && !e.HasPending() && !e.base.SourceBase? && e.head.txid < U64_LIMIT - 1
      && (e.header.startTxid <= e.head.txid ==> |w.ref.committed| / ps <= MAX_PAGE)
    case AttachCopy(_, _) => e.base.SourceBase? && !e.HasPending()
  }

  lemma AcceptedIff(p: Primitives, w: World, op: Op)
    requires Holds(p, w) && Legal(w.engine, op)
    ensures Ready(w.engine) && w.engine.Ps() > 0
    ensures Step(p, w.engine, op).accepted <==> Accepts(w, op)
  {
    hide Wf, Rooted, ReadPage, CommittedPage, SafeWrite, WriteChunks, NextPage, Patch, ParsePageSize, PageOf, ZeroPages, PagesBeyond,
         Publishable, Encodable, LoadLocal, Discard, Seal, Repolicied, Attach, ValidPolicy, ValidLayout, ListsAbove;
    StepDefined(p, w);
    PageSizePositive(w.engine.Ps());
    match op {
      case Write(at, d) =>
        if d != [] && at < w.engine.Ps() {
          FirstPage(p, w, at, d);
        }
      case SetSize(size) => ShrinksPageOne(p, w.engine, size);
      case Reopen => DiscardRestores(p, w.engine, w.ref.committed);
      case _ =>
    }
  }

  /** What a safe write makes of page 1. */
  lemma FirstPage(p: Primitives, w: World, at: nat, d: Bytes)
    requires Holds(p, w) && Legal(w.engine, Write(at, d)) && d != [] && at < w.engine.Ps()
    ensures ValidPageSize(w.engine.Ps()) && at / w.engine.Ps() + 1 == 1
    ensures NextPage(w.engine, at, d) == PageOf(Patch(w.ref.working, at, d), w.engine.Ps(), 1)
  {
    hide Wf, Rooted, ReadPage, NextPage, Patch, PageOf, ValidPageSize;
    var e, ps, v := w.engine, w.engine.Ps(), w.ref.working;
    PageSizeOk(p, e);
    PageSizePositive(ps);
    SamePage(ps, at, 1, at);
    NextPageBytes(p, e, at, d, 0);
    forall j | 0 <= j < ps
      ensures NextPage(e, at, d)[j] == PageOf(Patch(v, at, d), ps, 1)[j]
    {
      NextPageBytes(p, e, at, d, j);
      PatchedByte(v, ps, at, d, 1, j);
      assert ReadPage(e, 1) == PageOf(v, ps, 1);
    }
  }

  lemma ShrinksPageOne(p: Primitives, e: Engine, size: nat)
    requires Wf(p, e)
    ensures e.Ps() > 0
    ensures 1 in PagesBeyond(e.records, size / e.Ps()) <==> 1 in e.records && size < e.Ps()
  {
    hide Wf, PagesBeyond, RecordsOk;
    PositiveSize(p, e);
    WfRecords(p, e);
    PagesBeyondLists(p, e, size / e.Ps());
    LessThanPage(e.Ps(), size);
  }

  lemma LessThanPage(ps: nat, size: nat)
    requires ps > 0
    ensures size / ps == 0 <==> size < ps
  {
    Locate(ps, size);
    if size / ps >= 1 {
      StartOrder(ps, 1, size / ps + 1);
    }
  }

  lemma PositiveSize(p: Primitives, e: Engine)
    requires Wf(p, e)
    ensures e.Ps() > 0
  {
  }

  // Runs

  ghost predicate LegalRun(p: Primitives, w: World, ops: seq<Op>)
    requires Holds(p, w)
    decreases |ops|
  {
    ops == [] || (Legal(w.engine, ops[0]) && (StepFollows(p, w, ops[0]); LegalRun(p, After(p, w, ops[0]), ops[1..])))
  }

  ghost function Run(p: Primitives, w: World, ops: seq<Op>): World
    requires Holds(p, w) && LegalRun(p, w, ops)
    decreases |ops|
  {
    if ops == [] then w else (StepFollows(p, w, ops[0]); Run(p, After(p, w, ops[0]), ops[1..]))
  }

  /** What no operation changes. */
  predicate SameDatabase(e: Engine, e': Engine) {
    && e'.header.database == e.header.database && e'.header.attachment == e.header.attachment
    && e'.header.pageSize == e.header.pageSize && e'.Ps() == e.Ps()
  }

  lemma StepSameDatabase(p: Primitives, w: World, op: Op)
    requires Holds(p, w) && Legal(w.engine, op)
    ensures SameDatabase(w.engine, After(p, w, op).engine)
  {
    hide Holds, SafeWrite, ValidPolicy, ValidLayout, WriteChunks, NextPage, ZeroPages, PagesBeyond, StateImage, PublishedState,
         LoadLocal, Seal, Repolicied, Attach;
    StepDefined(p, w);
    var e := w.engine;
    match op {
      case Write(at, d) => ChunksKeepSectors(p, e, at, d);
      case SetSize(size) => ZeroingKeepsSectors(p, e, PagesBeyond(e.records, size / e.Ps()));
      case Commit(_) =>
      case Rollback => RollbackFollows(p, w, op);
      case Reopen => RollbackFollows(p, w, op);
      case _ => BaseChangeFacts(p, w, op);
    }
  }

  /** What an accepted change of base leaves: nothing open, the file over the seal or the copy it was given, and nothing
      to seal but what an adopted file already held. */
  predicate Rebased(e: Engine, e': Engine, op: Op)
    requires op.SealNow? || op.SetPolicy? || op.AttachCopy?
  {
    && !e'.HasPending() && e'.head.txid == e.head.txid
    && match op
       case SealNow(id, history) =>
         e'.base.SealedBase? && e'.header.parent == id && e'.header.baseHistory == history && e'.header.startTxid == e.head.txid + 1
       case SetPolicy(id, _, _, _) =>
         && e'.header.startTxid == e.head.txid + 1
         && e'.header.parent == (if e.header.startTxid <= e.head.txid then id else e.header.parent)
       case AttachCopy(id, history) =>
         e'.base.SealedBase? && e'.header.parent == id && e'.header.baseHistory == history && e'.header.startTxid == 2
       case _ => true
  }

  lemma BaseChangeFacts(p: Primitives, w: World, op: Op)
    requires Holds(p, w) && Legal(w.engine, op) && (op.SealNow? || op.SetPolicy? || op.AttachCopy?)
    ensures Ready(w.engine)
    ensures SameDatabase(w.engine, After(p, w, op).engine)
    ensures Step(p, w.engine, op).accepted ==> Rebased(w.engine, After(p, w, op).engine, op)
  {
    hide Wf, Rooted, Shows, ShowsCommitted, Seal, Repolicied, Attach, ValidPolicy, ValidLayout, LoadLocal, DecodeHeader;
    StepDefined(p, w);
    var e := w.engine;
    if !e.HasPending() {
      CleanVectors(p, w);
      match op {
        case SealNow(id, history) =>
          if Sealable(e) {
            SealPreserves(p, e, w.ref.working, id, history);
          }
        case SetPolicy(id, history, policy, layout) =>
          if Sealable(e) {
            SealPreserves(p, e, w.ref.working, id, history);
            PolicyPreserves(p, Seal(p, e, id, history), w.ref.working, policy, layout);
          } else if Resettable(e) {
            PolicyPreserves(p, e, w.ref.working, policy, layout);
          }
        case AttachCopy(id, history) =>
          if e.base.SourceBase? {
            AttachPreserves(p, e, w.ref.working, id, history);
            AttachFields(p, e, id, history);
          }
        case _ =>
      }
    }
  }

  /** After any legal run every page reads as the page of the working vector, zero beyond its end; discarding
      gives the committed vector; the file opens again; its header on disk names the same database under the last
      accepted policies. */
  lemma {:induction false} StoreIsTwoVectors(p: Primitives, w: World, ops: seq<Op>)
    requires Holds(p, w) && LegalRun(p, w, ops)
    ensures Holds(p, Run(p, w, ops))
    ensures forall n | n >= 1 ::
      ReadPage(Run(p, w, ops).engine, n) == PageOf(Run(p, w, ops).ref.working, Run(p, w, ops).engine.Ps(), n)
    ensures var (t, h) := (Run(p, w, ops), DecodeHeader(p, Run(p, w, ops).engine.file.header));
      && h.Ok? && h.value.policy == t.ref.policy && h.value.layout == t.ref.layout
      && h.value == t.engine.header && SameDatabase(w.engine, t.engine)
    decreases |ops|
  {
    hide Wf, Rooted, ReadPage, CommittedPage, PageOf, Legal, After, ShowsCommitted, DecodeHeader;
    if ops == [] {
      RootedFacts(p, w.engine);
    } else {
      StepFollows(p, w, ops[0]);
      StepSameDatabase(p, w, ops[0]);
      StoreIsTwoVectors(p, After(p, w, ops[0]), ops[1..]);
    }
  }

  // Whole-page runs are always legal

  /** Whole-page writes and nonzero ids; nothing is asked of sizes, which the store itself keeps aligned. */
  predicate WholePages(ps: nat, op: Op)
    requires ps > 0
  {
    match op
    case Write(at, d) => at % ps == 0 && |d| % ps == 0 && at + |d| <= MAX_PAGE * ps
    case SealNow(id, _) => id != ZeroDigest()
    case SetPolicy(id, _, policy, layout) => id != ZeroDigest() && ValidPolicy(policy) && ValidLayout(layout)
    case AttachCopy(id, _) => id != ZeroDigest()
    case _ => true
  }

  ghost predicate Aligned(e: Engine) {
    e.Ps() > 0 && e.size % e.Ps() == 0 && e.head.logicalSize % e.Ps() == 0
  }

  lemma WholePagesLegal(p: Primitives, w: World, op: Op)
    requires Holds(p, w) && Aligned(w.engine) && WholePages(w.engine.Ps(), op)
    ensures Legal(w.engine, op)
  {
    hide Wf, Rooted, ReadPage, Shows, ShowsCommitted, SafeWrite, ValidPolicy, ValidLayout;
    if op.Write? {
      var ps, e := w.engine.Ps(), w.engine;
      AlignedSum(ps, op.at, |op.data|);
      WholeSize(ps, op.at);
      WholeSize(ps, op.at + |op.data|);
      var m, l := op.at / ps + 1, (op.at + |op.data|) / ps + 1;
      if l < m {
        StartOrder(ps, l, m);
      }
      WholePagesSafe(p, e, m, l, op.data);
    }
  }

  lemma WriteStaysAligned(p: Primitives, w: World, at: nat, d: Bytes)
    requires Holds(p, w) && Aligned(w.engine) && WholePages(w.engine.Ps(), Write(at, d)) && Legal(w.engine, Write(at, d))
    ensures var e' := After(p, w, Write(at, d)).engine; Aligned(e') && e'.Ps() == w.engine.Ps()
  {
    hide Wf, Rooted, Shows, ShowsCommitted, SafeWrite, NextPage, WriteChunks, Publishable, Encodable;
    StepDefined(p, w);
    AlignedSum(w.engine.Ps(), at, |d|);
    ChunksKeepSize(p, w.engine, at, d);
  }

  lemma ResizeStaysAligned(p: Primitives, w: World, size: nat)
    requires Holds(p, w) && Aligned(w.engine) && Legal(w.engine, SetSize(size))
    ensures var e' := After(p, w, SetSize(size)).engine; Aligned(e') && e'.Ps() == w.engine.Ps()
  {
    hide Wf, Rooted, Shows, ShowsCommitted, ZeroPages, PagesBeyond, Publishable, Encodable;
    StepDefined(p, w);
    ZeroingKeepsSize(p, w.engine, PagesBeyond(w.engine.records, size / w.engine.Ps()));
  }

  lemma StaysAligned(p: Primitives, w: World, op: Op)
    requires Holds(p, w) && Aligned(w.engine) && WholePages(w.engine.Ps(), op) && Legal(w.engine, op)
    ensures Aligned(After(p, w, op).engine) && After(p, w, op).engine.Ps() == w.engine.Ps()
  {
    match op {
      case Write(at, d) => WriteStaysAligned(p, w, at, d);
      case SetSize(size) => ResizeStaysAligned(p, w, size);
      case Commit(now) => CommitStaysAligned(p, w, now);
      case Rollback => RollbackStaysAligned(p, w, op);
      case Reopen => RollbackStaysAligned(p, w, op);
      case _ => BaseChangeStaysAligned(p, w, op);
    }
    hide Holds, Legal, After, Aligned, WholePages;
  }

  lemma CommitStaysAligned(p: Primitives, w: World, now: u64)
    requires Holds(p, w) && Aligned(w.engine) && Legal(w.engine, Commit(now))
    ensures var e' := After(p, w, Commit(now)).engine; Aligned(e') && e'.Ps() == w.engine.Ps()
  {
    hide Holds, PublishedState, WriteSlot;
    StepDefined(p, w);
  }

  lemma RollbackStaysAligned(p: Primitives, w: World, op: Op)
    requires Holds(p, w) && Aligned(w.engine) && Legal(w.engine, op) && (op == Rollback || op == Reopen)
    ensures var e' := After(p, w, op).engine; Aligned(e') && e'.Ps() == w.engine.Ps()
  {
    hide Holds, After;
    RollbackFollows(p, w, op);
  }

  lemma BaseChangeStaysAligned(p: Primitives, w: World, op: Op)
    requires Holds(p, w) && Aligned(w.engine) && Legal(w.engine, op) && (op.SealNow? || op.SetPolicy? || op.AttachCopy?)
    ensures var e' := After(p, w, op).engine; Aligned(e') && e'.Ps() == w.engine.Ps()
  {
    hide Holds, ValidPolicy, ValidLayout, Seal, Repolicied, Attach, SealedPages;
    StepDefined(p, w);
    CleanSize(p, w);
    var e := w.engine;
    match op {
      case SealNow(id, history) =>
        if Sealable(e) {
          SealSize(p, e, id, history);
        }
      case SetPolicy(id, history, policy, layout) =>
        if Sealable(e) {
          SealSize(p, e, id, history);
          RepoliciedSize(p, Seal(p, e, id, history), policy, layout);
        } else if Resettable(e) {
          RepoliciedSize(p, e, policy, layout);
        }
      case AttachCopy(id, history) =>
        if e.base.SourceBase? {
          AttachFields(p, e, id, history);
        }
      case _ =>
    }
  }

  lemma SealSize(p: Primitives, e: Engine, id: Digest, history: Digest)
    requires forall n | n in e.records :: e.records[n] < |e.file.recs|
    requires e.Ps() > 0 && e.head.txid + 1 < U64_LIMIT && e.head.logicalSize < U64_LIMIT
    ensures var e' := Seal(p, e, id, history);
      e'.size == e.head.logicalSize == e'.head.logicalSize && e'.head.txid == e.head.txid && e'.Ps() == e.Ps()
  {
    hide SealedView, FreshFile, NextHeader;
  }

  lemma CleanSize(p: Primitives, w: World)
    requires Holds(p, w)
    ensures !w.engine.HasPending() ==> w.engine.size == w.engine.head.logicalSize
  {
    hide RecordsOk, PendingOk, BaseOk, Rooted, Shows, ShowsCommitted;
  }

  lemma ChunksKeepSize(p: Primitives, e: Engine, at: nat, d: Bytes)
    requires Wf(p, e) && at + |d| <= MAX_PAGE * e.Ps()
    ensures ValidPageSize(e.Ps())
    ensures WriteChunks(p, e, at, d).size == e.size && WriteChunks(p, e, at, d).head == e.head
  {
    hide Wf, ReadPage, CommittedPage, WriteChunks;
    PageSizeOk(p, e);
    WriteChunksReads(p, e, at, d, 1, 0);
  }

  lemma {:induction false} ZeroingKeepsSize(p: Primitives, e: Engine, ns: seq<PageNum>)
    ensures ZeroPages(p, e, ns).size == e.size && ZeroPages(p, e, ns).head == e.head
    decreases |ns|
  {
    hide ReadPage, FrameImage;
    if ns != [] {
      ZeroingKeepsSize(p, WritePage(p, e, ns[0], Zeros(e.Ps())), ns[1..]);
    }
  }

  /** Every run of whole-page writes, resizes, publications, discards, reopenings, seals, policy changes and
      base swaps is legal, so all of them are the byte-vector runs. */
  lemma {:induction false} WholePageRunsAreLegal(p: Primitives, w: World, ops: seq<Op>)
    requires Holds(p, w) && Aligned(w.engine)
    requires forall i | 0 <= i < |ops| :: WholePages(w.engine.Ps(), ops[i])
    ensures LegalRun(p, w, ops)
    decreases |ops|
  {
    hide Holds, Legal, After, WholePages, Aligned;
    if ops != [] {
      assert w.engine.Ps() > 0 by { AlignedPositive(w.engine); }
      WholePagesLegal(p, w, ops[0]);
      StepFollows(p, w, ops[0]);
      StaysAligned(p, w, ops[0]);
      var w' := After(p, w, ops[0]);
      assert forall i | 0 <= i < |ops[1..]| :: ops[1..][i] == ops[i + 1];
      WholePageRunsAreLegal(p, w', ops[1..]);
    }
  }

  lemma AlignedPositive(e: Engine)
    requires Aligned(e)
    ensures e.Ps() > 0
  {
  }

  // Where runs start

  /** A new database once its page size is known. */
  function Created(p: Primitives, h: ActiveHeader): Engine {
    var s := ActiveState(h.database, 1, 0, 0, h.pageSize, h.baseHistory, 0, 0, 0, None);
    Engine(h, FreshFile(p, h, s, []), 1, map[], None, Genesis, HeadState(h.pageSize, 0, 0, h.baseHistory, 0, 0, 0, 0),
           {}, map[], 0, None, false)
  }

  /** An adopted native file: transaction 1 is the file itself (`initialize_source`). */
  function Adopted(p: Primitives, h: ActiveHeader, source: Bytes, commit: u64, first: u64): Engine
    requires |source| < U64_LIMIT
  {
    var s := ActiveState(h.database, 1, 1, |source|, h.pageSize, h.baseHistory, commit, first, 0, None);
    Engine(h, FreshFile(p, h, s, []), 1, map[], None, SourceBase(source),
           HeadState(h.pageSize, |source|, 1, h.baseHistory, StateOffset(1), 0, first, commit), {}, map[], |source|, None, false)
  }

  predicate FirstHeader(p: Primitives, h: ActiveHeader) {
    ValidHeader(p, h) && h.startTxid == 1 && h.baseSize == 0 && ValidPageSize(h.pageSize)
  }

  lemma CreatedHolds(p: Primitives, h: ActiveHeader)
    requires FirstHeader(p, h) && h.sourceBytes == 0
    ensures Holds(p, World(Created(p, h), Vectors([], [], h.policy, h.layout))) && Aligned(Created(p, h))
  {
    hide ValidPolicy, ValidLayout, HeaderImage, StateImage, Indexes, PageOf;
    var e := Created(p, h);
    forall n | n >= 1
      ensures PageOf([], e.Ps(), n) == Zeros(e.Ps())
    {
      PageOfZero([], e.Ps(), n);
    }
    FreshFileRecs(p, h, CurrentState(e), []);
    EmptyIndexes(p, [], e.Ps());
    hide FreshFile;
  }

  /** The native image, unchanged, is both vectors. */
  lemma AdoptedHolds(p: Primitives, h: ActiveHeader, source: Bytes, commit: u64, first: u64)
    requires FirstHeader(p, h) && h.sourceBytes == |source| >= 100 && first != 0
    requires h.sourceDigest == p.blake3(source[..100]) && ParsePageSize(source[..100]) == Some(h.pageSize)
    requires |source| / h.pageSize <= MAX_PAGE
    ensures Holds(p, World(Adopted(p, h, source, commit, first), Vectors(source, source, h.policy, h.layout)))
    ensures Aligned(Adopted(p, h, source, commit, first))
  {
    hide ValidPolicy, ValidLayout, HeaderImage, StateImage, Indexes, ParsePageSize, PageOf;
    var e := Adopted(p, h, source, commit, first);
    SizeBound(e.Ps(), |source|);
    FreshFileRecs(p, h, CurrentState(e), []);
    EmptyIndexes(p, [], e.Ps());
    hide FreshFile;
  }
}
