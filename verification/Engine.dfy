/** The transactional page engine on values: what each operation of `Store` does to the pagefile and to the
    pending transaction (src/store.rs). */
module Engine {
  import opened Bytes
  import opened Format
  import opened Pages
  import opened Pagefile

  /** SQLite reserves page number 0xffffffff. */
  const MAX_PAGE: nat := 0xffff_fffe

  type PageNum = n: nat | 1 <= n <= 0xffff_fffe witness 1

  datatype HeadState = HeadState(
    pageSize: u32,
    logicalSize: nat,
    txid: u64,
    history: Digest,
    commitOffset: nat,
    commitEnd: nat,
    oldest: u64,
    last: u64)

  /** A sealed view: a page map in which absence means zero. */
  datatype View = View(
    id: Digest,
    database: Digest,
    size: nat,
    pageSize: u32,
    txid: u64,
    history: Digest,
    pages: map<nat, Bytes>)

  /** What lies under the active records. */
  datatype Base = Genesis | SealedBase(view: View) | SourceBase(source: Bytes)

  datatype Engine = Engine(
    header: ActiveHeader,
    file: File,
    sequence: u64,
    records: Records,
    truncate: Option<nat>,
    base: Base,
    head: HeadState,
    rawPages: set<nat>,
    originals: map<nat, Bytes>,
    size: nat,
    cut: Option<nat>,
    dirty: bool)
  {
    function Ps(): nat {
      head.pageSize
    }

    function HasPending(): bool {
      dirty || rawPages != {} || originals != map[]
    }
  }

  // Page 1 carries the page size

  const SQLITE_MAGIC: Bytes :=
    [0x53, 0x51, 0x4c, 0x69, 0x74, 0x65, 0x20, 0x66, 0x6f, 0x72, 0x6d, 0x61, 0x74, 0x20, 0x33, 0x00]

  /** Big-endian at bytes 16 and 17; the encoded value 1 means 65536. */
  function ParsePageSize(page: Bytes): Option<nat> {
    if |page| < 18 || page[..16] != SQLITE_MAGIC then None
    else
      var high: nat, low: nat := page[16], page[17];
      var encoded: nat := 256 * high + low;
      var size: nat := if encoded == 1 then 65536 else encoded;
      if ValidPageSize(size) then Some(size) else None
  }

  /** A page size as a database file writes it. */
  function PageSizeBytes(size: nat): Bytes
    requires ValidPageSize(size)
  {
    if size == 65536 then [0, 1] else [size / 256, size % 256]
  }

  /** A page says a page size if and only if it starts with the magic and carries exactly its two bytes. */
  lemma ParsePageSizeIff(page: Bytes, size: nat)
    ensures ParsePageSize(page) == Some(size) <==>
      |page| >= 18 && page[..16] == SQLITE_MAGIC && ValidPageSize(size) && page[16..18] == PageSizeBytes(size)
  {
    hide ValidPageSize;
    if |page| >= 18 && page[..16] == SQLITE_MAGIC {
      var high: nat, low: nat := page[16], page[17];
      assert page[16..18] == [page[16], page[17]];
      TwoBytes(high, low);
      PageSizeRange(size);
    }
  }

  lemma TwoBytes(high: nat, low: nat)
    requires low < 256
    ensures (256 * high + low) / 256 == high && (256 * high + low) % 256 == low
  {
  }

  lemma PageSizeRange(size: nat)
    ensures ValidPageSize(size) ==> 2 <= size <= 65536
  {
  }

  predicate Acceptable(ps: nat, n: nat, page: Bytes) {
    n == 1 ==> ParsePageSize(page) == Some(ps)
  }

  // Reading

  function BasePage(b: Base, ps: nat, n: nat): Bytes
    requires n >= 1
  {
    match b
    case Genesis => Zeros(ps)
    case SealedBase(v) => if Start(ps, n) < v.size && n in v.pages then v.pages[n] else Zeros(ps)
    case SourceBase(s) => PageOf(s, ps, n)
  }

  predicate Above(limit: Option<nat>, n: nat) {
    limit.Some? && n > limit.value
  }

  /** `read_page`: a pending cut hides everything not rewritten since, then the record, then the committed
      cut, then the base. */
  function ReadPage(e: Engine, n: nat): Bytes
    requires n >= 1
  {
    if Above(e.cut, n) && n !in e.rawPages then Zeros(e.Ps())
    else if n in e.records && e.records[n] < |e.file.recs| then e.file.recs[e.records[n]].body
    else if Above(e.truncate, n) then Zeros(e.Ps())
    else BasePage(e.base, e.Ps(), n)
  }

  /** The page as of the last publication, whatever the pending transaction has overwritten. */
  ghost function CommittedPage(e: Engine, n: nat): Bytes
    requires n >= 1
  {
    if n in e.records && e.records[n] < e.head.commitEnd && e.records[n] < |e.file.recs| then
      if n in e.originals then e.originals[n] else e.file.recs[e.records[n]].body
    else if Above(e.truncate, n) then Zeros(e.Ps())
    else BasePage(e.base, e.Ps(), n)
  }

  /** The pending transaction reads as this byte vector, zero beyond its end. */
  ghost predicate Shows(e: Engine, v: Bytes) {
    |v| == e.size && forall n | n >= 1 :: ReadPage(e, n) == PageOf(v, e.Ps(), n)
  }

  ghost predicate ShowsCommitted(e: Engine, v: Bytes) {
    |v| == e.head.logicalSize && forall n | n >= 1 :: CommittedPage(e, n) == PageOf(v, e.Ps(), n)
  }

  // Writing one page

  function WriteBody(f: File, k: nat, page: Bytes): File
    requires k < |f.recs|
  {
    f.(recs := f.recs[k := f.recs[k].(body := page)])
  }

  function AppendRecord(p: Primitives, f: File, ps: u32, n: u32, page: Bytes): File {
    f.(recs := f.recs + [Rec(FrameImage(p, RawFrame(n, ps)), page)])
  }

  /** A committed record about to be overwritten for the first time in this transaction. */
  predicate NeedsUndo(e: Engine, n: nat) {
    n in e.records && e.records[n] < e.head.commitEnd && n !in e.originals
  }

  function WritePage(p: Primitives, e: Engine, n: nat, page: Bytes): Engine
    requires 1 <= n <= MAX_PAGE
  {
    var originals := if NeedsUndo(e, n) then e.originals[n := ReadPage(e, n)] else e.originals;
    if n in e.records && e.records[n] < |e.file.recs| then
      e.(originals := originals, file := WriteBody(e.file, e.records[n], page), rawPages := e.rawPages + {n})
    else
      e.(originals := originals, file := AppendRecord(p, e.file, e.head.pageSize, n, page),
         records := e.records[n := |e.file.recs|], rawPages := e.rawPages + {n})
  }

  // The invariant of the pending transaction

  /** The record index and the record area describe each other. */
  ghost predicate RecordsOk(p: Primitives, e: Engine) {
    && Indexes(p, e.file.recs, e.Ps(), |e.file.recs|, e.records)
    && (forall k | 0 <= k < |e.file.recs| :: |e.file.recs[k].body| == e.Ps())
    && (forall n | n in e.records :: 1 <= n <= MAX_PAGE)
    && e.head.commitEnd <= |e.file.recs|
  }

  /** Everything the transaction touched is remembered, and every overwritten committed record has an
      undo copy. */
  ghost predicate PendingOk(e: Engine) {
    && e.rawPages <= e.records.Keys
    && (forall n | n in e.records && e.records[n] >= e.head.commitEnd :: n in e.rawPages)
    && (forall n | n in e.records && e.records[n] < e.head.commitEnd :: n in e.originals <==> n in e.rawPages)
    && (forall n | n in e.originals :: n in e.records && e.records[n] < e.head.commitEnd && |e.originals[n]| == e.Ps())
    && (forall n | n in e.records && Above(e.cut, n) :: n in e.rawPages)
  }

  /** A cut never lies beyond the size it led to. */
  ghost predicate SizesOk(e: Engine) {
    && (e.cut.Some? ==> Start(e.Ps(), e.cut.value + 1) <= e.size)
    && (e.cut.None? ==> e.head.logicalSize <= e.size)
    && (e.truncate.Some? ==> Start(e.Ps(), e.truncate.value + 1) <= e.head.logicalSize)
    && (!e.HasPending() ==> e.size == e.head.logicalSize && e.cut.None?)
    && e.size <= (MAX_PAGE + 1) * e.Ps()
    && e.head.logicalSize <= (MAX_PAGE + 1) * e.Ps()
  }

  ghost predicate BaseOk(e: Engine) {
    e.base.SealedBase? ==>
      var v := e.base.view;
      forall n | n in v.pages :: n >= 1 && Start(e.Ps(), n) < v.size && |v.pages[n]| == e.Ps()
  }

  ghost predicate Wf(p: Primitives, e: Engine) {
    ValidPageSize(e.Ps()) && RecordsOk(p, e) && PendingOk(e) && SizesOk(e) && BaseOk(e)
  }

  lemma PageLengths(p: Primitives, e: Engine, n: nat)
    requires Wf(p, e) && n >= 1
    ensures |ReadPage(e, n)| == e.Ps() && |CommittedPage(e, n)| == e.Ps()
  {
    hide PageNo;
  }

  // Writing a page changes that page of the transaction and nothing committed

  lemma WritePageRecords(p: Primitives, e: Engine, n: nat, page: Bytes)
    requires Wf(p, e) && 1 <= n <= MAX_PAGE && |page| == e.Ps()
    ensures RecordsOk(p, WritePage(p, e, n, page))
  {
    hide Indexes, ReadPage, FrameImage, PendingOk, SizesOk, BaseOk, RawFrame, ValidPageSize;
    RecordInRange(p, e, n);
    if n in e.records {
      IndexesOverwrite(p, e.file.recs, e.Ps(), e.records, e.records[n], page);
    } else {
      PageNoOfRawFrame(p, n, e.head.pageSize, page);
      IndexesAppend(p, e.file.recs, e.Ps(), e.records, n, Rec(FrameImage(p, RawFrame(n, e.head.pageSize)), page));
    }
  }

  lemma RecordInRange(p: Primitives, e: Engine, n: nat)
    requires RecordsOk(p, e)
    ensures n in e.records ==> e.records[n] < |e.file.recs| && 1 <= n <= MAX_PAGE
    ensures e.head.commitEnd <= |e.file.recs|
  {
  }

  lemma WritePagePending(p: Primitives, e: Engine, n: nat, page: Bytes)
    requires PendingOk(e) && 1 <= n <= MAX_PAGE && |ReadPage(e, n)| == e.Ps()
    requires n in e.records ==> e.records[n] < |e.file.recs|
    requires e.head.commitEnd <= |e.file.recs|
    ensures PendingOk(WritePage(p, e, n, page))
  {
    hide ReadPage, FrameImage;
  }

  lemma WritePageWf(p: Primitives, e: Engine, n: nat, page: Bytes)
    requires Wf(p, e) && 1 <= n <= MAX_PAGE && |page| == e.Ps()
    ensures Wf(p, WritePage(p, e, n, page))
  {
    hide ReadPage, FrameImage, RecordsOk, PendingOk;
    PageLengths(p, e, n);
    RecordInRange(p, e, n);
    WritePageRecords(p, e, n, page);
    WritePagePending(p, e, n, page);
  }

  lemma WritePageReads(p: Primitives, e: Engine, n: nat, page: Bytes, m: nat)
    requires Wf(p, e) && 1 <= n <= MAX_PAGE && |page| == e.Ps() && m >= 1
    ensures ReadPage(WritePage(p, e, n, page), m) == if m == n then page else ReadPage(e, m)
  {
    hide PageNo, BasePage, FrameImage;
    var e' := WritePage(p, e, n, page);
    if n in e.records && m != n && m in e.records {
      assert e.records[m] != e.records[n];
    }
  }

  lemma WritePageCommitted(p: Primitives, e: Engine, n: nat, page: Bytes, m: nat)
    requires Wf(p, e) && 1 <= n <= MAX_PAGE && |page| == e.Ps() && m >= 1
    ensures CommittedPage(WritePage(p, e, n, page), m) == CommittedPage(e, m)
  {
    hide PageNo, BasePage, FrameImage;
    var e' := WritePage(p, e, n, page);
    if n in e.records && m != n && m in e.records {
      assert e.records[m] != e.records[n];
    }
  }
}
