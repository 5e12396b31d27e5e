/** Byte-range writes against the byte-vector reference (src/store.rs, `write_at`, `write_mutable_pages`). */
module Writes {
  import opened Bytes
  import opened Format
  import opened Pages
  import opened Pagefile
  import opened Engine

  // Writing a byte range, page by page

  /** What a partial page write starts from: zeros above a pending cut, otherwise the page itself. */
  function Ground(e: Engine, n: nat, whole: bool): Bytes
    requires n >= 1
  {
    if whole || Above(e.cut, n) then Zeros(e.Ps()) else ReadPage(e, n)
  }

  function Overlay(page: Bytes, within: nat, d: Bytes): (r: Bytes)
    requires within + |d| <= |page|
    ensures |r| == |page|
  {
    seq(|page|, j requires 0 <= j < |page| => if within <= j < within + |d| then d[j - within] else page[j])
  }

  /** How much of the data the page at this offset takes. */
  function Amount(ps: nat, at: nat, d: Bytes): nat
    requires ps > 0
  {
    Min(|d|, ps - at % ps)
  }

  function NextPage(e: Engine, at: nat, d: Bytes): Bytes
    requires ValidPageSize(e.Ps())
  {
    var ps := e.Ps();
    var within, amount := at % ps, Amount(ps, at, d);
    var ground := Ground(e, at / ps + 1, within == 0 && amount == ps);
    if |ground| == ps then Overlay(ground, within, d[..amount]) else ground
  }

  function WriteChunks(p: Primitives, e: Engine, at: nat, d: Bytes): Engine
    requires ValidPageSize(e.Ps()) && at + |d| <= MAX_PAGE * e.Ps()
    decreases |d|
  {
    if d == [] then e else
    ChunkInRange(e.Ps(), at, d);
    var amount := Amount(e.Ps(), at, d);
    WriteChunks(p, WritePage(p, e, at / e.Ps() + 1, NextPage(e, at, d)), at + amount, d[amount..])
  }

  lemma ChunkInRange(ps: nat, at: nat, d: Bytes)
    requires ps > 0 && d != [] && at + |d| <= MAX_PAGE * ps
    ensures 1 <= at / ps + 1 <= MAX_PAGE && 0 < Amount(ps, at, d) <= |d|
  {
    Locate(ps, at);
    assert Start(ps, MAX_PAGE + 1) == MAX_PAGE * ps;
    if at / ps + 1 > MAX_PAGE + 1 {
      StartOrder(ps, MAX_PAGE + 1, at / ps + 1);
    }
  }

  predicate Touches(ps: nat, at: nat, length: nat, n: nat)
    requires n >= 1
  {
    length > 0 && at < Start(ps, n) + ps && Start(ps, n) < at + length
  }

  /** What byte j of page n reads after the write. */
  function Expected(e: Engine, at: nat, d: Bytes, n: nat, j: nat): byte
    requires n >= 1 && j < |ReadPage(e, n)|
  {
    var i := Start(e.Ps(), n) + j;
    if at <= i < at + |d| then d[i - at]
    else if Above(e.cut, n) && Touches(e.Ps(), at, |d|, n) then 0
    else ReadPage(e, n)[j]
  }

  /** On the page a write starts on, byte by byte. */
  lemma ExpectedHere(e: Engine, at: nat, d: Bytes, n: nat, within: nat, j: nat)
    requires n >= 1 && at == Start(e.Ps(), n) + within && 0 < |d| && within + |d| <= e.Ps() && j < e.Ps() == |ReadPage(e, n)|
    ensures Expected(e, at, d, n, j) ==
      if within <= j < within + |d| then d[j - within] else if Above(e.cut, n) then 0 else ReadPage(e, n)[j]
  {
    hide ReadPage, Start;
  }

  lemma NextPageShape(e: Engine, at: nat, d: Bytes, n: nat, within: nat, amount: nat)
    requires ValidPageSize(e.Ps()) && n == at / e.Ps() + 1 && within == at % e.Ps() && amount == Amount(e.Ps(), at, d)
    requires |ReadPage(e, n)| == e.Ps()
    ensures within + amount <= e.Ps()
    ensures var ground := Ground(e, n, within == 0 && amount == e.Ps());
      |ground| == e.Ps() && NextPage(e, at, d) == Overlay(ground, within, d[..amount])
  {
    hide ReadPage;
  }

  lemma NextPageBytes(p: Primitives, e: Engine, at: nat, d: Bytes, j: nat)
    requires Wf(p, e) && d != [] && j < e.Ps()
    ensures |NextPage(e, at, d)| == e.Ps()
    ensures |ReadPage(e, at / e.Ps() + 1)| == e.Ps()
    ensures NextPage(e, at, d)[j] == Expected(e, at, d[..Amount(e.Ps(), at, d)], at / e.Ps() + 1, j)
  {
    hide Wf, ReadPage, ValidPageSize, NextPage, Expected;
    PageSizeOk(p, e);
    PageSizePositive(e.Ps());
    var n, within, amount := at / e.Ps() + 1, at % e.Ps(), Amount(e.Ps(), at, d);
    PageLengths(p, e, n);
    Locate(e.Ps(), at);
    NextPageShape(e, at, d, n, within, amount);
    ExpectedHere(e, at, d[..amount], n, within, j);
  }

  lemma PageSizeOk(p: Primitives, e: Engine)
    requires Wf(p, e)
    ensures ValidPageSize(e.Ps())
  {
  }

  /** One page written: every other page and everything committed is as before. */
  lemma StepWrite(p: Primitives, e: Engine, m: nat, page: Bytes, n: nat)
    requires Wf(p, e) && 1 <= m <= MAX_PAGE && |page| == e.Ps() && n >= 1
    ensures var e' := WritePage(p, e, m, page);
      && Wf(p, e')
      && e'.(file := e.file, records := e.records, rawPages := e.rawPages, originals := e.originals) == e
      && ReadPage(e', n) == (if n == m then page else ReadPage(e, n))
      && CommittedPage(e', n) == CommittedPage(e, n)
  {
    WritePageWf(p, e, m, page);
    WritePageReads(p, e, m, page, n);
    WritePageCommitted(p, e, m, page, n);
  }

  /** Writing the first page and then the rest gives the bytes of the whole write. */
  lemma ExpectedSplit(e: Engine, e': Engine, at: nat, d: Bytes, n: nat, j: nat)
    requires ValidPageSize(e.Ps()) && d != [] && n >= 1 && j < e.Ps()
    requires e'.Ps() == e.Ps() && e'.cut == e.cut
    requires |ReadPage(e, n)| == e.Ps() && |ReadPage(e', n)| == e.Ps()
    requires var amount := Amount(e.Ps(), at, d);
      ReadPage(e', n)[j] == if n == at / e.Ps() + 1 then Expected(e, at, d[..amount], n, j) else ReadPage(e, n)[j]
    ensures var amount := Amount(e.Ps(), at, d);
      Expected(e', at + amount, d[amount..], n, j) == Expected(e, at, d, n, j)
  {
    hide ReadPage;
    var ps, m, amount := e.Ps(), at / e.Ps() + 1, Amount(e.Ps(), at, d);
    Locate(ps, at);
    if n < m {
      StartOrder(ps, n, m);
    } else if n > m {
      StartOrder(ps, m, n);
    }
  }

  /** Every byte after a write: the data where it falls; zero elsewhere on touched pages above a pending
      cut; unchanged otherwise. Nothing committed changes. */
  lemma {:induction false} WriteChunksReads(p: Primitives, e: Engine, at: nat, d: Bytes, n: nat, j: nat)
    requires Wf(p, e) && at + |d| <= MAX_PAGE * e.Ps() && n >= 1 && j < e.Ps()
    ensures ValidPageSize(e.Ps())
    ensures var e' := WriteChunks(p, e, at, d);
      && Wf(p, e')
      && e'.(file := e.file, records := e.records, rawPages := e.rawPages, originals := e.originals) == e
      && CommittedPage(e', n) == CommittedPage(e, n)
      && |ReadPage(e, n)| == e.Ps() && |ReadPage(e', n)| == e.Ps()
      && ReadPage(e', n)[j] == Expected(e, at, d, n, j)
    decreases |d|
  {
    hide Wf, ReadPage, CommittedPage, WritePage, NextPage, ValidPageSize, Amount, Expected;
    PageLengths(p, e, n);
    PageSizeOk(p, e);
    PageSizePositive(e.Ps());
    if d != [] {
      var ps, m, amount := e.Ps(), at / e.Ps() + 1, Amount(e.Ps(), at, d);
      ChunkInRange(ps, at, d);
      var page := NextPage(e, at, d);
      NextPageBytes(p, e, at, d, j);
      StepWrite(p, e, m, page, n);
      var e' := WritePage(p, e, m, page);
      WriteChunksReads(p, e', at + amount, d[amount..], n, j);
      ExpectedSplit(e, e', at, d, n, j);
    } else {
      ExpectedNothing(e, at, n, j);
    }
  }

  lemma ExpectedNothing(e: Engine, at: nat, n: nat, j: nat)
    requires n >= 1 && j < |ReadPage(e, n)|
    ensures Expected(e, at, [], n, j) == ReadPage(e, n)[j]
  {
    hide ReadPage;
  }

  // write_at

  function Grown(e: Engine, end: nat): Engine {
    e.(size := if end > e.size then end else e.size, dirty := true)
  }

  /** `write_at` once the transaction is open. Only page 1 can be refused, and it would be the first page
      written, so a refused write changes nothing. */
  function WriteAt(p: Primitives, e: Engine, at: nat, d: Bytes): Result<Engine>
    requires ValidPageSize(e.Ps()) && at + |d| <= MAX_PAGE * e.Ps()
  {
    if d == [] then Ok(e)
    else if !Acceptable(e.Ps(), at / e.Ps() + 1, NextPage(e, at, d)) then Err(InvalidPageSize)
    else Ok(Grown(WriteChunks(p, e, at, d), at + |d|))
  }

  /** On the pages this write touches above a pending cut, every byte outside the write is zero. */
  ghost predicate SafeWrite(e: Engine, at: nat, d: Bytes) {
    forall n, j | n >= 1 && 0 <= j < |ReadPage(e, n)| && Above(e.cut, n) && Touches(e.Ps(), at, |d|, n)
                  && !(at <= Start(e.Ps(), n) + j < at + |d|) :: ReadPage(e, n)[j] == 0
  }

  lemma GrownReads(e: Engine, end: nat, n: nat)
    requires n >= 1
    ensures ReadPage(Grown(e, end), n) == ReadPage(e, n)
    ensures CommittedPage(Grown(e, end), n) == CommittedPage(e, n)
  {
  }

  lemma GrownWf(p: Primitives, e: Engine, end: nat)
    requires Wf(p, e) && end <= MAX_PAGE * e.Ps()
    ensures Wf(p, Grown(e, end))
  {
    hide Indexes;
  }

  lemma PatchedByte(v: Bytes, ps: nat, at: nat, d: Bytes, n: nat, j: nat)
    requires n >= 1 && j < ps
    ensures var i := Start(ps, n) + j;
      PageOf(Patch(v, at, d), ps, n)[j] == if at <= i < at + |d| then d[i - at] else PageOf(v, ps, n)[j]
  {
  }

  lemma WriteAtBytes(p: Primitives, e: Engine, at: nat, d: Bytes, n: nat, j: nat)
    requires Wf(p, e) && at + |d| <= MAX_PAGE * e.Ps() && n >= 1 && j < e.Ps()
    requires d != [] && WriteAt(p, e, at, d).Ok?
    ensures var e' := WriteAt(p, e, at, d).value;
      && |ReadPage(e, n)| == e.Ps() && |ReadPage(e', n)| == e.Ps()
      && ReadPage(e', n)[j] == Expected(e, at, d, n, j)
      && CommittedPage(e', n) == CommittedPage(e, n)
      && Wf(p, e') && e'.Ps() == e.Ps() && e'.head == e.head
      && e'.size == (if at + |d| > e.size then at + |d| else e.size)
  {
    hide Wf, ReadPage, CommittedPage, WriteChunks, NextPage;
    PageSizeOk(p, e);
    WriteChunksReads(p, e, at, d, n, j);
    var e1 := WriteChunks(p, e, at, d);
    GrownReads(e1, at + |d|, n);
    GrownWf(p, e1, at + |d|);
  }

  /** A write is the byte-vector patch exactly when it is safe, and never disturbs what is committed. */
  lemma WriteIsPatch(p: Primitives, e: Engine, v: Bytes, at: nat, d: Bytes)
    requires Wf(p, e) && Shows(e, v) && at + |d| <= MAX_PAGE * e.Ps()
    requires d != [] && WriteAt(p, e, at, d).Ok?
    ensures var e' := WriteAt(p, e, at, d).value;
      && Wf(p, e')
      && (Shows(e', Patch(v, at, d)) <==> SafeWrite(e, at, d))
      && forall u | ShowsCommitted(e, u) :: ShowsCommitted(e', u)
  {
    hide Wf, ReadPage, CommittedPage, WriteAt, Patch;
    PageSizeOk(p, e);
    var e', ps := WriteAt(p, e, at, d).value, e.Ps();
    forall n, j | n >= 1 && 0 <= j < ps
      ensures |ReadPage(e, n)| == ps && |ReadPage(e', n)| == ps && ReadPage(e', n)[j] == Expected(e, at, d, n, j)
      ensures CommittedPage(e', n) == CommittedPage(e, n)
    {
      WriteAtBytes(p, e, at, d, n, j);
    }
    WriteAtBytes(p, e, at, d, 1, 0);
    forall n | n >= 1
      ensures CommittedPage(e', n) == CommittedPage(e, n) && |ReadPage(e', n)| == ps
    {
      WriteAtBytes(p, e, at, d, n, 0);
    }
    if SafeWrite(e, at, d) {
      SafeShows(e, e', v, at, d);
    }
    if Shows(e', Patch(v, at, d)) {
      ShowsSafe(e, e', v, at, d);
    }
  }

  lemma SafeShows(e: Engine, e': Engine, v: Bytes, at: nat, d: Bytes)
    requires Shows(e, v) && e'.Ps() == e.Ps() && e'.size == |Patch(v, at, d)| && SafeWrite(e, at, d)
    requires forall n | n >= 1 :: |ReadPage(e', n)| == e.Ps()
    requires forall n, j | n >= 1 && 0 <= j < e.Ps() ::
      |ReadPage(e, n)| == e.Ps() && |ReadPage(e', n)| == e.Ps() && ReadPage(e', n)[j] == Expected(e, at, d, n, j)
    ensures Shows(e', Patch(v, at, d))
  {
    hide ReadPage, Patch, PageOf;
    var ps := e.Ps();
    forall n | n >= 1
      ensures ReadPage(e', n) == PageOf(Patch(v, at, d), ps, n)
    {
      forall j | 0 <= j < ps
        ensures ReadPage(e', n)[j] == PageOf(Patch(v, at, d), ps, n)[j]
      {
        PatchedByte(v, ps, at, d, n, j);
        assert ReadPage(e', n)[j] == Expected(e, at, d, n, j);
        assert ReadPage(e, n) == PageOf(v, ps, n);
      }
    }
  }

  lemma ShowsSafe(e: Engine, e': Engine, v: Bytes, at: nat, d: Bytes)
    requires Shows(e, v) && e'.Ps() == e.Ps() && Shows(e', Patch(v, at, d))
    requires forall n, j | n >= 1 && 0 <= j < e.Ps() ::
      |ReadPage(e, n)| == e.Ps() && |ReadPage(e', n)| == e.Ps() && ReadPage(e', n)[j] == Expected(e, at, d, n, j)
    ensures SafeWrite(e, at, d)
  {
    hide ReadPage, Patch, PageOf;
    var ps := e.Ps();
    forall n, j | n >= 1 && 0 <= j < |ReadPage(e, n)| && Above(e.cut, n) && Touches(ps, at, |d|, n)
                  && !(at <= Start(ps, n) + j < at + |d|)
      ensures ReadPage(e, n)[j] == 0
    {
      assert ReadPage(e, n) == PageOf(v, ps, n);
      PatchedByte(v, ps, at, d, n, j);
      assert ReadPage(e', n)[j] == Expected(e, at, d, n, j);
    }
  }

  /** Writes of whole pages m..l are always safe. */
  lemma WholePagesSafe(p: Primitives, e: Engine, m: nat, l: nat, d: Bytes)
    requires Wf(p, e) && 1 <= m <= l && Start(e.Ps(), m) + |d| == Start(e.Ps(), l)
    ensures SafeWrite(e, Start(e.Ps(), m), d)
  {
    hide ReadPage, Wf, Start;
    var ps, at := e.Ps(), Start(e.Ps(), m);
    forall n | n >= 1
      ensures |ReadPage(e, n)| == ps
      ensures Touches(ps, at, |d|, n) ==> at <= Start(ps, n) && Start(ps, n) + ps <= at + |d|
    {
      PageLengths(p, e, n);
      if n < m {
        StartOrder(ps, n, m);
      } else if m < n {
        StartOrder(ps, m, n);
      }
      if n < l {
        StartOrder(ps, n, l);
      } else if l < n {
        StartOrder(ps, l, n);
      }
    }
  }

  /** Writes that stay below a pending cut, or meet none, are always safe. */
  lemma BelowCutSafe(e: Engine, at: nat, d: Bytes)
    requires e.cut.Some? ==> at + |d| <= Start(e.Ps(), e.cut.value + 1)
    ensures SafeWrite(e, at, d)
  {
    hide ReadPage;
    forall n | n >= 1 && Above(e.cut, n)
      ensures !Touches(e.Ps(), at, |d|, n)
    {
      if n > e.cut.value + 1 {
        StartOrder(e.Ps(), e.cut.value + 1, n);
      }
    }
  }

  /** The byte-vector law fails for partial writes: of two one-byte writes to the same page above a pending
      cut, the second erases the first. */
  lemma SecondPartialWriteErases(p: Primitives, e: Engine, n: nat, at: nat, x: byte, y: byte)
    requires e.cut.Some? && e.cut.value >= 1 && n == e.cut.value + 1 && at == Start(e.Ps(), n)
    requires ValidPageSize(e.Ps()) && at + e.Ps() <= MAX_PAGE * e.Ps() && Wf(p, e)
    ensures var r := WriteAt(p, e, at, [x]);
      r.Ok? && r.value.Ps() == e.Ps() && |ReadPage(r.value, n)| == e.Ps() && ReadPage(r.value, n)[0] == x
    ensures var s := WriteAt(p, WriteAt(p, e, at, [x]).value, at + 1, [y]);
      s.Ok? && |ReadPage(s.value, n)| == e.Ps() && ReadPage(s.value, n)[0] == 0
  {
    hide ReadPage, Wf, WriteChunks, NextPage;
    var ps := e.Ps();
    SamePage(ps, at, n, 0);
    SamePage(ps, at + 1, n, 1);
    WriteAtBytes(p, e, at, [x], n, 0);
    var e1 := WriteAt(p, e, at, [x]).value;
    KeepsCut(p, e, at, [x]);
    WriteAtBytes(p, e1, at + 1, [y], n, 0);
  }

  lemma KeepsCut(p: Primitives, e: Engine, at: nat, d: Bytes)
    requires Wf(p, e) && at + |d| <= MAX_PAGE * e.Ps() && WriteAt(p, e, at, d).Ok?
    ensures WriteAt(p, e, at, d).value.cut == e.cut
  {
    hide ReadPage, Wf, WriteChunks, NextPage, CommittedPage;
    PageSizeOk(p, e);
    WriteChunksReads(p, e, at, d, 1, 0);
  }
}
