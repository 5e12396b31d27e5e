/** Resizing against the byte-vector reference (src/store.rs, `truncate`). */
module Transactions {
  import opened Bytes
  import opened Format
  import opened Pages
  import opened Pagefile
  import opened Engine
  import opened Writes

  // truncate

  /** Overwrites a list of recorded pages with zeros. */
  function ZeroPages(p: Primitives, e: Engine, ns: seq<PageNum>): Engine
    decreases |ns|
  {
    if ns == [] then e else ZeroPages(p, WritePage(p, e, ns[0], Zeros(e.Ps())), ns[1..])
  }

  ghost predicate ListsAbove(ns: seq<PageNum>, records: Records, limit: nat) {
    forall n: nat :: n in ns <==> n in records && n > limit
  }

  lemma RecordsKept(p: Primitives, e: Engine, n: nat, page: Bytes)
    requires Wf(p, e) && n in e.records && 1 <= n <= MAX_PAGE
    ensures WritePage(p, e, n, page).records == e.records && WritePage(p, e, n, page).rawPages == e.rawPages + {n}
  {
    hide ReadPage, FrameImage;
  }

  lemma {:induction false} ZeroPagesReads(p: Primitives, e: Engine, ns: seq<PageNum>, m: nat)
    requires Wf(p, e) && (forall n | n in ns :: n in e.records) && m >= 1
    ensures var e' := ZeroPages(p, e, ns);
      && Wf(p, e')
      && e'.(file := e.file, rawPages := e.rawPages, originals := e.originals) == e
      && (forall n: nat :: n in e'.rawPages <==> n in e.rawPages || n in ns)
      && ReadPage(e', m) == (if m in ns then Zeros(e.Ps()) else ReadPage(e, m))
      && CommittedPage(e', m) == CommittedPage(e, m)
    decreases |ns|
  {
    hide Wf, ReadPage, CommittedPage, WritePage;
    if ns != [] {
      var n := ns[0];
      StepWrite(p, e, n, Zeros(e.Ps()), m);
      RecordsKept(p, e, n, Zeros(e.Ps()));
      ZeroPagesReads(p, WritePage(p, e, n, Zeros(e.Ps())), ns[1..], m);
      assert forall k: nat :: k in ns <==> k == n || k in ns[1..];
    }
  }

  function LowerCut(cut: Option<nat>, pages: nat): nat {
    if cut.Some? then Min(cut.value, pages) else pages
  }

  /** `truncate` once the transaction is open; `ns` lists the recorded pages beyond the new end. */
  function Truncate(p: Primitives, e: Engine, size: nat, ns: seq<PageNum>): Result<Engine>
    requires ValidPageSize(e.Ps())
  {
    if size % e.Ps() != 0 then Err(InvalidPageSize)
    else if size / e.Ps() > MAX_PAGE + 1 then Err(Range)
    else if size < e.size then
      if 1 in ns then Err(InvalidPageSize)
      else Ok(ZeroPages(p, e, ns).(cut := Some(LowerCut(e.cut, size / e.Ps())), size := size, dirty := true))
    else Ok(e.(size := size, dirty := true))
  }

  lemma WholeSize(ps: nat, size: nat)
    requires ps > 0 && size % ps == 0
    ensures size == Start(ps, size / ps + 1)
  {
    Locate(ps, size);
  }

  lemma ShrinkReads(p: Primitives, e: Engine, size: nat, ns: seq<PageNum>, m: nat)
    requires Wf(p, e) && ListsAbove(ns, e.records, size / e.Ps()) && m >= 1
    requires Truncate(p, e, size, ns).Ok? && size < e.size
    ensures var e' := Truncate(p, e, size, ns).value;
      && ReadPage(e', m) == (if m <= size / e.Ps() then ReadPage(e, m) else Zeros(e.Ps()))
      && CommittedPage(e', m) == CommittedPage(e, m)
  {
    hide Wf, BasePage, ZeroPages;
    PageSizeOk(p, e);
    ZeroPagesReads(p, e, ns, m);
    RawRecorded(p, e, m);
  }

  lemma RawRecorded(p: Primitives, e: Engine, m: nat)
    requires Wf(p, e)
    ensures m in e.rawPages ==> m in e.records
  {
  }

  lemma Recut(p: Primitives, e: Engine, cut: nat, size: nat)
    requires Wf(p, e) && (forall n | n in e.records && n > cut :: n in e.rawPages)
    requires Start(e.Ps(), cut + 1) <= size <= (MAX_PAGE + 1) * e.Ps()
    ensures Wf(p, e.(cut := Some(cut), size := size, dirty := true))
  {
    hide Indexes;
  }

  lemma ShrinkWf(p: Primitives, e: Engine, size: nat, ns: seq<PageNum>)
    requires Wf(p, e) && ListsAbove(ns, e.records, size / e.Ps())
    requires Truncate(p, e, size, ns).Ok? && size < e.size
    ensures Wf(p, Truncate(p, e, size, ns).value)
  {
    ZeroPagesReads(p, e, ns, 1);
    CutCovers(p, e, size, ns);
    assert e.size <= (MAX_PAGE + 1) * e.Ps();
    hide ReadPage, ZeroPages, Wf;
    Recut(p, ZeroPages(p, e, ns), LowerCut(e.cut, size / e.Ps()), size);
  }

  lemma CutCovers(p: Primitives, e: Engine, size: nat, ns: seq<PageNum>)
    requires Wf(p, e) && ListsAbove(ns, e.records, size / e.Ps()) && size % e.Ps() == 0
    ensures Start(e.Ps(), LowerCut(e.cut, size / e.Ps()) + 1) <= size
    ensures forall n | n in e.records && n > LowerCut(e.cut, size / e.Ps()) :: n in e.rawPages || n in ns
  {
    hide RecordsOk, SizesOk, BaseOk;
    var pages := size / e.Ps();
    WholeSize(e.Ps(), size);
    if e.cut.Some? && e.cut.value < pages {
      StartOrder(e.Ps(), e.cut.value + 1, pages + 1);
    }
  }

  lemma GrowWf(p: Primitives, e: Engine, size: nat)
    requires Wf(p, e) && e.size <= size <= (MAX_PAGE + 1) * e.Ps()
    ensures Wf(p, e.(size := size, dirty := true))
  {
    hide Indexes;
  }

  lemma ResizedReads(e: Engine, size: nat, m: nat)
    requires m >= 1
    ensures ReadPage(e.(size := size, dirty := true), m) == ReadPage(e, m)
    ensures CommittedPage(e.(size := size, dirty := true), m) == CommittedPage(e, m)
  {
  }

  lemma SizeBound(ps: nat, size: nat)
    requires ps > 0 && size % ps == 0 && size / ps <= MAX_PAGE + 1
    ensures size <= (MAX_PAGE + 1) * ps
  {
    WholeSize(ps, size);
    if size / ps < MAX_PAGE + 1 {
      StartOrder(ps, size / ps + 1, MAX_PAGE + 2);
    }
  }

  /** Truncating resizes the byte vector: pages beyond the new end read zero even after regrowing, and
      nothing committed changes. */
  lemma TruncateIsResize(p: Primitives, e: Engine, v: Bytes, size: nat, ns: seq<PageNum>)
    requires Wf(p, e) && Shows(e, v) && ListsAbove(ns, e.records, size / e.Ps())
    requires Truncate(p, e, size, ns).Ok?
    ensures var e' := Truncate(p, e, size, ns).value;
      && Wf(p, e')
      && Shows(e', Resize(v, size))
      && forall u | ShowsCommitted(e, u) :: ShowsCommitted(e', u)
  {
    hide ReadPage, CommittedPage, Wf, ZeroPages, PageOf;
    PageSizeOk(p, e);
    var ps, pages := e.Ps(), size / e.Ps();
    var e' := Truncate(p, e, size, ns).value;
    WholeSize(ps, size);
    if size < e.size {
      ShrinkWf(p, e, size, ns);
      ZeroPagesReads(p, e, ns, 1);
      forall m | m >= 1
        ensures ReadPage(e', m) == PageOf(Resize(v, size), ps, m) && CommittedPage(e', m) == CommittedPage(e, m)
      {
        ShrinkReads(p, e, size, ns, m);
        PageOfShrunk(v, ps, pages, m);
        assert ReadPage(e, m) == PageOf(v, ps, m);
      }
    } else {
      SizeBound(ps, size);
      GrowWf(p, e, size);
      forall m | m >= 1
        ensures ReadPage(e', m) == PageOf(Resize(v, size), ps, m) && CommittedPage(e', m) == CommittedPage(e, m)
      {
        ResizedReads(e, size, m);
        PageOfGrown(v, ps, m, size - |v|);
        assert size == |v| ==> v[..size] == v;
        assert ReadPage(e, m) == PageOf(v, ps, m);
      }
    }
  }

  /** Truncating to nothing is refused exactly when page 1 has an active record. */
  lemma TruncateToNothing(p: Primitives, e: Engine, ns: seq<PageNum>)
    requires Wf(p, e) && ListsAbove(ns, e.records, 0) && e.size > 0
    ensures Truncate(p, e, 0, ns).Ok? <==> 1 !in e.records
  {
  }
}
