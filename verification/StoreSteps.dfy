/** What the loops of the store compute, step by step (src/store.rs). */
module StoreSteps {
  import opened Bytes
  import opened Format
  import opened Pages
  import opened Pagefile
  import opened Engine
  import opened Writes
  import opened Transactions
  import opened Publication
  import opened Sealing

  // What a read must return

  function ByteAt(e: Engine, i: nat): byte
    requires e.Ps() > 0
  {
    var page := ReadPage(e, i / e.Ps() + 1);
    if i % e.Ps() < |page| then page[i % e.Ps()] else 0
  }

  function Slice(e: Engine, offset: nat, n: nat): (r: Bytes)
    requires e.Ps() > 0
    ensures |r| == n
  {
    seq<byte>(n, i requires 0 <= i < n => ByteAt(e, offset + i))
  }

  lemma ByteOfShown(p: Primitives, e: Engine, v: Bytes, i: nat)
    requires Wf(p, e) && Shows(e, v) && i < e.size
    ensures e.Ps() > 0 && ByteAt(e, i) == v[i]
  {
    hide Wf, ReadPage, PageOf;
    PositivePages(p, e);
    Locate(e.Ps(), i);
    assert ReadPage(e, i / e.Ps() + 1) == PageOf(v, e.Ps(), i / e.Ps() + 1);
    PageByte(v, e.Ps(), i / e.Ps() + 1, i % e.Ps());
  }

  lemma PageByte(v: Bytes, ps: nat, n: nat, j: nat)
    requires n >= 1 && j < ps && Start(ps, n) + j < |v|
    ensures PageOf(v, ps, n)[j] == v[Start(ps, n) + j]
  {
  }

  /** A slice of the store is a slice of the vector it shows. */
  lemma SliceOfShown(p: Primitives, e: Engine, v: Bytes, offset: nat, n: nat)
    requires Wf(p, e) && Shows(e, v) && offset + n <= e.size
    ensures e.Ps() > 0 && Slice(e, offset, n) == v[offset..offset + n]
  {
    hide Wf, Shows, ByteAt;
    PositivePages(p, e);
    assert |v| == e.size by { ShownSize(e, v); }
    forall i | 0 <= i < n
      ensures Slice(e, offset, n)[i] == v[offset + i]
    {
      ByteOfShown(p, e, v, offset + i);
    }
  }

  lemma ShownSize(e: Engine, v: Bytes)
    requires Shows(e, v)
    ensures |v| == e.size
  {
  }

  lemma PositivePages(p: Primitives, e: Engine)
    requires Wf(p, e)
    ensures 0 < e.Ps()
  {
  }

  /** A read fills the buffer, or stops at the end of the database; beyond it there is nothing. */
  predicate ReadsUpTo(size: nat, offset: nat, length: nat, n: nat) {
    if offset >= size then n == 0 else n <= length && offset + n <= size && (n == length || offset + n == size)
  }

  /** How many bytes a read returns. */
  function Available(size: nat, offset: nat, length: nat): (n: nat)
    ensures ReadsUpTo(size, offset, length, n)
  {
    if length == 0 || offset >= size then 0 else Min(size - offset, length)
  }

  /** The page of the last byte of a nonempty range. */
  function LastPage(ps: nat, end: nat): nat
    requires ps > 0 && end > 0
  {
    (end - 1) / ps + 1
  }

  /** The first n bytes have been read; the rest is still zero. */
  ghost predicate Filled(e: Engine, offset: nat, n: nat, output: seq<byte>) {
    && e.Ps() > 0 && n <= |output|
    && (forall i | 0 <= i < n :: output[i] == ByteAt(e, offset + i))
    && (forall i | n <= i < |output| :: output[i] == 0)
  }

  lemma FilledIsSlice(e: Engine, offset: nat, n: nat, output: seq<byte>)
    requires Filled(e, offset, n, output)
    ensures output == Slice(e, offset, n) + Zeros(|output| - n)
  {
    hide ByteAt;
  }

  /** The first n bytes are those of the vector the store shows. */
  ghost predicate AsShown(e: Engine, offset: nat, n: nat, output: seq<byte>) {
    n <= |output| && forall v | Shows(e, v) :: n > 0 ==> offset + n <= |v| && output[..n] == v[offset..offset + n]
  }

  lemma FilledIsShown(p: Primitives, e: Engine, offset: nat, n: nat, output: seq<byte>)
    requires Wf(p, e) && Filled(e, offset, n, output) && (n > 0 ==> offset + n <= e.size)
    ensures AsShown(e, offset, n, output)
  {
    hide Wf, Shows, ByteAt;
    forall v | Shows(e, v) && n > 0
      ensures offset + n <= |v| && output[..n] == v[offset..offset + n]
    {
      ShownSize(e, v);
      SliceOfShown(p, e, v, offset, n);
      assert output[..n] == Slice(e, offset, n);
    }
  }

  /** Copying part of the next page extends what has been read. */
  lemma FilledStep(e: Engine, offset: nat, n: nat, within: nat, amount: nat, page: Bytes, before: seq<byte>, after: seq<byte>)
    requires e.Ps() > 0 && |page| == e.Ps() && page == ReadPage(e, (offset + n) / e.Ps() + 1)
    requires within == (offset + n) % e.Ps() && within + amount <= |page|
    requires Filled(e, offset, n, before) && n + amount <= |before|
    requires after == before[..n] + page[within..][..amount] + before[n + amount..]
    ensures Filled(e, offset, n + amount, after)
  {
    hide ReadPage;
    var ps, at := e.Ps(), offset + n;
    Locate(ps, at);
    forall i | n <= i < n + amount
      ensures after[i] == ByteAt(e, offset + i)
    {
      SamePage(ps, offset + i, at / ps + 1, within + (i - n));
    }
  }

  /** Whichever page of the range comes next, it ends at a page boundary or at the end of the range. */
  lemma NextAt(ps: nat, at: nat, end: nat, j: nat)
    requires ps > 0 && at < end && at / ps + 1 == j
    ensures j <= LastPage(ps, end)
    ensures j < LastPage(ps, end) ==>
      var at' := at + (ps - at % ps); at' < end && at' / ps + 1 == j + 1 && ps - at % ps <= end - at
    ensures j == LastPage(ps, end) ==> end - at <= ps - at % ps
  {
    var last := LastPage(ps, end);
    Locate(ps, at);
    Locate(ps, end - 1);
    if j < last {
      StartOrder(ps, j, last);
      SamePage(ps, at + (ps - at % ps), j + 1, 0);
      if j + 1 < last {
        StartOrder(ps, j + 1, last);
      }
    } else if last < j {
      StartOrder(ps, last, j);
    }
  }

  /** A sealed view returns zeros for the pages it does not hold. */
  function ViewPage(v: View, ps: nat, n: nat): Bytes {
    if n in v.pages then v.pages[n] else Zeros(ps)
  }

  method CopySlice(page: Bytes, within: nat, amount: nat, output: array<byte>, at: nat)
    requires within + amount <= |page| && at + amount <= output.Length
    modifies output
    ensures output[..] == old(output[..at]) + page[within..][..amount] + old(output[at + amount..])
  {
    forall i | 0 <= i < amount {
      output[at + i] := page[within + i];
    }
  }

  /** Copies pages `first` to `last`, or what the range takes of them. */
  method CopyPages(ghost e: Engine, pages: map<nat, Bytes>, ps: nat, first: nat, last: nat, offset: nat, start: nat, actual: nat,
                   output: array<byte>)
    returns (copied: nat)
    requires ps == e.Ps() > 0 && start < actual <= output.Length
    requires (offset + start) / ps + 1 == first <= last <= LastPage(ps, offset + actual)
    requires forall n | first <= n <= last :: n in pages && pages[n] == ReadPage(e, n) && |pages[n]| == ps
    requires Filled(e, offset, start, output[..])
    modifies output
    ensures start < copied <= actual
    ensures copied == actual <==> last == LastPage(ps, offset + actual)
    ensures Filled(e, offset, copied, output[..])
  {
    hide ReadPage, Filled, LastPage;
    var j := first;
    copied := start;
    NextAt(ps, offset + start, offset + actual, first);
    while j <= last
      invariant first <= j <= last + 1
      invariant start <= copied <= actual && (j > first ==> start < copied)
      invariant copied < actual ==> (offset + copied) / ps + 1 == j
      invariant copied == actual <==> j == LastPage(ps, offset + actual) + 1
      invariant Filled(e, offset, copied, output[..])
    {
      var at := offset + copied;
      NextAt(ps, at, offset + actual, j);
      var page := pages[j];
      var amount := Min(actual - copied, |page| - at % ps);
      ghost var before := output[..];
      CopySlice(page, at % ps, amount, output, copied);
      FilledStep(e, offset, copied, at % ps, amount, page, before, output[..]);
      copied := copied + amount;
      j := j + 1;
    }
  }

  // Writing

  /** How much of a write lies below the last page that can be written. */
  function Fit(ps: nat, at: nat, d: Bytes): (n: nat)
    ensures n <= |d| && (n > 0 ==> at + n <= MAX_PAGE * ps)
  {
    if at >= MAX_PAGE * ps then 0 else Min(|d|, MAX_PAGE * ps - at)
  }

  lemma FitChunk(ps: nat, at: nat, d: Bytes)
    requires ps > 0 && d != []
    ensures at / ps + 1 <= MAX_PAGE <==> Fit(ps, at, d) > 0
    ensures Fit(ps, at, d) > 0 ==> Amount(ps, at, d) <= Fit(ps, at, d)
  {
    Locate(ps, at);
    assert Start(ps, MAX_PAGE + 1) == MAX_PAGE * ps;
    var n := at / ps + 1;
    if n < MAX_PAGE + 1 {
      StartOrder(ps, n, MAX_PAGE + 1);
    } else if n > MAX_PAGE + 1 {
      StartOrder(ps, MAX_PAGE + 1, n);
    }
  }

  lemma WholeFits(ps: nat, at: nat, d: Bytes)
    requires d != []
    ensures at + |d| <= MAX_PAGE * ps <==> Fit(ps, at, d) == |d|
    ensures d[..|d|] == d
  {
  }

  /** The operation does what the specification says, or fails with it and changes nothing. */
  ghost predicate Follows(e: Engine, r: Result<Engine>, e': Engine, ok: bool) {
    ok == r.Ok? && e' == if r.Ok? then r.value else e
  }

  /** Nothing is written when the first page is refused; otherwise everything below the last page is, and the
      write succeeds when that is all of it. */
  ghost predicate WritesWhatFits(p: Primitives, e: Engine, at: nat, d: Bytes, e': Engine, ok: bool)
    requires ValidPageSize(e.Ps())
  {
    var fits := d[..Fit(e.Ps(), at, d)];
    if fits != [] && Acceptable(e.Ps(), at / e.Ps() + 1, NextPage(e, at, fits)) then
      e' == WriteChunks(p, e, at, fits) && (ok <==> fits == d)
    else
      e' == e && !ok
  }

  lemma FitRest(ps: nat, at: nat, d: Bytes, consumed: nat)
    requires consumed <= Fit(ps, at, d)
    ensures Fit(ps, at + consumed, d[consumed..]) == Fit(ps, at, d) - consumed
  {
  }

  /** Only the bytes that fall on the page matter to the page. */
  lemma SameChunk(e: Engine, at: nat, d: Bytes, k: nat)
    requires ValidPageSize(e.Ps()) && Amount(e.Ps(), at, d) <= k <= |d|
    ensures Amount(e.Ps(), at, d[..k]) == Amount(e.Ps(), at, d)
    ensures NextPage(e, at, d[..k]) == NextPage(e, at, d)
  {
    hide ReadPage;
    var amount := Amount(e.Ps(), at, d);
    assert d[..k][..amount] == d[..amount];
  }

  /** The page after a chunk that did not end the data is not the first. */
  lemma NextChunkBeyond(ps: nat, at: nat, amount: nat)
    requires ps > 0 && amount == ps - at % ps
    ensures (at + amount) / ps + 1 == at / ps + 2
  {
    Locate(ps, at);
    SamePage(ps, at + amount, at / ps + 2, 0);
  }

  /** What is left to do leads to the same place. */
  ghost predicate OnTheWay(p: Primitives, start: Engine, at: nat, d: Bytes, consumed: nat, e: Engine) {
    && ValidPageSize(start.Ps()) && e.Ps() == start.Ps() && consumed <= |d| && at + |d| <= MAX_PAGE * e.Ps()
    && WriteChunks(p, start, at, d) == WriteChunks(p, e, at + consumed, d[consumed..])
  }

  lemma OnTheWayStarts(p: Primitives, e: Engine, at: nat, d: Bytes)
    requires ValidPageSize(e.Ps()) && at + |d| <= MAX_PAGE * e.Ps()
    ensures OnTheWay(p, e, at, d, 0, e)
  {
    hide WriteChunks;
    assert d[0..] == d;
  }

  lemma ChunkStep(p: Primitives, e: Engine, at: nat, d: Bytes)
    requires ValidPageSize(e.Ps()) && d != [] && at + |d| <= MAX_PAGE * e.Ps()
    ensures var n, amount := at / e.Ps() + 1, Amount(e.Ps(), at, d);
      && 1 <= n <= MAX_PAGE && 0 < amount <= |d|
      && WritePage(p, e, n, NextPage(e, at, d)).Ps() == e.Ps()
      && WriteChunks(p, e, at, d) == WriteChunks(p, WritePage(p, e, n, NextPage(e, at, d)), at + amount, d[amount..])
  {
    hide ReadPage, NextPage, ValidPageSize;
    ChunkInRange(e.Ps(), at, d);
  }

  /** One step of the loop is one step of the specification. */
  lemma OnTheWayStep(p: Primitives, start: Engine, at: nat, d: Bytes, consumed: nat, e: Engine, page: Bytes, amount: nat)
    requires OnTheWay(p, start, at, d, consumed, e) && consumed < |d|
    requires page == NextPage(e, at + consumed, d[consumed..]) && amount == Amount(e.Ps(), at + consumed, d[consumed..])
    ensures var n := (at + consumed) / e.Ps() + 1;
      && 1 <= n <= MAX_PAGE && 0 < amount <= |d| - consumed
      && OnTheWay(p, start, at, d, consumed + amount, WritePage(p, e, n, page))
  {
    hide WritePage, WriteChunks, NextPage, ValidPageSize;
    ChunkStep(p, e, at + consumed, d[consumed..]);
    assert d[consumed..][amount..] == d[consumed + amount..];
  }

  lemma OnTheWayEnds(p: Primitives, start: Engine, at: nat, d: Bytes, e: Engine)
    requires OnTheWay(p, start, at, d, |d|, e)
    ensures WriteChunks(p, start, at, d) == e
  {
  }

  /** Either the next chunk fits, and writing it is one step, or everything that fits has been written. */
  lemma FitsOrEnds(p: Primitives, start: Engine, at: nat, d: Bytes, consumed: nat, e: Engine)
    requires ValidPageSize(e.Ps()) && consumed < |d| && consumed <= Fit(e.Ps(), at, d)
    requires var fits := d[..Fit(e.Ps(), at, d)]; fits != [] ==> OnTheWay(p, start, at, fits, consumed, e)
    ensures var ps, fits, rest := e.Ps(), d[..Fit(e.Ps(), at, d)], d[consumed..];
      var n, amount, page := (at + consumed) / ps + 1, Amount(ps, at + consumed, rest), NextPage(e, at + consumed, rest);
      if consumed == |fits| then
        n > MAX_PAGE && (fits != [] ==> WriteChunks(p, start, at, fits) == e)
      else
        && n <= MAX_PAGE && 0 < amount && consumed + amount <= |fits|
        && page == NextPage(e, at + consumed, fits[consumed..])
        && OnTheWay(p, start, at, fits, consumed + amount, WritePage(p, e, n, page))
        && (consumed + amount < |d| ==> (at + consumed + amount) / ps + 1 > 1)
  {
    hide WriteChunks, WritePage, NextPage, ValidPageSize, OnTheWay, Fit;
    var ps, fits, rest := e.Ps(), d[..Fit(e.Ps(), at, d)], d[consumed..];
    PageSizePositive(ps);
    FitChunk(ps, at + consumed, rest);
    FitRest(ps, at, d, consumed);
    if consumed == |fits| {
      if fits != [] {
        OnTheWayEnds(p, start, at, fits, e);
      }
    } else {
      var left, amount := fits[consumed..], Amount(ps, at + consumed, rest);
      assert left == rest[..|left|];
      SameChunk(e, at + consumed, rest, |left|);
      OnTheWayStep(p, start, at, fits, consumed, e, NextPage(e, at + consumed, rest), amount);
      if amount < |rest| {
        NextChunkBeyond(ps, at + consumed, amount);
      }
    }
  }

  /** A write of one chunk: the page is refused, and nothing changes, or it is written. */
  ghost predicate ChunkWritten(p: Primitives, e: Engine, at: nat, d: Bytes, e': Engine, ok: bool)
    requires ValidPageSize(e.Ps())
  {
    var n, page := at / e.Ps() + 1, NextPage(e, at, d);
    if n <= MAX_PAGE && Acceptable(e.Ps(), n, page) then ok && e' == WritePage(p, e, n, page) else !ok && e' == e
  }

  /** The state of the loop after `consumed` bytes. */
  ghost predicate Progress(p: Primitives, start: Engine, at: nat, d: Bytes, consumed: nat, e: Engine) {
    && ValidPageSize(start.Ps()) && e.Ps() == start.Ps()
    && var ps, fits := e.Ps(), d[..Fit(e.Ps(), at, d)];
    && consumed <= |fits|
    && (fits != [] ==> OnTheWay(p, start, at, fits, consumed, e))
    && (consumed == 0 ==> e == start)
    && (consumed > 0 ==> Acceptable(ps, at / ps + 1, NextPage(start, at, fits)))
    && (0 < consumed < |d| ==> (at + consumed) / ps + 1 > 1)
  }

  lemma ProgressStarts(p: Primitives, e: Engine, at: nat, d: Bytes)
    requires ValidPageSize(e.Ps())
    ensures Progress(p, e, at, d, 0, e)
  {
    hide OnTheWay, ValidPageSize, NextPage;
    var fits := d[..Fit(e.Ps(), at, d)];
    if fits != [] {
      OnTheWayStarts(p, e, at, fits);
    }
  }

  lemma ProgressGoesOn(p: Primitives, start: Engine, at: nat, d: Bytes, consumed: nat, e: Engine, e': Engine)
    requires Progress(p, start, at, d, consumed, e) && consumed < |d| && ValidPageSize(e.Ps())
    requires ChunkWritten(p, e, at + consumed, d[consumed..], e', true)
    ensures var amount := Amount(e.Ps(), at + consumed, d[consumed..]);
      0 < amount <= |d| - consumed && Progress(p, start, at, d, consumed + amount, e')
  {
    hide OnTheWay, ValidPageSize, NextPage, WritePage, WriteChunks, ParsePageSize, Fit, Amount;
    FitsOrEnds(p, start, at, d, consumed, e);
    var fits := d[..Fit(e.Ps(), at, d)];
    OnTheWayPs(p, start, at, fits, consumed + Amount(e.Ps(), at + consumed, d[consumed..]), e');
    assert fits[0..] == fits;
  }

  lemma ProgressStops(p: Primitives, start: Engine, at: nat, d: Bytes, consumed: nat, e: Engine, e': Engine)
    requires Progress(p, start, at, d, consumed, e) && consumed < |d| && ValidPageSize(e.Ps())
    requires ChunkWritten(p, e, at + consumed, d[consumed..], e', false)
    ensures ValidPageSize(start.Ps()) && WritesWhatFits(p, start, at, d, e', false)
  {
    hide OnTheWay, ValidPageSize, NextPage, WritePage, WriteChunks, ParsePageSize, Fit, Amount;
    FitsOrEnds(p, start, at, d, consumed, e);
    var fits := d[..Fit(e.Ps(), at, d)];
    assert fits[0..] == fits;
  }

  lemma OnTheWayPs(p: Primitives, start: Engine, at: nat, d: Bytes, consumed: nat, e: Engine)
    requires OnTheWay(p, start, at, d, consumed, e)
    ensures e.Ps() == start.Ps()
  {
  }

  lemma ProgressEnds(p: Primitives, start: Engine, at: nat, d: Bytes, e: Engine)
    requires Progress(p, start, at, d, |d|, e) && d != []
    ensures WritesWhatFits(p, start, at, d, e, true)
  {
    hide OnTheWay, ValidPageSize, NextPage, WriteChunks, ParsePageSize;
    var fits := d[..Fit(e.Ps(), at, d)];
    assert fits == d;
    OnTheWayEnds(p, start, at, d, e);
  }

  lemma ZeroPageRefused(ps: nat)
    ensures !Acceptable(ps, 1, Zeros(ps))
  {
    assert ps >= 18 ==> Zeros(ps)[..16][0] == 0;
  }

  // Resizing

  predicate IsLowest(s: set<nat>, n: nat) {
    n in s && forall m | m in s :: n <= m
  }

  lemma {:induction false} LowestExists(s: set<nat>) returns (n: nat)
    requires s != {}
    ensures IsLowest(s, n)
    decreases |s|
  {
    var first :| first in s;
    var rest := s - {first};
    n := first;
    if rest != {} {
      var k := LowestExists(rest);
      if k < n {
        n := k;
      }
    }
    forall m | m in s
      ensures n <= m
    {
      assert m == first || m in rest;
    }
  }

  lemma LowestRest(s: set<nat>, n: nat)
    requires IsLowest(s, n)
    ensures forall m | m in s - {n} :: n < m
  {
    forall m | m in s - {n}
      ensures n < m
    {
      assert m in s && m != n;
    }
  }

  predicate InPageOrder(ns: seq<PageNum>) {
    forall i, j | 0 <= i < j < |ns| :: ns[i] < ns[j]
  }

  /** The pages listed so far are in order and come before those still to be listed. */
  ghost predicate Listed(ns: seq<PageNum>, todo: set<nat>, records: Records, limit: nat) {
    && todo <= records.Keys && InPageOrder(ns)
    && (forall n: nat :: n in records && n > limit <==> n in ns || n in todo)
    && (ns != [] ==> forall m | m in todo :: ns[|ns| - 1] < m)
  }

  lemma ListedStep(ns: seq<PageNum>, todo: set<nat>, records: Records, limit: nat, n: PageNum)
    requires Listed(ns, todo, records, limit) && n in todo && IsLowest(todo, n)
    ensures Listed(ns + [n], todo - {n}, records, limit)
  {
    hide IsLowest;
    LowestRest(todo, n);
    var next, rest := ns + [n], todo - {n};
    assert next[|next| - 1] == n;
    assert forall k: nat :: k in next <==> k in ns || k == n;
    assert forall k: nat :: k in todo <==> k in rest || k == n;
    assert forall i | 0 <= i < |ns| :: ns[i] < n by {
      assert ns != [] ==> ns[|ns| - 1] < n;
    }
  }

  /** The recorded pages beyond a limit, in order. */
  method PagesAbove(records: Records, limit: nat) returns (ns: seq<PageNum>)
    requires forall n | n in records :: 1 <= n <= MAX_PAGE
    ensures ListsAbove(ns, records, limit) && InPageOrder(ns)
  {
    hide IsLowest, InPageOrder;
    var todo: set<nat> := set n: nat | n in records.Keys && n > limit;
    ns := [];
    NothingListed();
    while todo != {}
      invariant Listed(ns, todo, records, limit)
      decreases |todo|
    {
      ghost var lowest := LowestExists(todo);
      var n :| n in todo && IsLowest(todo, n);
      assert n in records;
      ListedStep(ns, todo, records, limit, n);
      ns, todo := ns + [n], todo - {n};
    }
  }

  lemma NothingListed()
    ensures InPageOrder([])
  {
  }

  lemma FirstIsLowest(ns: seq<PageNum>, i: nat)
    requires InPageOrder(ns) && i < |ns|
    ensures ns[i] == 1 ==> i == 0
    ensures ns[i] != 1 && i == 0 ==> 1 !in ns
  {
    assert i > 0 ==> ns[0] < ns[i];
  }

  lemma KeysInRange(p: Primitives, e: Engine)
    requires RecordsOk(p, e)
    ensures forall n | n in e.records :: 1 <= n <= MAX_PAGE
  {
  }

  lemma ZeroStep(p: Primitives, e: Engine, ns: seq<PageNum>)
    requires ns != []
    ensures ZeroPages(p, e, ns) == ZeroPages(p, WritePage(p, e, ns[0], Zeros(e.Ps())), ns[1..])
    ensures WritePage(p, e, ns[0], Zeros(e.Ps())).cut == e.cut
  {
    hide ReadPage, FrameImage;
  }

  lemma ZeroDone(p: Primitives, e: Engine, ns: seq<PageNum>)
    requires ns == []
    ensures ZeroPages(p, e, ns) == e
  {
  }

  /** The recorded pages beyond the new end are zeroed, in whatever order `ns` lists them. */
  ghost predicate TruncatedAs(p: Primitives, e: Engine, size: nat, ns: seq<PageNum>, e': Engine, ok: bool) {
    && ValidPageSize(e.Ps()) && ListsAbove(ns, e.records, size / e.Ps())
    && Follows(e, Truncate(p, e, size, ns), e', ok)
  }

  lemma TruncateCases(p: Primitives, e: Engine, size: nat, ns: seq<PageNum>)
    requires ValidPageSize(e.Ps())
    ensures e.Ps() > 0
    ensures var r, pages := Truncate(p, e, size, ns), size / e.Ps();
      if size % e.Ps() != 0 then r == Err(InvalidPageSize)
      else if pages > MAX_PAGE + 1 then r == Err(Range)
      else if size >= e.size then r == Ok(e.(size := size, dirty := true))
      else if 1 in ns then r == Err(InvalidPageSize)
      else r == Ok(ZeroPages(p, e, ns).(cut := Some(if e.cut.Some? then Min(e.cut.value, pages) else pages), size := size,
                                        dirty := true))
  {
    hide ZeroPages;
  }

  lemma ShrinkKeeps(p: Primitives, e: Engine, size: nat, ns: seq<PageNum>)
    requires Wf(p, e) && ValidPageSize(e.Ps()) && ListsAbove(ns, e.records, size / e.Ps()) && size < e.size
    ensures Truncate(p, e, size, ns).Ok? ==> Wf(p, Truncate(p, e, size, ns).value)
  {
    hide Wf, ZeroPages;
    if Truncate(p, e, size, ns).Ok? {
      ShrinkWf(p, e, size, ns);
    }
  }

  // Discarding

  /** The records whose undo copies are among `done` have been put back. */
  ghost predicate PartlyRestored(p: Primitives, e: Engine, done: set<nat>, f: File) {
    && f.(recs := e.file.recs) == e.file && |f.recs| == |e.file.recs|
    && forall k | 0 <= k < |f.recs| ::
        f.recs[k] == (if k < e.head.commitEnd && Owns(p, e, done, k) then Restored(p, e, e.file.recs[k]) else e.file.recs[k])
  }

  ghost predicate Owns(p: Primitives, e: Engine, done: set<nat>, k: nat)
    requires k < |e.file.recs|
  {
    var n := PageNo(p, e.Ps(), e.file.recs[k]);
    n.Some? && n.value in done
  }

  lemma RestoreStep(p: Primitives, e: Engine, done: set<nat>, n: nat, f: File)
    requires RecordsOk(p, e) && n in e.originals && n !in done && PartlyRestored(p, e, done, f)
    ensures var f' := if n in e.records && e.records[n] < e.head.commitEnd && e.records[n] < |f.recs|
                      then WriteBody(f, e.records[n], e.originals[n]) else f;
      PartlyRestored(p, e, done + {n}, f')
    ensures n in e.records ==> e.records[n] < |f.recs|
  {
    hide PageNo;
  }

  lemma RestoreStarts(p: Primitives, e: Engine)
    ensures PartlyRestored(p, e, {}, e.file)
  {
  }

  lemma RestoreDone(p: Primitives, e: Engine, f: File)
    requires Wf(p, e) && PartlyRestored(p, e, e.originals.Keys, f)
    ensures e.head.commitEnd <= |f.recs| && e.head.commitEnd <= |e.file.recs|
    ensures Discard(p, e) ==
      e.(file := f.(recs := f.recs[..e.head.commitEnd]),
         records := map n | n in e.records && e.records[n] < e.head.commitEnd :: e.records[n],
         rawPages := {}, originals := map[], size := e.head.logicalSize, cut := None, dirty := false)
  {
    hide PageNo, PendingOk, SizesOk, BaseOk, Indexes;
    assert f.(recs := f.recs[..e.head.commitEnd]) == Discard(p, e).file;
  }

  // Sealing

  ghost predicate Indexed(e: Engine) {
    e.Ps() > 0 && forall n | n in e.records :: e.records[n] < |e.file.recs|
  }

  lemma IndexedOk(p: Primitives, e: Engine)
    requires Wf(p, e)
    ensures Indexed(e)
  {
  }

  /** What survives of the parent view. */
  function Surviving(parent: map<nat, Bytes>, count: nat, truncate: Option<nat>, records: Records): map<nat, Bytes> {
    map n | n in parent && n <= count && !Above(truncate, n) && n !in records :: parent[n]
  }

  function ParentPages(b: Base): map<nat, Bytes> {
    if b.SealedBase? then b.view.pages else map[]
  }

  predicate Worth(e: Engine, n: nat)
    requires e.Ps() > 0 && n in e.records && e.records[n] < |e.file.recs|
  {
    n <= e.head.logicalSize / e.Ps() && e.file.recs[e.records[n]].body != Zeros(e.Ps())
  }

  /** The records collected so far. */
  ghost function Collected(e: Engine, done: set<nat>): map<nat, Bytes>
    requires Indexed(e)
  {
    map n | n in e.records && n in done && Worth(e, n) :: e.file.recs[e.records[n]].body
  }

  lemma CollectedStep(e: Engine, done: set<nat>, n: nat)
    requires Indexed(e) && n in e.records && n !in done
    ensures Collected(e, done + {n}) ==
      if Worth(e, n) then Collected(e, done)[n := e.file.recs[e.records[n]].body] else Collected(e, done)
  {
    hide Worth;
  }

  lemma MergedStep(a: map<nat, Bytes>, b: map<nat, Bytes>, n: nat, page: Bytes)
    ensures a + b[n := page] == (a + b)[n := page]
  {
  }

  lemma NothingCollected(e: Engine, pages: map<nat, Bytes>)
    requires Indexed(e)
    ensures pages + Collected(e, {}) == pages
  {
  }

  lemma SealedEnds(e: Engine)
    requires Indexed(e)
    ensures Surviving(ParentPages(e.base), e.head.logicalSize / e.Ps(), e.truncate, e.records) + Collected(e, e.records.Keys)
         == SealedPages(e)
  {
  }
}
