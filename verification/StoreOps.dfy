/** The store as the program runs it: one object whose fields every operation updates in place
    (src/store.rs, `Store`). */
module StoreOps {
  import opened Bytes
  import opened Format
  import opened Pages
  import opened Pagefile
  import opened Engine
  import opened Writes
  import opened Transactions
  import opened Publication
  import opened Sealing
  import opened StoreSteps

  class Store {
    const p: Primitives
    var header: ActiveHeader
    var file: File
    var sequence: u64
    var records: Records
    var truncate: Option<nat>
    var base: Base
    var head: HeadState
    var rawPages: set<nat>
    var originals: map<nat, Bytes>
    var size: nat
    var cut: Option<nat>
    var dirty: bool

    ghost function Value(): Engine
      reads this
    {
      Engine(header, file, sequence, records, truncate, base, head, rawPages, originals, size, cut, dirty)
    }

    ghost predicate Valid()
      reads this
    {
      Wf(p, Value())
    }

    constructor (p: Primitives, e: Engine)
      ensures this.p == p && Value() == e
    {
      this.p := p;
      header, file, sequence, records, truncate, base := e.header, e.file, e.sequence, e.records, e.truncate, e.base;
      head, rawPages, originals, size, cut, dirty := e.head, e.rawPages, e.originals, e.size, e.cut, e.dirty;
    }

    /** Takes over every field. */
    method Adopt(e: Engine)
      modifies this
      ensures Value() == e
    {
      header, file, sequence, records, truncate, base := e.header, e.file, e.sequence, e.records, e.truncate, e.base;
      head, rawPages, originals, size, cut, dirty := e.head, e.rawPages, e.originals, e.size, e.cut, e.dirty;
    }

    // Reading

    /** The check made on every record read never fails. */
    method ReadMutablePage(n: nat) returns (r: Result<Bytes>)
      requires Valid() && n in records
      ensures records[n] < |file.recs| && r == Ok(file.recs[records[n]].body)
    {
      assert records[n] < |file.recs| && PageNo(p, head.pageSize, file.recs[records[n]]) == Some(n) by {
        assert Indexes(p, Value().file.recs, Value().Ps(), |Value().file.recs|, Value().records);
      }
      if PageNo(p, head.pageSize, file.recs[records[n]]) != Some(n) {
        return Err(Corrupt);
      }
      return Ok(file.recs[records[n]].body);
    }

    /** A page held here, or nothing when only the sealed view has it. */
    method ReadLocalPage(n: nat) returns (r: Option<Bytes>)
      requires Valid() && n >= 1
      ensures r.Some? ==> r.value == ReadPage(Value(), n)
      ensures r.None? ==>
        base.SealedBase? && Start(head.pageSize, n) < base.view.size
        && ReadPage(Value(), n) == ViewPage(base.view, head.pageSize, n)
    {
      hide PageOf, RecordsOk, PendingOk, SizesOk, BaseOk, ValidPageSize;
      if cut.Some? && n > cut.value && n !in rawPages {
        return Some(Zeros(head.pageSize));
      }
      if n in records {
        var page := ReadMutablePage(n);
        return Some(page.value);
      }
      if truncate.Some? && n > truncate.value {
        return Some(Zeros(head.pageSize));
      }
      match base {
        case Genesis =>
          return Some(Zeros(head.pageSize));
        case SourceBase(s) =>
          if Start(head.pageSize, n) < |s| {
            return Some(PageOf(s, head.pageSize, n));
          }
          PageOfZero(s, head.pageSize, n);
          return Some(Zeros(head.pageSize));
        case SealedBase(v) =>
          if Start(head.pageSize, n) >= v.size {
            return Some(Zeros(head.pageSize));
          }
          return None;
      }
    }

    method FetchPage(n: nat) returns (page: Bytes)
      requires Valid() && n >= 1
      ensures page == ReadPage(Value(), n)
    {
      hide Wf, ReadPage;
      var found := ReadLocalPage(n);
      if found.Some? {
        return found.value;
      }
      return ViewPage(base.view, head.pageSize, n);
    }

    /** Reads what the next page holds of the range. */
    method ReadNext(offset: nat, copied: nat, actual: nat, output: array<byte>) returns (amount: nat)
      requires Valid() && copied < actual <= output.Length && Filled(Value(), offset, copied, output[..])
      modifies output
      ensures 0 < amount <= actual - copied && Filled(Value(), offset, copied + amount, output[..])
    {
      hide Wf, ReadPage, Filled;
      PositivePages(p, Value());
      ghost var e, before := Value(), output[..];
      var ps: nat, at := head.pageSize, offset + copied;
      var n, within := at / ps + 1, at % ps;
      amount := Min(actual - copied, ps - within);
      var page := FetchPage(n);
      PageLengths(p, e, n);
      CopySlice(page, within, amount, output, copied);
      FilledStep(e, offset, copied, within, amount, page, before, output[..]);
    }

    /** One page after another. */
    method ReadByPage(offset: nat, actual: nat, output: array<byte>)
      requires Valid() && actual <= output.Length && Filled(Value(), offset, 0, output[..])
      modifies output
      ensures Filled(Value(), offset, actual, output[..])
    {
      hide Wf, ReadPage, Filled;
      var copied := 0;
      while copied < actual
        invariant 0 <= copied <= actual
        invariant Filled(Value(), offset, copied, output[..])
      {
        var amount := ReadNext(offset, copied, actual, output);
        copied := copied + amount;
      }
    }

    /** `read_at`: the bytes asked for, as far as there are any, and zeros after them. Only a read of more than
        one page that reaches the reserved page number fails. */
    method ReadAt(offset: nat, output: array<byte>) returns (r: Result<nat>)
      requires Valid()
      modifies output
      ensures head.pageSize > 0
      ensures var n := Available(size, offset, output.Length);
        && (r.Ok? <==> n <= head.pageSize || LastPage(head.pageSize, offset + n) <= MAX_PAGE)
        && (r.Ok? ==> r.value == n && output[..] == Slice(Value(), offset, n) + Zeros(output.Length - n))
        && (r.Err? ==> r.error == Range)
      ensures r.Ok? ==> ReadsUpTo(size, offset, output.Length, r.value) && AsShown(Value(), offset, r.value, output[..])
    {
      hide Wf, ReadPage, AsShown, ByteAt, LastPage, Slice;
      PageSizeOk(p, Value());
      forall i | 0 <= i < output.Length {
        output[i] := 0;
      }
      var actual := if output.Length == 0 || offset >= size then 0 else Min(size - offset, output.Length);
      if actual > head.pageSize {
        r := ReadBatched(offset, actual, output);
      } else {
        ReadByPage(offset, actual, output);
        r := Ok(actual);
      }
      if r.Ok? {
        FilledIsSlice(Value(), offset, actual, output[..]);
        FilledIsShown(p, Value(), offset, actual, output[..]);
      }
    }

    /** Pages `first` to `last`, local ones first and then the sealed ones together. */
    method CollectPages(first: nat, last: nat) returns (r: Result<map<nat, Bytes>>)
      requires Valid() && 1 <= first <= last
      ensures r.Ok? <==> last <= MAX_PAGE
      ensures r.Err? ==> r.error == Range
      ensures r.Ok? ==> forall n | first <= n <= last :: n in r.value && r.value[n] == ReadPage(Value(), n)
    {
      hide Wf, ReadPage;
      var pages: map<nat, Bytes>, waiting: seq<nat>, n := map[], [], first;
      while n <= last
        invariant first <= n <= last + 1
        invariant n > first ==> n - 1 <= MAX_PAGE
        invariant forall m | m in pages :: m >= 1 && pages[m] == ReadPage(Value(), m)
        invariant forall m | first <= m < n :: m in pages || m in waiting
        invariant waiting != [] ==> base.SealedBase?
        invariant forall k | 0 <= k < |waiting| ::
          waiting[k] >= 1 && ReadPage(Value(), waiting[k]) == ViewPage(base.view, head.pageSize, waiting[k])
      {
        if n > MAX_PAGE {
          return Err(Range);
        }
        var found := ReadLocalPage(n);
        if found.Some? {
          pages := pages[n := found.value];
        } else {
          waiting := waiting + [n];
        }
        n := n + 1;
      }
      var i := 0;
      while i < |waiting|
        invariant 0 <= i <= |waiting|
        invariant forall m | m in pages :: m >= 1 && pages[m] == ReadPage(Value(), m)
        invariant waiting != [] ==> base.SealedBase?
        invariant forall k | 0 <= k < |waiting| ::
          waiting[k] >= 1 && ReadPage(Value(), waiting[k]) == ViewPage(base.view, head.pageSize, waiting[k])
        invariant forall m | first <= m <= last :: m in pages || m in waiting[i..]
      {
        var m := waiting[i];
        pages := pages[m := ViewPage(base.view, head.pageSize, m)];
        assert forall k | k in waiting[i..] :: k == m || k in waiting[i + 1..];
        i := i + 1;
      }
      return Ok(pages);
    }

    /** One batch of up to 256 pages. */
    method ReadBatch(offset: nat, copied: nat, actual: nat, output: array<byte>) returns (r: Result<nat>)
      requires Valid() && head.pageSize > 0 && copied < actual <= output.Length && Filled(Value(), offset, copied, output[..])
      modifies output
      ensures r.Err? ==> r.error == Range && LastPage(head.pageSize, offset + actual) > MAX_PAGE
      ensures r.Ok? ==> copied < r.value <= actual && Filled(Value(), offset, r.value, output[..])
      ensures r.Ok? && r.value == actual ==> LastPage(head.pageSize, offset + actual) <= MAX_PAGE
    {
      hide Wf, ReadPage, Filled, LastPage;
      ghost var e := Value();
      var ps: nat := head.pageSize;
      var first, end := (offset + copied) / ps + 1, LastPage(ps, offset + actual);
      NextAt(ps, offset + copied, offset + actual, first);
      var last := Min(end, first + 255);
      var pages := CollectPages(first, last);
      if pages.Err? {
        return Err(Range);
      }
      forall n | first <= n <= last
        ensures n in pages.value && |pages.value[n]| == ps
      {
        PageLengths(p, e, n);
      }
      var reached := CopyPages(e, pages.value, ps, first, last, offset, copied, actual, output);
      return Ok(reached);
    }

    /** Batch after batch. */
    method ReadBatched(offset: nat, actual: nat, output: array<byte>) returns (r: Result<nat>)
      requires Valid() && 0 < actual <= output.Length && Filled(Value(), offset, 0, output[..])
      modifies output
      ensures head.pageSize > 0
      ensures r.Ok? <==> LastPage(head.pageSize, offset + actual) <= MAX_PAGE
      ensures r.Err? ==> r.error == Range
      ensures r.Ok? ==> r.value == actual && Filled(Value(), offset, actual, output[..])
    {
      hide Wf, Filled, LastPage;
      PositivePages(p, Value());
      var copied := 0;
      while copied < actual
        invariant 0 <= copied <= actual
        invariant copied == actual ==> LastPage(head.pageSize, offset + actual) <= MAX_PAGE
        invariant Filled(Value(), offset, copied, output[..])
      {
        var reached := ReadBatch(offset, copied, actual, output);
        if reached.Err? {
          return Err(Range);
        }
        copied := reached.value;
      }
      return Ok(copied);
    }

    // Writing

    method WriteMutablePage(n: nat, page: Bytes) returns (r: Result<()>)
      requires Valid() && n >= 1
      modifies this
      ensures Valid()
      ensures r.Ok? <==> |page| == old(head.pageSize) && Acceptable(old(head.pageSize), n, page) && n <= MAX_PAGE
      ensures r.Ok? ==> n <= MAX_PAGE && Value() == WritePage(p, old(Value()), n, page)
      ensures r.Err? ==> Value() == old(Value())
      ensures head == old(head)
    {
      hide Wf, ReadPage, AppendRecord, WriteBody, ParsePageSize, RecordsOk;
      ghost var e := Value();
      if |page| != head.pageSize {
        return Err(Range);
      }
      if n == 1 && ParsePageSize(page) != Some(head.pageSize) {
        return Err(InvalidPageSize);
      }
      if n > MAX_PAGE {
        return Err(Range);
      }
      WfRecords(p, e);
      RecordInRange(p, e, n);
      WritePageWf(p, e, n, page);
      if n in records && records[n] < head.commitEnd && n !in originals {
        var original := FetchPage(n);
        originals := originals[n := original];
      }
      if n in records {
        file, rawPages := WriteBody(file, records[n], page), rawPages + {n};
      } else {
        records, file, rawPages :=
          records[n := |file.recs|], AppendRecord(p, file, head.pageSize, n, page), rawPages + {n};
      }
      assert Value() == WritePage(p, e, n, page);
      return Ok(());
    }

    /** The page a chunk of the data turns into. */
    method BuildPage(at: nat, d: Bytes) returns (page: Bytes)
      requires Valid() && ValidPageSize(head.pageSize) && d != []
      ensures page == NextPage(Value(), at, d) && |page| == head.pageSize
    {
      hide Wf, ReadPage, ValidPageSize;
      PositivePages(p, Value());
      var ps: nat := head.pageSize;
      var n, within := at / ps + 1, at % ps;
      var amount := Min(|d|, ps - within);
      PageLengths(p, Value(), n);
      if within == 0 && amount == ps {
        page := d[..amount];
        assert page == Overlay(Zeros(ps), 0, d[..amount]);
      } else if cut.Some? && n > cut.value {
        page := Overlay(Zeros(ps), within, d[..amount]);
      } else {
        page := FetchPage(n);
        page := Overlay(page, within, d[..amount]);
      }
    }

    /** Writes the page the next bytes of the data fall on. */
    method WriteChunk(at: nat, d: Bytes) returns (r: Result<()>, amount: nat)
      requires Valid() && ValidPageSize(head.pageSize) && d != []
      modifies this
      ensures head == old(head) && amount == Amount(head.pageSize, at, d)
      ensures ChunkWritten(p, old(Value()), at, d, Value(), r.Ok?)
      ensures Valid()
    {
      hide Wf, NextPage, WritePage, Acceptable;
      var ps: nat := head.pageSize;
      amount := Min(|d|, ps - at % ps);
      var page := BuildPage(at, d);
      r := WriteMutablePage(at / ps + 1, page);
    }

    /** Page by page, up to the first page that is refused. */
    method WriteMutablePages(at: nat, d: Bytes) returns (r: Result<()>)
      requires Valid() && d != []
      modifies this
      ensures ValidPageSize(old(head.pageSize)) && WritesWhatFits(p, old(Value()), at, d, Value(), r.Ok?)
      ensures Valid() && head == old(head)
    {
      hide Wf, ValidPageSize, WritesWhatFits, ChunkWritten, Progress;
      ghost var e0 := Value();
      PageSizeOk(p, e0);
      PageSizePositive(e0.Ps());
      var consumed := 0;
      ProgressStarts(p, e0, at, d);
      while consumed < |d|
        invariant 0 <= consumed <= |d| && Valid() && head == old(head)
        invariant Progress(p, e0, at, d, consumed, Value())
      {
        ghost var e := Value();
        var w, amount := WriteChunk(at + consumed, d[consumed..]);
        if w.Err? {
          ProgressStops(p, e0, at, d, consumed, e, Value());
          return w;
        }
        ProgressGoesOn(p, e0, at, d, consumed, e, Value());
        consumed := consumed + amount;
      }
      ProgressEnds(p, e0, at, d, Value());
      return Ok(());
    }

    /** `write_at`. A write that ends below the reserved page is the specified write or changes nothing; a longer
        one fails after writing what fits. */
    method WriteAt(at: nat, d: Bytes) returns (r: Result<nat>)
      requires Valid()
      modifies this
      ensures ValidPageSize(old(head.pageSize))
      ensures at + |d| <= MAX_PAGE * old(head.pageSize) ==> Follows(old(Value()), Writes.WriteAt(p, old(Value()), at, d), Value(), r.Ok?)
      ensures at + |d| > MAX_PAGE * old(head.pageSize) && d != [] ==> WritesWhatFits(p, old(Value()), at, d, Value(), r.Ok?) && r.Err?
      ensures r.Ok? ==> r.value == |d|
      ensures Valid() && head == old(head)
    {
      hide Wf, ValidPageSize, NextPage, WriteChunks, ParsePageSize;
      ghost var e := Value();
      PageSizeOk(p, e);
      if d == [] {
        return Ok(0);
      }
      WholeFits(e.Ps(), at, d);
      var w := WriteMutablePages(at, d);
      if w.Err? {
        return Err(w.error);
      }
      GrownWf(p, Value(), at + |d|);
      size := if at + |d| > size then at + |d| else size;
      dirty := true;
      return Ok(|d|);
    }

    // Resizing

    /** Zeroes the listed pages; page 1, which comes first if at all, is refused. */
    method ZeroBeyond(beyond: seq<PageNum>) returns (r: Result<()>)
      requires Valid() && InPageOrder(beyond)
      modifies this
      ensures r.Ok? <==> 1 !in beyond
      ensures Value() == if r.Ok? then ZeroPages(p, old(Value()), beyond) else old(Value())
      ensures Valid() && head == old(head) && cut == old(cut)
    {
      hide Wf, ZeroPages, ParsePageSize, WritePage;
      ghost var e := Value();
      var i := 0;
      assert beyond[0..] == beyond;
      while i < |beyond|
        invariant 0 <= i <= |beyond| && Valid() && head == old(head) && cut == old(cut)
        invariant i > 0 ==> 1 !in beyond
        invariant i == 0 ==> Value() == e
        invariant ZeroPages(p, Value(), beyond[i..]) == ZeroPages(p, e, beyond)
      {
        ZeroStep(p, Value(), beyond[i..]);
        ZeroPageRefused(head.pageSize);
        FirstIsLowest(beyond, i);
        var w := WriteMutablePage(beyond[i], Zeros(head.pageSize));
        if w.Err? {
          return w;
        }
        assert beyond[i..][1..] == beyond[i + 1..];
        i := i + 1;
      }
      ZeroDone(p, Value(), beyond[i..]);
      return Ok(());
    }

    /** `truncate`: recorded pages beyond the new end are zeroed in ascending order. */
    method Truncate(target: nat) returns (r: Result<()>, ghost ns: seq<PageNum>)
      requires Valid()
      modifies this
      ensures TruncatedAs(p, old(Value()), target, ns, Value(), r.Ok?)
      ensures Valid()
    {
      hide Wf, ValidPageSize, ZeroPages, ListsAbove, RecordsOk, Transactions.Truncate;
      ghost var e := Value();
      PageSizeOk(p, e);
      PageSizePositive(e.Ps());
      WfRecords(p, e);
      KeysInRange(p, e);
      var pages := target / head.pageSize;
      var beyond := PagesAbove(records, pages);
      ns := beyond;
      TruncateCases(p, e, target, ns);
      if target % head.pageSize != 0 {
        return Err(InvalidPageSize), ns;
      }
      if pages > MAX_PAGE + 1 {
        return Err(Range), ns;
      }
      if target < size {
        ShrinkKeeps(p, e, target, ns);
        r := ZeroBeyond(beyond);
        if r.Err? {
          return;
        }
        cut := Some(if cut.Some? then Min(cut.value, pages) else pages);
      } else {
        SizeBound(e.Ps(), target);
        GrowWf(p, e, target);
        r := Ok(());
      }
      size, dirty := target, true;
    }

    // Ending a transaction

    /** Writes the undo copies back, in any order. */
    method RestoreBodies(undo: map<nat, Bytes>)
      requires Valid() && undo == originals
      modifies this`file
      ensures PartlyRestored(p, old(Value()), undo.Keys, file)
    {
      hide Wf, RecordsOk, PartlyRestored, WriteBody;
      ghost var e := Value();
      WfRecords(p, e);
      RestoreStarts(p, e);
      assert undo.Keys - undo.Keys == {};
      var todo := undo.Keys;
      while todo != {}
        invariant todo <= undo.Keys
        invariant PartlyRestored(p, e, undo.Keys - todo, file)
        decreases |todo|
      {
        var n :| n in todo;
        RestoreStep(p, e, undo.Keys - todo, n, file);
        assert undo.Keys - (todo - {n}) == (undo.Keys - todo) + {n};
        if n in records && records[n] < head.commitEnd {
          file := WriteBody(file, records[n], undo[n]);
        }
        todo := todo - {n};
      }
      assert undo.Keys - todo == undo.Keys;
    }

    /** `discard_mutable_pending`: undo copies go back, then everything appended is cut off. */
    method DiscardPending()
      requires Valid()
      modifies this
      ensures old(head.commitEnd) <= |old(file.recs)| && Value() == Discard(p, old(Value()))
      ensures Valid() && !Value().HasPending()
    {
      hide Wf, RecordsOk, PartlyRestored, Discard;
      ghost var e := Value();
      WfRecords(p, e);
      RecordInRange(p, e, 1);
      DiscardWf(p, e);
      RestoreBodies(originals);
      RestoreDone(p, e, file);
      var kept := map n | n in records && records[n] < head.commitEnd :: records[n];
      Adopt(Engine(header, file.(recs := file.recs[..head.commitEnd]), sequence, kept, truncate, base, head, {},
                   map[], head.logicalSize, None, false));
    }

    /** `publish_inner`: a new state sector in the slot the current one does not use. */
    method Publish(now: u64) returns (r: Result<()>)
      requires Valid()
      modifies this
      ensures Publishable(old(Value())) && Follows(old(Value()), Publication.Publish(p, old(Value()), now), Value(), r.Ok?)
      ensures Valid()
    {
      hide Wf, StateImage, WriteSlot;
      ghost var e := Value();
      WfPublishable(p, e);
      RecordCount(p, e);
      if !(dirty || rawPages != {} || originals != map[]) {
        return Ok(());
      }
      if head.txid + 1 >= U64_LIMIT {
        return Err(Range);
      }
      if sequence + 1 >= U64_LIMIT {
        return Err(Range);
      }
      PublishWf(p, e, now);
      var next := LowerOf(truncate, cut);
      var first := if head.oldest == 0 then now else head.oldest;
      var state := ActiveState(header.database, sequence + 1, head.txid + 1, size, head.pageSize, head.history, now, first,
                               |records|, if next.Some? then Some(next.value) else None);
      var committed :=
        HeadState(head.pageSize, size, head.txid + 1, head.history, StateOffset(sequence + 1), |file.recs|, first, now);
      Adopt(Engine(header, WriteSlot(file, sequence + 1, StateImage(p, state)), sequence + 1, records, next, base,
                   committed, {}, map[], size, None, false));
      return Ok(());
    }

    // Opening

    /** `load_local`: every check the file must pass, then the fields rebuilt from it. */
    method LoadLocal(f: File, h: ActiveHeader, view: Option<View>, source: Option<Bytes>) returns (r: Result<()>)
      modifies this
      ensures Follows(old(Value()), Publication.LoadLocal(p, f, h, view, source), Value(), r.Ok?)
    {
      hide HeaderFitsView, StateFitsHeader, SourceFits, ReadActiveState, LoadRecords, BaseFor, HeadFor;
      if !HeaderFitsView(p, h, view) {
        return Err(IdentityMismatch);
      }
      var s := ScanStates(p, f, h.database);
      if s.Err? {
        return Err(s.error);
      }
      var state := s.value;
      if !StateFitsHeader(state, h) {
        return Err(IdentityMismatch);
      }
      var found := ScanRecords(p, f.recs, state.pageSize, state.recordCount);
      if found.Err? {
        return Err(found.error);
      }
      if !SourceFits(p, h, source) {
        return Err(IdentityMismatch);
      }
      var last: Option<nat> := if state.truncatePages.Some? then Some(state.truncatePages.value) else None;
      Adopt(Engine(h, f, state.sequence, found.value, last, BaseFor(h, view, source), HeadFor(state, h), {}, map[],
                   state.logicalSize, None, false));
      return Ok(());
    }

    // Sealing

    /** The pages a seal keeps: the surviving parent overlaid with the records, one record at a time. */
    method CollectSealed() returns (pages: map<nat, Bytes>)
      requires Valid() && !base.SourceBase?
      ensures Indexed(Value()) && pages == SealedPages(Value())
    {
      hide Wf, PageNo, Collected, SealedPages, Surviving, ParentPages;
      ghost var e := Value();
      IndexedOk(p, e);
      var count := head.logicalSize / head.pageSize;
      var kept := Surviving(ParentPages(base), count, truncate, records);
      pages := kept;
      var todo := records.Keys;
      NothingCollected(e, kept);
      assert records.Keys - todo == {};
      while todo != {}
        invariant todo <= records.Keys
        invariant pages == kept + Collected(e, records.Keys - todo)
        decreases |todo|
      {
        var n :| n in todo;
        CollectedStep(e, records.Keys - todo, n);
        assert records.Keys - (todo - {n}) == (records.Keys - todo) + {n};
        if n <= count {
          var page := ReadMutablePage(n);
          if page.value != Zeros(head.pageSize) {
            MergedStep(kept, Collected(e, records.Keys - todo), n, page.value);
            pages := pages[n := page.value];
          }
        }
        todo := todo - {n};
      }
      assert records.Keys - todo == records.Keys;
      SealedEnds(e);
    }

    /** `seal_active` of the records under exclusion: a new view and an empty file over it. */
    method SealActive(id: Digest, history: Digest) returns (r: Result<()>)
      requires Valid() && !Value().HasPending() && head.logicalSize < U64_LIMIT
      modifies this
      ensures Indexed(old(Value()))
      ensures r.Err? || old(head.txid) < old(header.startTxid) ==> Value() == old(Value())
      ensures r.Ok? && old(head.txid) >= old(header.startTxid) ==>
        old(head.txid) + 1 < U64_LIMIT && Value() == Seal(p, old(Value()), id, history)
      ensures r.Err? <==>
        || old(base).SourceBase?
        || (old(head.txid) >= old(header.startTxid)
            && (old(head.logicalSize) / old(head.pageSize) > MAX_PAGE || old(head.txid) + 1 >= U64_LIMIT))
    {
      hide Wf, SealedPages, FreshFile;
      IndexedOk(p, Value());
      if base.SourceBase? {
        return Err(Busy);
      }
      if head.txid < header.startTxid {
        return Ok(());
      }
      if head.logicalSize / head.pageSize > MAX_PAGE || head.txid + 1 >= U64_LIMIT {
        return Err(Range);
      }
      var pages := CollectSealed();
      var view := View(id, header.database, head.logicalSize, head.pageSize, head.txid, history, pages);
      var h := ActiveHeader(header.attachment, header.database, head.pageSize, head.txid + 1, history, id, head.logicalSize,
                            header.policy, header.layout, header.sourceBytes, header.sourceDigest);
      var s := ActiveState(header.database, 1, head.txid, head.logicalSize, head.pageSize, history, 0, 0, 0, None);
      var next := head.(history := history, commitOffset := 0, commitEnd := 0, oldest := 0, last := 0);
      Adopt(Engine(h, FreshFile(p, h, s, []), 1, map[], None, SealedBase(view), next, {}, map[],
                   head.logicalSize, None, false));
      return Ok(());
    }
  }
}
