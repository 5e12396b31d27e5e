/** The index as the program runs it: loops over the chain and over the records of a run, and an object
    whose fields are updated in place (src/storage/catalog.rs, `Index`). */
module IndexOps {
  import opened Bytes
  import opened IndexRun
  import opened Index

  /** An object store: content-addressed, append-only, refusing to replace an object. */
  class ObjectStore {
    var objects: Objects

    constructor ()
      ensures objects == map[]
    {
      objects := map[];
    }

    method Put(id: Id, b: Bytes, fault: PutFault) returns (r: Result<()>)
      modifies this
      ensures r.Ok? <==> fault.NoFault? && !Conflicts(old(objects), id, b)
      ensures r.Err? ==> r.error == Backend
      ensures objects ==
        if fault.Refused? || Conflicts(old(objects), id, b) then old(objects) else old(objects)[id := b]
    {
      if fault.Refused? || (id in objects && objects[id] != b) {
        return Err(Backend);
      }
      objects := objects[id := b];
      r := if fault.NoFault? then Ok(()) else Err(Backend);
    }
  }

  // Reading the records of one run into the table resolved so far

  function Continue(done: seq<Record>, r: Result<Step<seq<Record>>>): Result<Step<seq<Record>>> {
    if r.Ok? then Ok(Step(done + r.value.value, r.value.rest)) else r
  }

  lemma {:induction false} TableSnoc(done: seq<Record>, r: Record)
    ensures TableOf(done + [r]) == map[r.key := r.value] + TableOf(done)
  {
    if done != [] {
      TableSnoc(done[1..], r);
      assert (done + [r])[1..] == done[1..] + [r];
    }
  }

  lemma ContinueNone(r: Result<Step<seq<Record>>>)
    ensures Continue([], r) == r
  {
    if r.Ok? {
      assert [] + r.value.value == r.value.value;
    }
  }

  lemma ContinueStep(done: seq<Record>, b: Bytes, count: nat, previous: Option<Key>)
    requires count > 0
    ensures ParseRecord(b, previous).Err? ==>
      Continue(done, ParseRecords(b, count, previous)) == Err(ParseRecord(b, previous).error)
    ensures ParseRecord(b, previous).Ok? ==>
      var s := ParseRecord(b, previous).value;
      Continue(done, ParseRecords(b, count, previous))
        == Continue(done + [s.value], ParseRecords(s.rest, count - 1, Some(s.value.key)))
  {
    hide ParseRecord;
    if ParseRecord(b, previous).Ok? {
      var s := ParseRecord(b, previous).value;
      var others := ParseRecords(s.rest, count - 1, Some(s.value.key));
      if others.Ok? {
        assert done + ([s.value] + others.value.value) == done + [s.value] + others.value.value;
      }
    }
  }

  lemma NothingRead(newer: Table)
    ensures TableOf([]) + newer == newer
  {
  }

  lemma ContinueDone(done: seq<Record>, b: Bytes, previous: Option<Key>)
    ensures Continue(done, ParseRecords(b, 0, previous)) == Ok(Step(done, b))
  {
    assert done + [] == done;
  }

  /** Parses one run, adding only the keys no newer run has mentioned. */
  method MergeRun(raw: Bytes, newer: Table) returns (r: Result<(Option<Id>, Table)>)
    ensures match ParseRun(raw)
      case Ok(run) => r == Ok((run.parent, run.table + newer))
      case Err(e) => r == Err(e)
  {
    hide ParseRecord, ParseId, ParseRecords, TableOf, CountGuard, TakeU32;
    var parent := ParseId(raw);
    if parent.Err? {
      return Err(parent.error);
    }
    var count := TakeU32(parent.value.rest);
    if count.Err? {
      return Err(count.error);
    }
    if !CountGuard(count.value.value, |raw|) {
      return Err(Range);
    }
    var resolved, rest, previous: Option<Key> := newer, count.value.rest, None;
    ghost var done: seq<Record> := [];
    ghost var all := ParseRecords(rest, count.value.value, None);
    ContinueNone(all);
    NothingRead(newer);
    for i := 0 to count.value.value
      invariant all == Continue(done, ParseRecords(rest, count.value.value - i, previous))
      invariant resolved == TableOf(done) + newer
    {
      var s := ParseRecord(rest, previous);
      ContinueStep(done, rest, count.value.value - i, previous);
      if s.Err? {
        return Err(s.error);
      }
      TableSnoc(done, s.value.value);
      done := done + [s.value.value];
      if s.value.value.key !in resolved {
        resolved := resolved[s.value.value.key := s.value.value.value];
      }
      rest, previous := s.value.rest, Some(s.value.value.key);
    }
    ContinueDone(done, rest, previous);
    r := if rest != [] then Err(Corrupt) else Ok((parent.value.value, resolved));
  }

  // Printing a table in key order

  lemma ListingFrom(t: Table, k: Key)
    requires IsLeast(k, t.Keys)
    ensures t != map[] && Listing(t) == [Record(k, t[k])] + Listing(t - {k})
  {
    ListingHead(t);
    LeastUnique(Listing(t)[0].key, k, t.Keys);
  }

  lemma PrintNext(raw: Bytes, t: Table, k: Key)
    requires IsLeast(k, t.Keys)
    ensures (raw + PrintRecord(Record(k, t[k]))) + PrintRecords(Listing(t - {k})) == raw + PrintRecords(Listing(t))
  {
    hide PrintRecord, PrintRecords, Listing, Less;
    var r, rs := Record(k, t[k]), Listing(t - {k});
    ListingFrom(t, k);
    PrintCons(r, rs);
  }

  lemma PrintCons(r: Record, rs: seq<Record>)
    ensures PrintRecords([r] + rs) == PrintRecord(r) + PrintRecords(rs)
  {
    hide PrintRecord;
    assert ([r] + rs)[1..] == rs;
  }

  /** Serialises a run, checking every length as it goes. */
  method Serialise(run: Run) returns (r: Result<Bytes>)
    ensures r == if Writable(run) then Ok(PrintRun(run)) else Err(Range)
  {
    hide PrintRecord, PrintId, Less, PrintRecords, Listing, Length;
    if |run.table| >= U32_LIMIT {
      return Err(Range);
    }
    var raw, todo := PrintId(run.parent) + Length(|run.table|), run.table;
    while todo != map[]
      invariant todo.Keys <= run.table.Keys
      invariant forall k | k in todo :: todo[k] == run.table[k]
      invariant forall k | k in run.table && k !in todo :: PrintableRecord(Record(k, run.table[k]))
      invariant raw + PrintRecords(Listing(todo)) == PrintRun(run)
      decreases |todo|
    {
      LeastExists(todo.Keys);
      var k :| k in todo && forall j | j in todo :: j == k || Less(k, j);
      var x := Record(k, todo[k]);
      if !PrintableRecord(x) {
        return Err(Range);
      }
      PrintNext(raw, todo, k);
      raw := raw + PrintRecord(x);
      Shrinks(todo, k);
      todo := todo - {k};
    }
    PrintNone();
    assert raw + [] == raw;
    assert Printable(run.table);
    r := if |raw| > INDEX_LIMIT then Err(Range) else Ok(raw);
  }

  lemma PrintNone()
    ensures PrintRecords(Listing(map[])) == []
  {
  }

  // The index object

  class LiveIndex {
    var head: Option<Id>
    var objects: set<Id>
    var entries: Entries
    var dirty: Table
    var depth: nat

    function Value(): IndexValue
      reads this
    {
      IndexValue(head, objects, entries, dirty, depth)
    }

    constructor ()
      ensures Value() == EMPTY_INDEX
    {
      head, objects, entries, dirty, depth := None, {}, map[], map[], 0;
    }

    constructor Of(v: IndexValue)
      ensures Value() == v
    {
      head, objects, entries, dirty, depth := v.head, v.objects, v.entries, v.dirty, v.depth;
    }

    method Insert(key: Key, value: Bytes)
      modifies this
      ensures Value() == Index.Insert(old(Value()), key, value)
    {
      if !(key in entries && entries[key] == value) {
        entries := entries[key := value];
        dirty := dirty[key := Some(value)];
      }
    }

    method Remove(key: Key)
      modifies this
      ensures Value() == Index.Remove(old(Value()), key)
    {
      if key in entries {
        entries := entries - {key};
        dirty := dirty[key := None];
      }
    }

    method Flush(p: Primitives, store: ObjectStore, fault: PutFault) returns (r: Result<()>)
      modifies this, store
      ensures Flushed(Value(), store.objects, r) == Index.Flush(p, old(store.objects), old(Value()), fault)
    {
      hide PrintRun, Printable, Envelope;
      if dirty == map[] && depth < CHECKPOINT_DEPTH {
        return Ok(());
      }
      var checkpoint := head.None? || depth >= CHECKPOINT_DEPTH;
      var run := if checkpoint then Run(None, map k | k in entries :: Some(entries[k])) else Run(head, dirty);
      assert run == NextRun(Value());
      var raw := Serialise(run);
      if raw.Err? {
        return Err(Range);
      }
      var b := Envelope(p, raw.value);
      var id := p.blake3(b);
      r := store.Put(id, b, fault);
      if r.Err? {
        return;
      }
      if checkpoint {
        objects, depth := {}, 0;
      }
      head, objects, depth, dirty := Some(id), objects + {id}, depth + 1, map[];
      r := Ok(());
    }
  }

  /** Walks the chain from a head, newest run first. */
  method LoadIndex(p: Primitives, store: ObjectStore, head: Option<Id>) returns (r: Result<LiveIndex>)
    ensures match Index.Load(p, store.objects, head)
      case Ok(v) => r.Ok? && fresh(r.value) && r.value.Value() == v
      case Err(e) => r == Err(e)
  {
    hide ParseRun, OpenEnvelope;
    var next, objects: set<Id>, depth: nat, decoded: nat, resolved: Table := head, {}, 0, 0, map[];
    ghost var all := LoadChain(p, store.objects, head, Walk({}, 0, 0, map[]));
    while next.Some?
      invariant depth <= MAX_DEPTH && decoded <= INDEX_LIMIT
      invariant all == LoadChain(p, store.objects, next, Walk(objects, depth, decoded, resolved))
      decreases MAX_DEPTH - depth
    {
      var id := next.value;
      if depth >= MAX_DEPTH || id in objects {
        return Err(Range);
      }
      objects, depth := objects + {id}, depth + 1;
      if id !in store.objects {
        return Err(Missing);
      }
      var b := store.objects[id];
      if |b| == 0 || |b| > INDEX_LIMIT {
        return Err(Range);
      }
      if p.blake3(b) != id {
        return Err(Corrupt);
      }
      var raw := OpenEnvelope(p, b, INDEX_LIMIT - decoded);
      if raw.Err? {
        return Err(raw.error);
      }
      OpenedWithin(p, store.objects, id, INDEX_LIMIT - decoded);
      decoded := decoded + |raw.value|;
      var merged := MergeRun(raw.value, resolved);
      if merged.Err? {
        return Err(merged.error);
      }
      next, resolved := merged.value.0, merged.value.1;
    }
    var index := new LiveIndex.Of(IndexValue(head, objects, Live(resolved), map[], depth));
    r := Ok(index);
  }
}
