/** Whole histories of one index over a shared object store, compared with a plain map. */
module IndexHistory {
  import opened Bytes
  import opened IndexRun
  import opened Index
  import opened IndexProofs

  /** What can happen: this index is edited, flushed (with any transport fault) or reloaded from its head,
      another writer adds an object, or a collector removes any objects outside this index's chain. */
  datatype Op =
    | InsertOp(key: Key, value: Bytes)
    | RemoveOp(key: Key)
    | FlushOp(fault: PutFault)
    | ReloadOp
    | ForeignPut(id: Id, bytes: Bytes)
    | Collect(kept: set<Id>)

  datatype World = World(objs: Objects, v: IndexValue)

  ghost function Next(p: Primitives, w: World, op: Op): World {
    match op
    case InsertOp(k, x) => w.(v := Insert(w.v, k, x))
    case RemoveOp(k) => w.(v := Remove(w.v, k))
    case FlushOp(fault) => var f := Flush(p, w.objs, w.v, fault); World(f.objs, f.value)
    case ReloadOp => var r := Load(p, w.objs, w.v.head); if r.Ok? then w.(v := r.value) else w
    case ForeignPut(id, b) => if Conflicts(w.objs, id, b) then w else w.(objs := w.objs[id := b])
    case Collect(kept) => w.(objs := map id | id in w.objs && (id in kept || id in w.v.objects) :: w.objs[id])
  }

  /** Whether the caller is told the operation succeeded. */
  ghost predicate Reported(p: Primitives, w: World, op: Op) {
    match op
    case FlushOp(fault) => Flush(p, w.objs, w.v, fault).result.Ok?
    case ReloadOp => Load(p, w.objs, w.v.head).Ok?
    case _ => true
  }

  /** The reference: a working map and the map as of the last flush that reported success. */
  datatype Maps = Maps(current: Entries, saved: Entries)

  function Reference(m: Maps, op: Op, reported: bool): Maps {
    match op
    case InsertOp(k, x) => m.(current := m.current[k := x])
    case RemoveOp(k) => m.(current := m.current - {k})
    case FlushOp(_) => if reported then Maps(m.current, m.current) else m
    case ReloadOp => if reported then Maps(m.saved, m.saved) else m
    case _ => m
  }

  ghost function Execute(p: Primitives, w: World, ops: seq<Op>): World
    decreases |ops|
  {
    if ops == [] then w else Execute(p, Next(p, w, ops[0]), ops[1..])
  }

  ghost function Follow(p: Primitives, w: World, m: Maps, ops: seq<Op>): Maps
    decreases |ops|
  {
    if ops == [] then m
    else Follow(p, Next(p, w, ops[0]), Reference(m, ops[0], Reported(p, w, ops[0])), ops[1..])
  }

  ghost predicate Matches(p: Primitives, w: World, m: Maps, links: seq<Link>) {
    && Agrees(p, w.objs, w.v, links)
    && w.v.entries == m.current
    && Live(Resolve(links)) == m.saved
    && w.v.depth <= CHECKPOINT_DEPTH
  }

  lemma FlushMatches(p: Primitives, w: World, m: Maps, links: seq<Link>, fault: PutFault) returns (next: seq<Link>)
    requires Lossless(p) && Matches(p, w, m, links)
    ensures Matches(p, Next(p, w, FlushOp(fault)), Reference(m, FlushOp(fault), Reported(p, w, FlushOp(fault))), next)
  {
    hide Flush, NextLinks, IsChain, Resolve, Live, Ids;
    FlushAgrees(p, w.objs, w.v, links, fault);
    next := if Flush(p, w.objs, w.v, fault).result.Ok? then NextLinks(p, w.v, links) else links;
    assert Resolve(next) + map[] == Resolve(next);
  }

  lemma ReloadMatches(p: Primitives, w: World, m: Maps, links: seq<Link>)
    requires Matches(p, w, m, links)
    ensures Matches(p, Next(p, w, ReloadOp), Reference(m, ReloadOp, Reported(p, w, ReloadOp)), links)
  {
    hide Load, IsChain, Resolve, Live, Ids, Loadable;
    LoadOfChain(p, w.objs, links);
    assert Resolve(links) + map[] == Resolve(links);
  }

  lemma CollectMatches(p: Primitives, w: World, m: Maps, links: seq<Link>, kept: set<Id>)
    requires Matches(p, w, m, links)
    ensures Matches(p, Next(p, w, Collect(kept)), m, links)
  {
    var w' := Next(p, w, Collect(kept));
    forall l | l in links
      ensures l.id in w.objs && l.id in w'.objs && w'.objs[l.id] == w.objs[l.id]
    {
      var i :| 0 <= i < |links| && links[i] == l;
      ChainHolds(p, w.objs, links, i);
      assert l.id in Ids(links);
    }
    ChainGrows(p, w.objs, w'.objs, links);
  }

  lemma NextMatches(p: Primitives, w: World, m: Maps, links: seq<Link>, op: Op) returns (next: seq<Link>)
    requires Lossless(p) && Matches(p, w, m, links)
    ensures Matches(p, Next(p, w, op), Reference(m, op, Reported(p, w, op)), next)
  {
    hide Flush, Load, NextLinks, IsChain, Resolve, Live, Ids;
    next := links;
    match op
    case InsertOp(k, x) => InsertAgrees(p, w.objs, w.v, links, k, x);
    case RemoveOp(k) => RemoveAgrees(p, w.objs, w.v, links, k);
    case FlushOp(fault) => next := FlushMatches(p, w, m, links, fault);
    case ReloadOp => ReloadMatches(p, w, m, links);
    case ForeignPut(id, b) =>
      if !Conflicts(w.objs, id, b) {
        ChainKept(p, w.objs, links, id, b);
      }
    case Collect(kept) => CollectMatches(p, w, m, links, kept);
  }

  lemma {:induction false} ExecuteMatches(p: Primitives, w: World, m: Maps, links: seq<Link>, ops: seq<Op>)
    returns (last: seq<Link>)
    requires Lossless(p) && Matches(p, w, m, links)
    ensures Matches(p, Execute(p, w, ops), Follow(p, w, m, ops), last)
    decreases |ops|
  {
    hide Next, Matches, Reported, Reference;
    last := links;
    if ops != [] {
      var next := NextMatches(p, w, m, links, ops[0]);
      last := ExecuteMatches(p, Next(p, w, ops[0]), Reference(m, ops[0], Reported(p, w, ops[0])), next, ops[1..]);
    }
  }

  /** For every history from an empty index: the entries are those of a plain map, the chain never grows
      past sixteen runs, and loading the head returns the last saved map exactly when the chain is
      within the loader's limits. */
  lemma IndexIsAMap(p: Primitives, objs: Objects, ops: seq<Op>)
    requires Lossless(p)
    ensures var w := Execute(p, World(objs, EMPTY_INDEX), ops);
      var m := Follow(p, World(objs, EMPTY_INDEX), Maps(map[], map[]), ops);
      && w.v.entries == m.current
      && w.v.depth <= CHECKPOINT_DEPTH
      && exists links ::
        && IsChain(p, w.objs, links)
        && w.v.objects == Ids(links)
        && (Load(p, w.objs, w.v.head).Ok? <==> Loadable(w.objs, links))
        && (Loadable(w.objs, links) ==> Load(p, w.objs, w.v.head).value.entries == m.saved)
  {
    var w, m := World(objs, EMPTY_INDEX), Maps(map[], map[]);
    assert Matches(p, w, m, []);
    hide Load, IsChain, Resolve, Live, Ids, Loadable, Execute, Follow;
    var links := ExecuteMatches(p, w, m, [], ops);
    LoadOfChain(p, Execute(p, w, ops).objs, links);
  }

  // The count guard and short tombstones

  /** `n` removed one-byte keys. */
  function ShortTombstones(n: nat): Table
    requires n <= 256
  {
    if n == 0 then map[] else ShortTombstones(n - 1)[[n - 1] := None]
  }

  lemma {:induction false} ShortTombstonesSize(n: nat)
    requires n <= 256
    ensures |ShortTombstones(n)| == n
    ensures forall k | k in ShortTombstones(n) :: |k| == 1 && k[0] < n && ShortTombstones(n)[k] == None
  {
    if n > 0 {
      ShortTombstonesSize(n - 1);
      assert [n - 1] !in ShortTombstones(n - 1);
      assert ShortTombstones(n).Keys == ShortTombstones(n - 1).Keys + {[n - 1]};
    }
  }

  lemma {:induction false} ShortRecordsLength(rs: seq<Record>)
    requires forall r | r in rs :: |r.key| == 1 && r.value.None?
    ensures |PrintRecords(rs)| == 6 * |rs|
  {
    if rs != [] {
      assert |PrintRecord(rs[0])| == 6;
      ShortRecordsLength(rs[1..]);
    }
  }

  /** Deleting thirteen or more one-byte keys in one flush writes a run the loader refuses; twelve or
      fewer are fine. */
  lemma ShortTombstonesGuard(parent: Id, n: nat)
    requires n <= 256
    ensures var run := Run(Some(parent), ShortTombstones(n));
      && Writable(run)
      && (CountGuard(|run.table|, |PrintRun(run)|) <==> n <= 12)
  {
    var run := Run(Some(parent), ShortTombstones(n));
    ShortTombstonesSize(n);
    ShortRecordsLength(Listing(run.table));
  }

  lemma ShortDeletionsUnloadable(p: Primitives, objs: Objects, v: IndexValue, links: seq<Link>)
    requires Lossless(p) && Agrees(p, objs, v, links)
    requires v.head.Some? && v.depth < CHECKPOINT_DEPTH && v.dirty == ShortTombstones(13)
    requires Flush(p, objs, v, NoFault).result.Ok?
    ensures Load(p, Flush(p, objs, v, NoFault).objs, Flush(p, objs, v, NoFault).value.head).Err?
  {
    hide Load, Agrees, PrintRun, Flush, ShortTombstones, CountGuard, FlushId;
    ShortTombstonesSize(13);
    ShortTombstonesGuard(v.head.value, 13);
    FlushThenLoad(p, objs, v, links, NoFault);
    var next := NextLinks(p, v, links);
    assert next[0].run == Run(v.head, v.dirty);
    assert next[0] in next;
  }

  // A history that ends in such a run

  /** The one-byte keys below n, each with an empty value. */
  function ShortEntries(n: nat): Entries
    requires n <= 256
  {
    map k: Key | k in ShortTombstones(n) :: []
  }

  function Inserts(n: nat): seq<Op>
    requires n <= 256
  {
    if n == 0 then [] else Inserts(n - 1) + [InsertOp([n - 1], [])]
  }

  function Removes(n: nat): seq<Op>
    requires n <= 256
  {
    if n == 0 then [] else Removes(n - 1) + [RemoveOp([n - 1])]
  }

  lemma {:induction false} ExecuteConcat(p: Primitives, w: World, a: seq<Op>, b: seq<Op>)
    ensures Execute(p, w, a + b) == Execute(p, Execute(p, w, a), b)
    decreases |a|
  {
    hide Next;
    if a == [] {
      assert a + b == b;
    } else {
      assert (a + b)[1..] == a[1..] + b;
      ExecuteConcat(p, Next(p, w, a[0]), a[1..], b);
    }
  }

  lemma ExecuteSnoc(p: Primitives, w: World, a: seq<Op>, op: Op)
    ensures Execute(p, w, a + [op]) == Next(p, Execute(p, w, a), op)
  {
    hide Next;
    ExecuteConcat(p, w, a, [op]);
    assert [op][1..] == [];
  }

  lemma ShortKeys(n: nat)
    requires 0 < n <= 256
    ensures [n - 1] !in ShortTombstones(n - 1) && ShortTombstones(n).Keys == ShortTombstones(n - 1).Keys + {[n - 1]}
  {
    ShortTombstonesSize(n - 1);
  }

  lemma {:induction false} AfterInserts(p: Primitives, n: nat)
    requires n <= 256
    ensures var w := Execute(p, World(map[], EMPTY_INDEX), Inserts(n));
      w == World(map[], IndexValue(None, {}, ShortEntries(n), AllEntries(ShortEntries(n)), 0))
  {
    hide Execute, ShortTombstones;
    if n == 0 {
      Nothing(p);
    } else {
      AfterInserts(p, n - 1);
      ExecuteSnoc(p, World(map[], EMPTY_INDEX), Inserts(n - 1), InsertOp([n - 1], []));
      ShortKeys(n);
      assert ShortEntries(n) == ShortEntries(n - 1)[[n - 1] := []];
      assert AllEntries(ShortEntries(n)) == AllEntries(ShortEntries(n - 1))[[n - 1] := Some([])];
    }
  }

  lemma Nothing(p: Primitives)
    ensures Execute(p, World(map[], EMPTY_INDEX), []) == World(map[], EMPTY_INDEX)
    ensures ShortTombstones(0) == map[] && ShortEntries(0) == map[]
  {
  }

  /** Removing the first m of n keys that are on record. */
  lemma {:induction false} AfterRemoves(p: Primitives, w: World, n: nat, m: nat)
    requires m <= n <= 256 && w.v.entries == ShortEntries(n) && w.v.dirty == map[]
    ensures var w' := Execute(p, w, Removes(m));
      && w'.objs == w.objs && w'.v == w.v.(entries := ShortEntries(n) - ShortTombstones(m).Keys, dirty := ShortTombstones(m))
    decreases m
  {
    hide Execute, ShortTombstones;
    if m == 0 {
      Nothing(p);
      NoSteps(p, w);
      assert ShortEntries(n) - {} == ShortEntries(n);
    } else {
      AfterRemoves(p, w, n, m - 1);
      ExecuteSnoc(p, w, Removes(m - 1), RemoveOp([m - 1]));
      ShortKeys(m);
      ShortKeyListed(n, m);
      TombstoneAdded(m);
      assert ShortEntries(n) - ShortTombstones(m - 1).Keys - {[m - 1]} == ShortEntries(n) - ShortTombstones(m).Keys;
    }
  }

  lemma NoSteps(p: Primitives, w: World)
    ensures Execute(p, w, []) == w
  {
  }

  lemma TombstoneAdded(m: nat)
    requires 0 < m <= 256
    ensures ShortTombstones(m) == ShortTombstones(m - 1)[[m - 1] := None]
  {
  }

  lemma {:induction false} ShortKeyListed(n: nat, m: nat)
    requires 0 < m <= n <= 256
    ensures [m - 1] in ShortTombstones(n)
    decreases n
  {
    if m < n {
      ShortKeyListed(n - 1, m);
    }
  }

  lemma {:induction false} EmptyValuesLength(rs: seq<Record>)
    requires forall r | r in rs :: |r.key| == 1 && r.value == Some([])
    ensures |PrintRecords(rs)| <= 16 * |rs|
  {
    if rs != [] {
      assert |PrintRecord(rs[0])| <= 16;
      EmptyValuesLength(rs[1..]);
    }
  }

  lemma FirstRunWritable(n: nat)
    requires n <= 256
    ensures Writable(Run(None, AllEntries(ShortEntries(n))))
  {
    var run := Run(None, AllEntries(ShortEntries(n)));
    ShortTombstonesSize(n);
    assert run.table.Keys == ShortTombstones(n).Keys;
    assert |run.table| == |run.table.Keys| == |ShortTombstones(n).Keys| == n;
    EmptyValuesLength(Listing(run.table));
  }

  ghost function FirstObject(p: Primitives): Bytes {
    Envelope(p, PrintRun(Run(None, AllEntries(ShortEntries(13)))))
  }

  ghost function SecondObject(p: Primitives): Bytes {
    Envelope(p, PrintRun(Run(Some(p.blake3(FirstObject(p))), ShortTombstones(13))))
  }

  /** Thirteen one-byte keys inserted and flushed, then removed. */
  lemma BeforeLastFlush(p: Primitives)
    ensures var w := Execute(p, World(map[], EMPTY_INDEX), Inserts(13) + [FlushOp(NoFault)] + Removes(13));
      var id := p.blake3(FirstObject(p));
      w == World(map[id := FirstObject(p)], IndexValue(Some(id), {id}, map[], ShortTombstones(13), 1))
  {
    hide Execute, ShortTombstones, PrintRun, Envelope, Writable, ShortEntries;
    var start := World(map[], EMPTY_INDEX);
    AfterInserts(p, 13);
    var w1 := Execute(p, start, Inserts(13));
    ExecuteSnoc(p, start, Inserts(13), FlushOp(NoFault));
    FirstRunWritable(13);
    SomeEntries(13);
    var w2 := Next(p, w1, FlushOp(NoFault));
    ExecuteConcat(p, start, Inserts(13) + [FlushOp(NoFault)], Removes(13));
    AfterRemoves(p, w2, 13, 13);
    AllRemoved(13);
  }

  lemma SomeEntries(n: nat)
    requires 0 < n <= 256
    ensures AllEntries(ShortEntries(n)) != map[]
  {
    ShortKeyListed(n, 1);
    assert [0] in AllEntries(ShortEntries(n));
  }

  lemma AllRemoved(n: nat)
    requires n <= 256
    ensures ShortEntries(n) - ShortTombstones(n).Keys == map[]
  {
  }

  /** The round trip is false without the guard: from an empty index, thirteen one-byte keys inserted, flushed,
      removed and flushed again leave a head that cannot be loaded, although both flushes report success. */
  lemma FlushedButUnloadable(p: Primitives)
    requires Lossless(p) && p.blake3(FirstObject(p)) != p.blake3(SecondObject(p))
    ensures var ops := Inserts(13) + [FlushOp(NoFault)] + Removes(13);
      var w := Execute(p, World(map[], EMPTY_INDEX), ops);
      && Reported(p, w, FlushOp(NoFault))
      && Load(p, Next(p, w, FlushOp(NoFault)).objs, Next(p, w, FlushOp(NoFault)).v.head).Err?
  {
    hide Execute, Flush, Load, Agrees, Follow, FirstObject, SecondObject, ShortTombstones;
    var ops := Inserts(13) + [FlushOp(NoFault)] + Removes(13);
    var start, maps := World(map[], EMPTY_INDEX), Maps(map[], map[]);
    BeforeLastFlush(p);
    var w := Execute(p, start, ops);
    StartMatches(p);
    var links := ExecuteMatches(p, start, maps, [], ops);
    SecondFlushReported(p);
    ShortDeletionsUnloadable(p, w.objs, w.v, links);
  }

  lemma SecondFlushReported(p: Primitives)
    requires p.blake3(FirstObject(p)) != p.blake3(SecondObject(p))
    ensures var id := p.blake3(FirstObject(p));
      var v := IndexValue(Some(id), {id}, map[], ShortTombstones(13), 1);
      Flush(p, map[id := FirstObject(p)], v, NoFault).result.Ok?
  {
    hide ShortTombstones, PrintRun, Envelope, Writable;
    ShortTombstonesGuard(p.blake3(FirstObject(p)), 13);
    ShortKeyListed(13, 1);
  }

  lemma StartMatches(p: Primitives)
    ensures Matches(p, World(map[], EMPTY_INDEX), Maps(map[], map[]), [])
  {
  }
}
