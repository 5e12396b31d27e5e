/** A run from an empty namespace in which a collection takes a run of the visible root, because a publisher wrote
    the same object again between the collection's publication and its deletion (src/storage/retention.rs, `collect`). */
module CollectionRace {
  import opened Bytes
  import opened IndexRun
  import opened Index
  import opened Catalog
  import opened CatalogState
  import opened CatalogProtocol
  import opened CatalogCollection
  import IH = IndexHistory

  // Reaching a state

  /** Some sequence of allowed steps, safe or not, leads here, and the protocol's own invariant holds. */
  ghost predicate Reached(p: Primitives, s: Sys) {
    Lossless(p) && Inv(p, s.w) && exists steps :: IsRunOf(p, EMPTY, steps, s)
  }

  ghost predicate IsRunOf(p: Primitives, s: Sys, steps: seq<Move>, t: Sys)
    decreases |steps|
  {
    if steps == [] then s == t else Allowed(p, s, steps[0]) && IsRunOf(p, Made(p, s, steps[0]), steps[1..], t)
  }

  lemma {:induction false} RunOfSnoc(p: Primitives, s: Sys, steps: seq<Move>, t: Sys, e: Move)
    requires IsRunOf(p, s, steps, t) && Allowed(p, t, e)
    ensures IsRunOf(p, s, steps + [e], Made(p, t, e))
    decreases |steps|
  {
    hide Allowed, Made;
    if steps == [] {
      assert [] + [e] == [e] && [e][1..] == [];
    } else {
      assert (steps + [e])[1..] == steps[1..] + [e];
      RunOfSnoc(p, Made(p, s, steps[0]), steps[1..], t, e);
    }
  }

  lemma Reach(p: Primitives, s: Sys, e: Move, t: Sys)
    requires Reached(p, s) && Allowed(p, s, e) && Made(p, s, e) == t
    requires e.Act? && e.action.Open? ==> Held(p, s)
    ensures Reached(p, t)
  {
    hide Allowed, Made, Inv, Held, Lossless;
    MoveInv(p, s, e);
    var steps :| IsRunOf(p, EMPTY, steps, s);
    RunOfSnoc(p, EMPTY, steps, s, e);
  }

  lemma MoveInv(p: Primitives, s: Sys, e: Move)
    requires Lossless(p) && Inv(p, s.w) && Allowed(p, s, e)
    requires e.Act? && e.action.Open? ==> Held(p, s)
    ensures Inv(p, Made(p, s, e).w)
  {
    hide Inv, Next, Enabled, RootGuarded, ClientsGuarded, Followed, Puts, Doomed, LoadFor;
    if e.Act? {
      if e.action.Open? {
        OpeningHeld(p, s, e.c, e.action.selected);
      } else {
        NextInv(p, s.w, e.c, e.action);
      }
    }
  }

  lemma ReachedInv(p: Primitives, s: Sys)
    requires Reached(p, s)
    ensures Inv(p, s.w) && Lossless(p)
  {
  }

  // The pieces

  function With(s: Sys, c: nat, k: Client): Sys {
    s.(w := s.w.(clients := s.w.clients[c := k]))
  }

  /** One placement under a one-byte key. */
  const PLACE: Edit := Write(Placements, [0], [])

  const FORGET: Edit := Erase(Heads, MAIN)

  /** A state whose five indexes are empty. */
  predicate Blank(t: State) {
    t.indexes == FreshState([]).indexes && t.head == NO_HEAD && t.selected == []
  }

  ghost function Object(p: Primitives): Bytes {
    Envelope(p, PrintRun(Run(None, map[[0] := Some([])])))
  }

  ghost function ObjectId(p: Primitives): Id {
    p.blake3(Object(p))
  }

  /** A client whose collection, if any, is still tracing takes a step that leaves the collections alone. */
  predicate Undisturbed(s: Sys, c: nat) {
    c in s.pending ==> s.pending[c].Tracing?
  }

  lemma OpenStep(p: Primitives, s: Sys, c: nat, t: State)
    requires Reached(p, s) && Held(p, s) && c !in s.pending && LoadFor(p, Present(s), s.w.reg, []) == Ok(t)
    ensures Reached(p, With(s, c, Client(t, Says(t), [], Idle)))
  {
    hide Reached, Held, LoadFor, Present, Says;
    Reach(p, s, Act(c, Open([])), With(s, c, Client(t, Says(t), [], Idle)));
  }

  lemma PlaceStep(p: Primitives, s: Sys, c: nat, k: Client)
    requires Reached(p, s) && c in s.w.clients && s.w.clients[c] == k && k.phase.Idle? && Undisturbed(s, c)
    ensures Reached(p, With(s, c, k.(state := EditState(k.state, PLACE), edits := k.edits + [PLACE])))
  {
    hide Reached, EditState;
    Reach(p, s, Act(c, Edit(PLACE)), With(s, c, k.(state := EditState(k.state, PLACE), edits := k.edits + [PLACE])));
  }

  lemma BeginStep(p: Primitives, s: Sys, c: nat, k: Client)
    requires Reached(p, s) && c in s.w.clients && s.w.clients[c] == k && k.phase.Idle? && Undisturbed(s, c)
    requires !k.state.uncertain && k.state.head == NO_HEAD && k.state.selected == [] && k.state.indexes.heads == EMPTY_INDEX
    ensures Reached(p, With(s, c, Client(k.state, k.base, k.edits + [FORGET], Publishing(0))))
  {
    hide Reached;
    assert Begin(p, k.state) == k.state by {
      assert k.state.indexes.Set(Heads, EMPTY_INDEX) == k.state.indexes;
    }
    Reach(p, s, Act(c, BeginPublish), With(s, c, Client(k.state, k.base, k.edits + [FORGET], Publishing(0))));
  }

  /** Flushing an index with nothing to write. */
  lemma IdleStep(p: Primitives, s: Sys, c: nat, k: Client)
    requires Reached(p, s) && c in s.w.clients && s.w.clients[c] == k && Undisturbed(s, c)
    requires k.phase.Publishing? && k.phase.next < |FLUSH_ORDER| && FlushIsIdle(k.state.indexes.Get(FLUSH_ORDER[k.phase.next]))
    ensures Reached(p, With(s, c, k.(phase := Publishing(k.phase.next + 1))))
  {
    hide Reached, PrintRun, Envelope, Writable;
    var x := FLUSH_ORDER[k.phase.next];
    assert k.state.indexes.Set(x, k.state.indexes.Get(x)) == k.state.indexes;
    assert FlushOne(p, s.w.objs, k.state, x, NoFault) == FlushedState(k.state, s.w.objs, Ok(()));
    Reach(p, s, Act(c, FlushNext(NoFault)), With(s, c, k.(phase := Publishing(k.phase.next + 1))));
  }

  lemma {:induction false} IdleSteps(p: Primitives, s: Sys, c: nat, k: Client, n: nat)
    requires Reached(p, s) && c in s.w.clients && s.w.clients[c] == k && Undisturbed(s, c)
    requires k.phase.Publishing? && k.phase.next <= n <= |FLUSH_ORDER|
    requires forall i | k.phase.next <= i < n :: FlushIsIdle(k.state.indexes.Get(FLUSH_ORDER[i]))
    ensures Reached(p, With(s, c, k.(phase := Publishing(n))))
    decreases n - k.phase.next
  {
    hide Reached, FlushIsIdle;
    if k.phase.next == n {
      assert s.w.clients[c := k] == s.w.clients;
      assert With(s, c, k.(phase := Publishing(n))) == s;
    } else {
      IdleStep(p, s, c, k);
      var next := k.(phase := Publishing(k.phase.next + 1));
      IdleSteps(p, With(s, c, next), c, next, n);
      assert With(With(s, c, next), c, next.(phase := Publishing(n))) == With(s, c, k.(phase := Publishing(n)));
    }
  }

  /** A client with empty indexes edits, begins to publish and has flushed its heads. */
  lemma PlacesAlone(p: Primitives, s: Sys, c: nat, t: State)
    requires Reached(p, With(s, c, Client(t, NOTHING, [], Idle))) && Blank(t) && !t.uncertain && c !in s.pending
    ensures Reached(p, With(s, c, Client(EditState(t, PLACE), NOTHING, [PLACE, FORGET], Publishing(1))))
  {
    hide Reached, EditState;
    var k0 := Client(t, NOTHING, [], Idle);
    PlaceStep(p, With(s, c, k0), c, k0);
    assert [] + [PLACE] == [PLACE];
    var k1 := Client(EditState(t, PLACE), NOTHING, [PLACE], Idle);
    assert With(With(s, c, k0), c, k1) == With(s, c, k1);
    PlacedHeads(t);
    BeginStep(p, With(s, c, k1), c, k1);
    assert [PLACE] + [FORGET] == [PLACE, FORGET];
    var k2 := k1.(edits := [PLACE, FORGET], phase := Publishing(0));
    assert With(With(s, c, k1), c, k2) == With(s, c, k2);
    IdleSteps(p, With(s, c, k2), c, k2, 1);
    var k3 := k2.(phase := Publishing(1));
    assert With(With(s, c, k2), c, k3) == With(s, c, k3);
  }

  lemma PlacedHeads(t: State)
    requires Blank(t)
    ensures var u := EditState(t, PLACE);
      && u.head == NO_HEAD && u.selected == [] && u.indexes.heads == EMPTY_INDEX && u.uncertain == t.uncertain
      && FLUSH_ORDER[0] == Heads && FlushIsIdle(u.indexes.Get(Heads))
  {
  }

  /** The one object of the run, written by a client with just the placement to publish. */
  lemma PlacementFlush(p: Primitives, objs: Objects, t: State, fault: PutFault)
    requires Blank(t) && !fault.Refused? && (ObjectId(p) in objs ==> objs[ObjectId(p)] == Object(p))
    ensures var v := EditState(t, PLACE).indexes.placements;
      && Written(p, objs, v, fault) == {ObjectId(p)}
      && Flush(p, objs, v, fault) == Flushed(
           if fault.NoFault? then IndexValue(Some(ObjectId(p)), {ObjectId(p)}, map[[0] := []], map[], 1) else v,
           objs[ObjectId(p) := Object(p)], if fault.NoFault? then Ok(()) else Err(Backend))
  {
    hide PrintRun, Envelope, Writable;
    var v := EditState(t, PLACE).indexes.placements;
    assert v == IndexValue(None, {}, map[[0] := []], map[[0] := Some([])], 0);
    assert AllEntries(v.entries) == map[[0] := Some([])];
    OneRunWritable();
  }

  lemma OneRunWritable()
    ensures Writable(Run(None, map[[0] := Some([])]))
  {
    IH.FirstRunWritable(1);
    assert IH.ShortTombstones(1) == IH.ShortTombstones(0)[[0] := None] == map[[0] := None];
    assert AllEntries(IH.ShortEntries(1)) == map[[0] := Some([])];
  }

  // The run

  function Fresh(): State {
    FreshState([])
  }

  function Orphaning(): Client {
    Client(EditState(Fresh(), PLACE), NOTHING, [PLACE, FORGET], Idle)
  }

  /** Client 0 has written an object and been told that it failed. */
  ghost function Orphaned(p: Primitives): Sys {
    Sys(World(map[ObjectId(p) := Object(p)], Register(None, {}), [], map[0 := Orphaning()]), {ObjectId(p)}, map[])
  }

  lemma OpensFirst(p: Primitives)
    requires Lossless(p)
    ensures Reached(p, With(EMPTY, 0, Client(Fresh(), NOTHING, [], Idle)))
  {
    hide Reached, LoadFor, Held, Present;
    EmptyReached(p);
    EmptyHeld(p);
    OpenNothing(p, Present(EMPTY), EMPTY.w.reg, []);
    OpenStep(p, EMPTY, 0, Fresh());
    assert Says(Fresh()) == NOTHING;
  }

  lemma EmptyReached(p: Primitives)
    requires Lossless(p)
    ensures Reached(p, EMPTY)
  {
    StartInv(p);
    assert IsRunOf(p, EMPTY, [], EMPTY);
  }

  lemma ReachesOrphaned(p: Primitives)
    requires Lossless(p)
    ensures Reached(p, Orphaned(p))
  {
    hide Reached, Object, EditState;
    OpensFirst(p);
    PlacesAlone(p, EMPTY, 0, Fresh());
    OrphanStep(p, With(EMPTY, 0, Client(EditState(Fresh(), PLACE), NOTHING, [PLACE, FORGET], Publishing(1))));
  }

  lemma OrphanStep(p: Primitives, s: Sys)
    requires Reached(p, s) && s.w == START.(clients := map[0 := Orphaning().(phase := Publishing(1))])
    requires s.present == {} && s.pending == map[]
    ensures Reached(p, Orphaned(p))
  {
    hide Reached, PrintRun, Envelope, Flush, Written;
    PlacementFlush(p, s.w.objs, Fresh(), StoredButReported);
    var t := EditState(Fresh(), PLACE);
    assert t.indexes.Set(Placements, t.indexes.placements) == t.indexes;
    assert FLUSH_ORDER[1] == Placements;
    Reach(p, s, Act(0, FlushNext(StoredButReported)), Orphaned(p));
  }

  /** Client 1 has listed that object, published an empty catalog, and has yet to delete. */
  ghost function Deletes(p: Primitives): Sys {
    var o := Orphaned(p);
    Sys(World(o.w.objs, Register(Some(RootRecord(0, EncodeRoot(p, Fresh()))), {0}),
              [Entry(0, RootOf(Fresh()), NOTHING, [FORGET], 1)],
              o.w.clients[1 := Client(Fresh().(revision := Some(0)), NOTHING, [], Idle)]),
        o.present, map[1 := Deleting({ObjectId(p)}, {})])
  }

  lemma OrphanedHeld(p: Primitives)
    requires Inv(p, Orphaned(p).w)
    ensures Held(p, Orphaned(p))
  {
    hide Inv, PrintRun, Envelope;
  }

  lemma DeletesHeld(p: Primitives)
    requires Inv(p, Deletes(p).w)
    ensures Held(p, Deletes(p))
  {
    hide Inv, PrintRun, Envelope, IsChain, RootImage;
    forall links | HeadOf(links) == None
      ensures Ids(links) == {}
    {
    }
    assert forall x: Which :: RootOf(Fresh()).ids.Get(x) == None;
  }

  lemma CollectorOpens(p: Primitives)
    requires Lossless(p)
    ensures Reached(p, With(Orphaned(p), 1, Client(Fresh(), NOTHING, [], Idle)))
  {
    hide Reached, LoadFor, Held, Present, Object;
    ReachesOrphaned(p);
    var s := Orphaned(p);
    ReachedInv(p, s);
    OrphanedHeld(p);
    OpenNothing(p, Present(s), s.w.reg, []);
    OpenStep(p, s, 1, Fresh());
    assert Says(Fresh()) == NOTHING;
  }

  ghost function Traces(p: Primitives, k: Client): Sys {
    With(Orphaned(p), 1, k).(pending := map[1 := Tracing({ObjectId(p)})])
  }

  lemma StartStep(p: Primitives, s: Sys, c: nat, candidates: set<Id>)
    requires Reached(p, s) && Allowed(p, s, Start(c, candidates))
    ensures Reached(p, s.(pending := s.pending[c := Tracing(candidates)]))
  {
    hide Reached, Enabled, AllObjects, Current;
    Reach(p, s, Start(c, candidates), s.(pending := s.pending[c := Tracing(candidates)]));
  }

  lemma CollectorStarts(p: Primitives)
    requires Lossless(p)
    ensures Reached(p, Traces(p, Client(Fresh(), NOTHING, [], Idle)))
  {
    hide Reached, Object, Enabled, Orphaning;
    CollectorOpens(p);
    var s := With(Orphaned(p), 1, Client(Fresh(), NOTHING, [], Idle));
    StartStep(p, s, 1, {ObjectId(p)});
    assert s.pending[1 := Tracing({ObjectId(p)})] == map[1 := Tracing({ObjectId(p)})];
  }

  lemma ReachesDeletes(p: Primitives)
    requires Lossless(p)
    ensures Reached(p, Deletes(p))
  {
    hide Reached, Object, EditState, Orphaned, Orphaning;
    CollectorStarts(p);
    var k0 := Client(Fresh(), NOTHING, [], Idle);
    BeginStep(p, Traces(p, k0), 1, k0);
    assert [] + [FORGET] == [FORGET];
    var k1 := k0.(edits := [FORGET], phase := Publishing(0));
    assert With(Traces(p, k0), 1, k1) == Traces(p, k1);
    BlankIdle(Fresh());
    IdleSteps(p, Traces(p, k1), 1, k1, |FLUSH_ORDER|);
    var k2 := k1.(phase := Publishing(|FLUSH_ORDER|));
    assert With(Traces(p, k1), 1, k2) == Traces(p, k2);
    CollectorSwaps(p, Traces(p, k2));
  }

  lemma BlankIdle(t: State)
    requires Blank(t)
    ensures forall i | 0 <= i < |FLUSH_ORDER| :: FlushIsIdle(t.indexes.Get(FLUSH_ORDER[i]))
  {
  }

  lemma CollectorSwaps(p: Primitives, s: Sys)
    requires Reached(p, s)
    requires s == With(Orphaned(p), 1, Client(Fresh(), NOTHING, [FORGET], Publishing(|FLUSH_ORDER|))).(
                    pending := map[1 := Tracing({ObjectId(p)})])
    ensures Reached(p, Deletes(p))
  {
    hide Reached, PrintRun, Envelope, RootImage, EditState;
    assert Says(Fresh()) == NOTHING;
    var t := Made(p, s, Act(1, Swap(Clean, 0)));
    assert t.w.clients == Deletes(p).w.clients;
    assert t.pending == Deletes(p).pending;
    Reach(p, s, Act(1, Swap(Clean, 0)), Deletes(p));
  }

  /** Client 0 opens that catalog and is about to publish its placement, having written the same object again. */
  ghost function Reused(p: Primitives): Sys {
    var t := EditState(Fresh().(revision := Some(0)), PLACE);
    var v := IndexValue(Some(ObjectId(p)), {ObjectId(p)}, map[[0] := []], map[], 1);
    With(Deletes(p), 0, Client(t.(indexes := t.indexes.(placements := v)), NOTHING, [PLACE, FORGET], Publishing(|FLUSH_ORDER|)))
  }

  lemma OpensEmptyRoot(p: Primitives)
    ensures var s := Deletes(p);
      LoadFor(p, Present(s), s.w.reg, []) == Ok(Fresh().(revision := Some(0)))
  {
    hide PrintRun, Envelope, RootImage, ParseRoot;
    RootRoundTrip(p, RootOf(Fresh()));
    assert Load(p, Present(Deletes(p)), None) == Ok(EMPTY_INDEX);
  }

  lemma DeletesFacts(p: Primitives)
    ensures var s := Deletes(p);
      && 0 !in s.pending && s.present == {ObjectId(p)}
      && ObjectId(p) in s.w.objs && s.w.objs[ObjectId(p)] == Object(p)
  {
    hide Object, RootImage, EditState;
  }

  lemma ReachesReused(p: Primitives)
    requires Lossless(p)
    ensures Reached(p, Reused(p))
  {
    hide Reached, LoadFor, Held, Present, EditState, Deletes, Object, Inv, Reused, Says;
    ReachesDeletes(p);
    ReachedInv(p, Deletes(p));
    DeletesHeld(p);
    OpensEmptyRoot(p);
    DeletesFacts(p);
    var s, t := Deletes(p), Fresh().(revision := Some(0));
    OpenStep(p, s, 0, t);
    SaysNothing(t);
    PlacesAlone(p, s, 0, t);
    ReuseStep(p, s, t);
    ReuseIdles(p);
  }

  lemma SaysNothing(t: State)
    requires Blank(t) && t.database.None?
    ensures Says(t) == NOTHING
  {
  }

  ghost function Rewritten(p: Primitives, t: State): State {
    var u := EditState(t, PLACE);
    u.(indexes := u.indexes.(placements := IndexValue(Some(ObjectId(p)), {ObjectId(p)}, map[[0] := []], map[], 1)))
  }

  /** The same object, written again. */
  lemma ReuseStep(p: Primitives, s: Sys, t: State)
    requires Reached(p, With(s, 0, Client(EditState(t, PLACE), NOTHING, [PLACE, FORGET], Publishing(1)))) && Blank(t)
    requires 0 !in s.pending && ObjectId(p) in s.present && ObjectId(p) in s.w.objs && s.w.objs[ObjectId(p)] == Object(p)
    ensures Reached(p, With(s, 0, Client(Rewritten(p, t), NOTHING, [PLACE, FORGET], Publishing(2))))
  {
    hide Reached, Object, Flush, Written, Blank;
    PlacementFlush(p, s.w.objs, t, NoFault);
    var u := EditState(t, PLACE);
    var before := With(s, 0, Client(u, NOTHING, [PLACE, FORGET], Publishing(1)));
    assert FLUSH_ORDER[1] == Placements;
    assert s.w.objs[ObjectId(p) := Object(p)] == s.w.objs;
    assert s.present + {ObjectId(p)} == s.present;
    Reach(p, before, Act(0, FlushNext(NoFault)), With(s, 0, Client(Rewritten(p, t), NOTHING, [PLACE, FORGET], Publishing(2))));
  }

  lemma ReuseIdles(p: Primitives)
    requires Reached(p, With(Deletes(p), 0, Client(Rewritten(p, Fresh().(revision := Some(0))), NOTHING, [PLACE, FORGET], Publishing(2))))
    ensures Reached(p, Reused(p))
  {
    hide Reached, Object, Deletes;
    DeletesFacts(p);
    var s, k := Deletes(p), Client(Rewritten(p, Fresh().(revision := Some(0))), NOTHING, [PLACE, FORGET], Publishing(2));
    assert FLUSH_ORDER[2] == Endpoints && FLUSH_ORDER[3] == Retentions && FLUSH_ORDER[4] == Advisory;
    IdleSteps(p, With(s, 0, k), 0, k, |FLUSH_ORDER|);
    assert With(With(s, 0, k), 0, k.(phase := Publishing(|FLUSH_ORDER|))) == Reused(p);
  }

  /** The visible root cannot be opened at the end of a run from an empty namespace. */
  lemma RaceLosesRun(p: Primitives)
    requires Lossless(p)
    ensures exists s :: Reached(p, s) && s.w.reg.root.Some? && LoadFor(p, Present(s), s.w.reg, []).Err?
  {
    hide Reached, Object, LoadFor, Inv, Present, Allowed, Made;
    ReachesReused(p);
    var s := Reused(p);
    ReachedInv(p, s);
    AboutToSwap(p);
    ReuseLosesRun(p, s, 0, 1, ObjectId(p), 1, []);
    var t := Made(p, s, Act(0, Swap(Clean, 1)));
    Reach(p, s, Act(0, Swap(Clean, 1)), t);
    Reach(p, t, Delete(1, ObjectId(p)), Made(p, t, Delete(1, ObjectId(p))));
  }

  lemma AboutToSwap(p: Primitives)
    ensures var s := Reused(p);
      && 0 in s.w.clients && Enabled(p, s.w, 0, Swap(Clean, 1)) && Allowed(p, s, Act(0, Swap(Clean, 1)))
      && Current(s.w, s.w.clients[0]) && ObjectId(p) in AllObjects(s.w.clients[0].state)
      && Allowed(p, s, Delete(1, ObjectId(p)))
  {
    hide Object, RootImage;
  }
}
