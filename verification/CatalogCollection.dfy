/** Deleting index objects while other clients publish (src/storage/retention.rs, `collect`; src/storage/catalog.rs,
    `index_objects`). The protocol's object map holds everything ever put, and `present` says what has not been
    deleted since: an id stands for the same bytes whenever it is put again. */
module CatalogCollection {
  import opened Bytes
  import opened IndexRun
  import opened Index
  import opened IndexProofs
  import opened Catalog
  import opened CatalogState
  import opened CatalogProtocol

  /** A collection lists objects outside the catalog it loaded, publishes a new root, and only then deletes what the
      new root does not need either. */
  datatype Collection = Tracing(candidates: set<Id>) | Deleting(candidates: set<Id>, keep: set<Id>)

  datatype Sys = Sys(w: World, present: set<Id>, pending: map<nat, Collection>)

  datatype Move =
    | Act(c: nat, action: Action)
    | Start(c: nat, candidates: set<Id>)
    | Delete(c: nat, id: Id)

  /** The objects a reader finds. */
  function Present(s: Sys): Objects {
    map id | id in s.w.objs && id in s.present :: s.w.objs[id]
  }

  /** `index_objects`: every object of the five chains. */
  function AllObjects(t: State): set<Id> {
    t.indexes.placements.objects + t.indexes.endpoints.objects + t.indexes.retentions.objects
    + t.indexes.advisory.objects + t.indexes.heads.objects
  }

  /** What some collection may still delete. */
  function Doomed(s: Sys): set<Id> {
    set c, id | c in s.pending && s.pending[c].Deleting? && id in s.pending[c].candidates && id !in s.pending[c].keep :: id
  }

  // Moves

  /** What one flush puts, whether or not it is reported. */
  ghost function Written(p: Primitives, objs: Objects, v: IndexValue, fault: PutFault): set<Id> {
    if FlushIsIdle(v) || !Writable(NextRun(v)) || fault.Refused? || Conflicts(objs, FlushId(p, v), Envelope(p, PrintRun(NextRun(v))))
    then {} else {FlushId(p, v)}
  }

  ghost function Puts(p: Primitives, s: Sys, c: nat, a: Action): set<Id>
    requires Enabled(p, s.w, c, a)
  {
    if a.FlushNext? then
      var k := s.w.clients[c];
      Written(p, s.w.objs, k.state.indexes.Get(FLUSH_ORDER[k.phase.next]), a.put)
    else {}
  }

  /** The protocol's step, except that opening reads what is present. */
  ghost function Moved(p: Primitives, s: Sys, c: nat, a: Action): World
    requires Enabled(p, s.w, c, a)
  {
    if a.Open? then
      var r := LoadFor(p, Present(s), s.w.reg, a.selected);
      if r.Err? then s.w else s.w.(clients := s.w.clients[c := Client(r.value, Says(r.value), [], Idle)])
    else Next(p, s.w, c, a)
  }

  /** A collection goes on while its own publication does, deletes once that was applied, and is over otherwise. */
  ghost function Followed(s: Sys, c: nat, a: Action, w': World): map<nat, Collection> {
    if c !in s.pending then s.pending
    else if c !in w'.clients || s.pending[c].Deleting? || a.Open? || a.ConfirmRoot? then s.pending - {c}
    else if a.Swap? then
      if w'.clients[c].state.uncertain then s.pending - {c}
      else s.pending[c := Deleting(s.pending[c].candidates, AllObjects(w'.clients[c].state))]
    else if a.FlushNext? && !w'.clients[c].phase.Publishing? then s.pending - {c}
    else s.pending
  }

  predicate Current(w: World, k: Client) {
    !k.state.uncertain && Expects(w.reg, k.state.revision)
  }

  ghost predicate Allowed(p: Primitives, s: Sys, e: Move) {
    match e
    case Act(c, a) => Enabled(p, s.w, c, a)
    case Start(c, candidates) =>
      && c in s.w.clients && c !in s.pending && s.w.clients[c].phase.Idle? && s.w.clients[c].edits == []
      && Current(s.w, s.w.clients[c])
      && candidates <= s.present && candidates !! AllObjects(s.w.clients[c].state)
    case Delete(c, id) =>
      c in s.pending && s.pending[c].Deleting? && id in s.pending[c].candidates && id !in s.pending[c].keep
  }

  ghost function Made(p: Primitives, s: Sys, e: Move): Sys
    requires Allowed(p, s, e)
  {
    match e
    case Act(c, a) => var w' := Moved(p, s, c, a); Sys(w', s.present + Puts(p, s, c, a), Followed(s, c, a, w'))
    case Start(c, candidates) => s.(pending := s.pending[c := Tracing(candidates)])
    case Delete(c, id) => s.(present := s.present - {id})
  }

  // The invariant

  predicate Guarded(s: Sys, ids: set<Id>) {
    ids <= s.present && ids !! Doomed(s)
  }

  /** Every run of the visible root is present and will not be deleted. */
  ghost predicate RootGuarded(p: Primitives, s: Sys) {
    s.w.history != [] ==>
      var root := s.w.history[|s.w.history| - 1].root;
      forall x: Which, links | IsChain(p, s.w.objs, links) && HeadOf(links) == root.ids.Get(x) :: Guarded(s, Ids(links))
  }

  /** So is everything a client that could still publish builds on. */
  ghost predicate ClientsGuarded(s: Sys) {
    forall c | c in s.w.clients && Current(s.w, s.w.clients[c]) :: Guarded(s, AllObjects(s.w.clients[c].state))
  }

  ghost predicate Held(p: Primitives, s: Sys) {
    && Inv(p, s.w) && s.present <= s.w.objs.Keys
    && RootGuarded(p, s) && ClientsGuarded(s)
    && (forall c | c in s.pending && s.pending[c].Deleting? :: c in s.w.clients && s.w.clients[c].phase.Idle?)
  }

  /** The exact condition: a client that can still publish does not write an object that a collection has yet to
      delete. */
  ghost predicate Safe(p: Primitives, s: Sys, e: Move)
    requires Allowed(p, s, e)
  {
    e.Act? && e.action.FlushNext? && Current(s.w, s.w.clients[e.c]) && Moved(p, s, e.c, e.action).clients[e.c].phase.Publishing? ==>
      Puts(p, s, e.c, e.action) !! Doomed(s)
  }

  // Chains

  lemma PresentExtends(s: Sys)
    ensures Extends(Present(s), s.w.objs)
  {
  }

  lemma ChainOfIndex(p: Primitives, objs: Objects, v: IndexValue, links: seq<Link>)
    requires InStep(p, objs, v) && IsChain(p, objs, links) && HeadOf(links) == v.head
    ensures Ids(links) == v.objects
  {
    hide IsChain, Resolve, Live, Ids;
    var other :| Agrees(p, objs, v, other);
    ChainUnique(p, objs, links, other);
  }

  lemma ChainPresent(p: Primitives, s: Sys, links: seq<Link>)
    requires IsChain(p, s.w.objs, links) && Ids(links) <= s.present
    ensures IsChain(p, Present(s), links)
  {
    hide IsChain, Holds;
    forall l | l in links
      ensures l.id in s.w.objs && l.id in Present(s) && Present(s)[l.id] == s.w.objs[l.id]
    {
      var i :| 0 <= i < |links| && links[i] == l;
      ChainHolds(p, s.w.objs, links, i);
      HeldPresent(p, s.w.objs, l);
      assert l.id in Ids(links);
    }
    ChainGrows(p, s.w.objs, Present(s), links);
  }

  /** What a reader finds of the visible root is what was published. */
  lemma VisibleEntry(p: Primitives, s: Sys)
    requires Inv(p, s.w) && RootGuarded(p, s) && s.w.history != []
    ensures EntryOk(p, Present(s), s.w.history[|s.w.history| - 1])
  {
    hide SaysValid, IsChain, Resolve, Live, Ids, ClientOk, Linear, RegisterOk, Guarded, Present;
    var e := s.w.history[|s.w.history| - 1];
    assert EntryOk(p, s.w.objs, e);
    forall x: Which
      ensures Stored(p, Present(s), e.root.ids.Get(x), e.says.maps.Get(x))
    {
      var links :| IsChain(p, s.w.objs, links) && HeadOf(links) == e.root.ids.Get(x)
                   && Live(Resolve(links)) == e.says.maps.Get(x) && |links| <= CHECKPOINT_DEPTH;
      assert Guarded(s, Ids(links));
      GuardedPresent(s, Ids(links));
      ChainPresent(p, s, links);
    }
  }

  lemma GuardedPresent(s: Sys, ids: set<Id>)
    requires Guarded(s, ids)
    ensures ids <= s.present
  {
  }

  /** The visible catalog opens as published: exactly when its chains fit the loader's limits. */
  lemma VisibleOpens(p: Primitives, s: Sys, selected: Key)
    requires Held(p, s) && s.w.history != []
    ensures var e := s.w.history[|s.w.history| - 1];
      var r := LoadFor(p, Present(s), s.w.reg, selected);
      && (r.Ok? <==> forall x: Which :: LoadableHead(p, Present(s), e.root.ids.Get(x)))
      && (r.Ok? ==> Says(r.value) == e.says && r.value.revision == Some(e.revision))
  {
    hide LoadFor, EntryOk, ClientOk, Linear, RootImage, LoadableHead, RootGuarded, ClientsGuarded, Present, Says;
    VisibleEntry(p, s);
    var e := s.w.history[|s.w.history| - 1];
    OpenEntry(p, Present(s), e, s.w.reg.spent, selected);
    assert s.w.reg == Register(Some(RootRecord(e.revision, RootImage(p, e.root))), s.w.reg.spent);
  }

  // What every step keeps

  lemma GuardedStill(s: Sys, s': Sys, ids: set<Id>)
    requires Guarded(s, ids) && s.present <= s'.present && Doomed(s') <= Doomed(s)
    ensures Guarded(s', ids)
  {
    hide Doomed;
  }

  /** While the root stays, its chains do. */
  lemma RootStill(p: Primitives, s: Sys, s': Sys)
    requires Inv(p, s.w) && RootGuarded(p, s) && s'.w.history == s.w.history && Extends(s.w.objs, s'.w.objs)
    requires s.present <= s'.present && Doomed(s') <= Doomed(s)
    ensures RootGuarded(p, s')
  {
    hide SaysValid, IsChain, Resolve, Live, Ids, ClientOk, Linear, RegisterOk, Guarded, Extends, Doomed;
    if s.w.history != [] {
      var e := s.w.history[|s.w.history| - 1];
      assert EntryOk(p, s.w.objs, e);
      forall x: Which, links | IsChain(p, s'.w.objs, links) && HeadOf(links) == e.root.ids.Get(x)
        ensures Guarded(s', Ids(links))
      {
        assert Stored(p, s.w.objs, e.root.ids.Get(x), e.says.maps.Get(x));
        var was :| IsChain(p, s.w.objs, was) && HeadOf(was) == e.root.ids.Get(x)
                   && Live(Resolve(was)) == e.says.maps.Get(x) && |was| <= CHECKPOINT_DEPTH;
        ChainExtends(p, s.w.objs, s'.w.objs, was);
        ChainUnique(p, s'.w.objs, links, was);
        GuardedStill(s, s', Ids(links));
      }
    }
  }

  /** A step of one client that leaves the root alone. */
  lemma StillHeld(p: Primitives, s: Sys, s': Sys, c: nat)
    requires Held(p, s) && Inv(p, s'.w) && Extends(s.w.objs, s'.w.objs) && s'.w.history == s.w.history && s'.w.reg == s.w.reg
    requires s.present <= s'.present <= s'.w.objs.Keys && Doomed(s') <= Doomed(s)
    requires forall d | d in s'.w.clients && d != c :: d in s.w.clients && s'.w.clients[d] == s.w.clients[d]
    requires s.w.clients.Keys <= s'.w.clients.Keys
    requires c in s'.w.clients && Current(s'.w, s'.w.clients[c]) ==> Guarded(s', AllObjects(s'.w.clients[c].state))
    requires forall d | d in s'.pending && s'.pending[d].Deleting? :: d != c && d in s.pending && s.pending[d].Deleting?
    ensures Held(p, s')
  {
    hide Inv, RootGuarded, Guarded, Extends, Doomed, AllObjects;
    RootStill(p, s, s');
    forall d | d in s'.w.clients && d != c && Current(s'.w, s'.w.clients[d])
      ensures Guarded(s', AllObjects(s'.w.clients[d].state))
    {
      GuardedStill(s, s', AllObjects(s.w.clients[d].state));
    }
  }

  /** Nothing becomes doomed except by an applied publication of a collection. */
  lemma DoomedShrinks(s: Sys, c: nat, a: Action, w': World, present: set<Id>)
    requires !(a.Swap? && c in s.pending && s.pending[c].Tracing? && c in w'.clients && !w'.clients[c].state.uncertain)
    ensures Doomed(Sys(w', present, Followed(s, c, a, w'))) <= Doomed(s)
    ensures var after := Followed(s, c, a, w');
      forall d | d in after && after[d].Deleting? :: d != c && d in s.pending && s.pending[d].Deleting?
  {
    hide AllObjects;
  }

  lemma MovedStands(p: Primitives, s: Sys, c: nat, a: Action)
    requires Lossless(p) && Held(p, s) && Enabled(p, s.w, c, a) && !a.Open?
    ensures var w' := Next(p, s.w, c, a);
      Inv(p, w') && Made(p, s, Act(c, a)) == Sys(w', s.present + Puts(p, s, c, a), Followed(s, c, a, w'))
    ensures !a.FlushNext? ==> Puts(p, s, c, a) == {}
  {
    hide Inv, Next, Enabled, RootGuarded, ClientsGuarded, Followed, Written;
    NextInv(p, s.w, c, a);
  }

  // Edits

  lemma EditKeepsObjects(t: State, e: Edit)
    ensures AllObjects(EditState(t, e)) == AllObjects(t)
  {
  }

  lemma EditMoves(p: Primitives, w: World, c: nat, a: Action)
    requires Enabled(p, w, c, a) && (a.Edit? || a.SetHead? || a.Fork? || a.BeginPublish?)
    ensures var w' := Next(p, w, c, a);
      && w' == w.(clients := w'.clients) && c in w.clients && w'.clients.Keys == w.clients.Keys
      && (forall d | d in w.clients && d != c :: w'.clients[d] == w.clients[d])
      && AllObjects(w'.clients[c].state) == AllObjects(w.clients[c].state)
      && Current(w', w'.clients[c]) == Current(w, w.clients[c])
  {
    hide HeadImage, ValidHead, ValidName, AllObjects;
    var k := w.clients[c];
    match a {
      case Edit(e) => EditKeepsObjects(k.state, e);
      case Fork(name, head) => EditKeepsObjects(k.state, Write(Heads, name, HeadImage(p, head)));
      case BeginPublish =>
        assert Begin(p, k.state) == EditState(k.state, HeadEdit(p, k.state));
        EditKeepsObjects(k.state, HeadEdit(p, k.state));
      case SetHead(head) => SameObjects(k.state, k.state.(head := head));
    }
  }

  lemma SameObjects(t: State, u: State)
    requires t.indexes == u.indexes
    ensures AllObjects(t) == AllObjects(u)
  {
  }

  lemma EditHeld(p: Primitives, s: Sys, c: nat, a: Action)
    requires Lossless(p) && Held(p, s) && Enabled(p, s.w, c, a) && (a.Edit? || a.SetHead? || a.Fork? || a.BeginPublish?)
    ensures Held(p, Made(p, s, Act(c, a)))
  {
    hide Inv, Next, Enabled, RootGuarded, Guarded, Doomed, AllObjects, Current, Followed, Made, Puts;
    MovedStands(p, s, c, a);
    EditMoves(p, s.w, c, a);
    var s' := Made(p, s, Act(c, a));
    DoomedShrinks(s, c, a, s'.w, s'.present);
    if Current(s'.w, s'.w.clients[c]) {
      GuardedStill(s, s', AllObjects(s.w.clients[c].state));
    }
    StillHeld(p, s, s', c);
  }

  // Opening

  lemma OpenedRoot(p: Primitives, objs: Objects, reg: Register, selected: Key)
    requires LoadFor(p, objs, reg, selected).Ok? && reg.root.Some?
    ensures ParseRoot(p, reg.root.value.bytes).Ok?
    ensures RootOf(LoadFor(p, objs, reg, selected).value).ids == ParseRoot(p, reg.root.value.bytes).value.ids
  {
    hide ParseRoot, HeadsDecode, DecodeHead, LoadChain;
  }

  /** Whoever builds on the visible root builds on its chains. */
  lemma OnVisibleRoot(p: Primitives, s: Sys, t: State)
    requires RootGuarded(p, s) && s.w.history != [] && RootOf(t).ids == s.w.history[|s.w.history| - 1].root.ids
    requires forall x: Which :: InStep(p, s.w.objs, t.indexes.Get(x))
    ensures Guarded(s, AllObjects(t))
  {
    hide IsChain, Ids, Doomed;
    forall x: Which
      ensures Guarded(s, t.indexes.Get(x).objects)
    {
      IndexGuarded(p, s, t, x);
    }
    assert Guarded(s, t.indexes.Get(Placements).objects) && Guarded(s, t.indexes.Get(Endpoints).objects)
        && Guarded(s, t.indexes.Get(Retentions).objects) && Guarded(s, t.indexes.Get(Advisory).objects)
        && Guarded(s, t.indexes.Get(Heads).objects);
  }

  lemma IndexGuarded(p: Primitives, s: Sys, t: State, x: Which)
    requires RootGuarded(p, s) && s.w.history != [] && RootOf(t).ids == s.w.history[|s.w.history| - 1].root.ids
    requires InStep(p, s.w.objs, t.indexes.Get(x))
    ensures Guarded(s, t.indexes.Get(x).objects)
  {
    hide IsChain, Ids, Guarded, Resolve, Live;
    var v := t.indexes.Get(x);
    assert RootOf(t).ids.Get(x) == v.head;
    var links :| Agrees(p, s.w.objs, v, links);
  }

  lemma OpenedClient(p: Primitives, s: Sys, selected: Key)
    requires Held(p, s) && (selected == [] || ValidName(selected)) && LoadFor(p, Present(s), s.w.reg, selected).Ok?
    ensures var t := LoadFor(p, Present(s), s.w.reg, selected).value;
      && ClientOk(p, s.w, Client(t, Says(t), [], Idle)) && Guarded(s, AllObjects(t))
  {
    hide ValidName, InStep, ValidHead, SaysValid, LoadFor, EntryOk, FreshState, RootImage, Linear, RootGuarded, Guarded, Present,
         ParseRoot, Ids, IsChain;
    var t := LoadFor(p, Present(s), s.w.reg, selected).value;
    assert ApplyAll(Says(t), []) == Says(t);
    if s.w.history == [] {
      OpenNothing(p, Present(s), s.w.reg, selected);
      NothingOk(p, s.w.objs, selected);
      NothingGuarded(s, selected);
    } else {
      var e := s.w.history[|s.w.history| - 1];
      VisibleEntry(p, s);
      OpenEntry(p, Present(s), e, s.w.reg.spent, selected);
      EntrySays(p, Present(s), e);
      assert Register(s.w.reg.root, s.w.reg.spent) == s.w.reg;
      PresentExtends(s);
      forall x: Which
        ensures InStep(p, s.w.objs, t.indexes.Get(x))
      {
        InStepExtends(p, Present(s), s.w.objs, t.indexes.Get(x));
      }
      assert Base(s.w.history, t.revision, Says(t));
      OpenedRoot(p, Present(s), s.w.reg, selected);
      RootRoundTrip(p, e.root);
      OnVisibleRoot(p, s, t);
    }
  }

  lemma NothingGuarded(s: Sys, selected: Key)
    ensures Guarded(s, AllObjects(FreshState(selected)))
  {
  }

  lemma OpeningHeld(p: Primitives, s: Sys, c: nat, selected: Key)
    requires Held(p, s) && Enabled(p, s.w, c, Open(selected))
    ensures Held(p, Made(p, s, Act(c, Open(selected))))
  {
    hide Inv, LoadFor, ClientOk, RootGuarded, Guarded, Doomed, AllObjects, Current, Followed, Present, ValidName, Says;
    var s' := Made(p, s, Act(c, Open(selected)));
    var r := LoadFor(p, Present(s), s.w.reg, selected);
    DoomedShrinks(s, c, Open(selected), s'.w, s'.present);
    if r.Ok? {
      OpenedClient(p, s, selected);
      QuietInv(p, s.w, s.w.objs, c, Client(r.value, Says(r.value), [], Idle));
      GuardedStill(s, s', AllObjects(r.value));
    } else if c in s.w.clients && Current(s.w, s.w.clients[c]) {
      GuardedStill(s, s', AllObjects(s.w.clients[c].state));
    }
    StillHeld(p, s, s', c);
  }

  // Flushing

  lemma FlushWrites(p: Primitives, objs: Objects, v: IndexValue, fault: PutFault)
    ensures var f := Flush(p, objs, v, fault);
      && f.objs.Keys == objs.Keys + Written(p, objs, v, fault)
      && (f.result.Err? ==> f.value == v)
      && (f.result.Ok? ==> Written(p, objs, v, fault) <= f.value.objects <= v.objects + Written(p, objs, v, fault))
  {
    hide PrintRun, Envelope, Writable;
  }

  /** One index moved; the others' objects are as before. */
  lemma FlushOneObjects(p: Primitives, objs: Objects, t: State, x: Which, fault: PutFault)
    ensures var f, put := FlushOne(p, objs, t, x, fault), Written(p, objs, t.indexes.Get(x), fault);
      && f.objs.Keys == objs.Keys + put
      && (f.result.Err? ==> f.state == t)
      && (f.result.Ok? ==> put <= AllObjects(f.state) <= AllObjects(t) + put)
      && f.state.revision == t.revision && f.state.uncertain == t.uncertain
  {
    hide Flush, Written;
    FlushWrites(p, objs, t.indexes.Get(x), fault);
    var f := FlushOne(p, objs, t, x, fault);
    assert f.state.indexes.Get(x) == Flush(p, objs, t.indexes.Get(x), fault).value;
    assert t.indexes.Set(x, t.indexes.Get(x)) == t.indexes;
  }

  lemma FlushMoves(p: Primitives, s: Sys, c: nat, put: PutFault)
    requires Enabled(p, s.w, c, FlushNext(put))
    ensures c in s.w.clients
    ensures var w', k, written := Next(p, s.w, c, FlushNext(put)), s.w.clients[c], Puts(p, s, c, FlushNext(put));
      && w'.history == s.w.history && w'.reg == s.w.reg && w'.clients.Keys == s.w.clients.Keys
      && (forall d | d in s.w.clients && d != c :: w'.clients[d] == s.w.clients[d])
      && w'.objs.Keys == s.w.objs.Keys + written
      && (w'.clients[c].phase.Publishing? ==> written <= AllObjects(w'.clients[c].state) <= AllObjects(k.state) + written)
      && (!w'.clients[c].phase.Publishing? ==> w'.clients[c].state == k.state)
      && Current(w', w'.clients[c]) == Current(s.w, k)
  {
    hide FlushOne, AllObjects, Written;
    var k := s.w.clients[c];
    FlushOneObjects(p, s.w.objs, k.state, FLUSH_ORDER[k.phase.next], put);
  }

  lemma FlushExtends(p: Primitives, s: Sys, c: nat, put: PutFault)
    requires Lossless(p) && Inv(p, s.w) && Enabled(p, s.w, c, FlushNext(put))
    ensures Extends(s.w.objs, Next(p, s.w, c, FlushNext(put)).objs)
  {
    hide FlushOne, ClientOk, Inv, Enabled, Lossless;
    FlushEnabled(p, s.w, c, put);
    InvClient(p, s.w, c);
    FlushClient(p, s.w, s.w.clients[c], put);
  }

  lemma FlushGuarded(s: Sys, s': Sys, was: set<Id>, written: set<Id>, ids: set<Id>)
    requires Guarded(s, was) && written !! Doomed(s) && ids <= was + written
    requires s'.present == s.present + written && Doomed(s') <= Doomed(s)
    ensures Guarded(s', ids)
  {
    hide Doomed;
  }

  lemma FlushHeld(p: Primitives, s: Sys, c: nat, put: PutFault)
    requires Lossless(p) && Held(p, s) && Enabled(p, s.w, c, FlushNext(put)) && Safe(p, s, Act(c, FlushNext(put)))
    ensures Held(p, Made(p, s, Act(c, FlushNext(put))))
  {
    hide Inv, Next, Enabled, RootGuarded, Guarded, Doomed, AllObjects, Current, Followed, Extends, Puts, Made;
    MovedStands(p, s, c, FlushNext(put));
    FlushMoves(p, s, c, put);
    FlushExtends(p, s, c, put);
    var s' := Made(p, s, Act(c, FlushNext(put)));
    DoomedShrinks(s, c, FlushNext(put), s'.w, s'.present);
    if Current(s'.w, s'.w.clients[c]) {
      var written := Puts(p, s, c, FlushNext(put));
      if s'.w.clients[c].phase.Publishing? {
        FlushGuarded(s, s', AllObjects(s.w.clients[c].state), written, AllObjects(s'.w.clients[c].state));
      } else {
        GuardedStill(s, s', AllObjects(s.w.clients[c].state));
      }
    }
    StillHeld(p, s, s', c);
  }

  // Confirming

  lemma ConfirmMoves(p: Primitives, w: World, c: nat)
    requires Enabled(p, w, c, ConfirmRoot)
    ensures c in w.clients
    ensures var w', k := Next(p, w, c, ConfirmRoot), w.clients[c];
      && w' == w.(clients := w'.clients) && w'.clients.Keys == w.clients.Keys
      && (forall d | d in w.clients && d != c :: w'.clients[d] == w.clients[d])
      && w'.clients[c].state.indexes == k.state.indexes
      && (Current(w', w'.clients[c]) ==> (Confirm(p, k.state, Err(Uncertain), w.reg.root)).1.Ok?)
  {
    hide Before, RootImage, RootOf;
  }

  /** A confirmed client stands on the visible root. */
  lemma ConfirmedGuarded(p: Primitives, s: Sys, c: nat)
    requires Inv(p, s.w) && RootGuarded(p, s) && Enabled(p, s.w, c, ConfirmRoot)
    requires (Confirm(p, s.w.clients[c].state, Err(Uncertain), s.w.reg.root)).1.Ok?
    ensures Guarded(s, AllObjects(s.w.clients[c].state))
  {
    hide Inv, RootGuarded, Guarded, AllObjects, Confirm, InStep, RootOf;
    ConfirmedRoot(p, s.w, c);
    ClientInStep(p, s.w, c);
    OnVisibleRoot(p, s, s.w.clients[c].state);
  }

  lemma ConfirmHeld(p: Primitives, s: Sys, c: nat)
    requires Lossless(p) && Held(p, s) && Enabled(p, s.w, c, ConfirmRoot)
    ensures Held(p, Made(p, s, Act(c, ConfirmRoot)))
  {
    hide Inv, Next, Enabled, RootGuarded, Guarded, Doomed, AllObjects, Followed, Extends, Confirm, Current, Made, Puts;
    MovedStands(p, s, c, ConfirmRoot);
    ConfirmMoves(p, s.w, c);
    var s', k := Made(p, s, Act(c, ConfirmRoot)), s.w.clients[c];
    DoomedShrinks(s, c, ConfirmRoot, s'.w, s'.present);
    if Current(s'.w, s'.w.clients[c]) {
      ConfirmedGuarded(p, s, c);
      SameObjects(k.state, s'.w.clients[c].state);
      GuardedStill(s, s', AllObjects(k.state));
    }
    SelfExtends(s.w.objs);
    StillHeld(p, s, s', c);
  }

  lemma ClientInStep(p: Primitives, w: World, c: nat)
    requires Inv(p, w) && c in w.clients
    ensures forall x: Which :: InStep(p, w.objs, w.clients[c].state.indexes.Get(x))
  {
    hide InStep, SaysValid, EntryOk, Linear, RegisterOk, ValidHead, ValidName, Says, ApplyAll, FlushedAs, Base, FlushedClean;
  }

  lemma SelfExtends(objs: Objects)
    ensures Extends(objs, objs)
  {
  }

  // Swapping the root

  /** Once a new root is visible, only its publisher still stands on it. */
  lemma OthersBehind(p: Primitives, w: World, c: nat, fault: ExchangeFault, token: Revision, d: nat)
    requires Inv(p, w) && Enabled(p, w, c, Swap(fault, token)) && d in w.clients && d != c
    requires Next(p, w, c, Swap(fault, token)).reg != w.reg
    ensures var w' := Next(p, w, c, Swap(fault, token)); d in w'.clients && w'.clients[d] == w.clients[d] && !Current(w', w'.clients[d])
  {
    hide InStep, SaysValid, EntryOk, Linear, RootImage, ValidHead, ValidName, Says, ApplyAll, FlushedAs, FlushedClean, RootOf;
    var k := w.clients[d];
    assert ClientOk(p, w, k);
    assert RegisterOk(p, w);
  }

  lemma SwapMoves(p: Primitives, w: World, c: nat, fault: ExchangeFault, token: Revision)
    requires Enabled(p, w, c, Swap(fault, token))
    ensures c in w.clients && w.clients[c].phase.Publishing?
    ensures var w', k := Next(p, w, c, Swap(fault, token)), w.clients[c];
      && w'.objs == w.objs && w'.clients.Keys == w.clients.Keys && w'.clients[c].state.indexes == k.state.indexes
      && (forall d | d in w.clients && d != c :: w'.clients[d] == w.clients[d])
      && w'.clients[c].phase == Idle
      && (if w'.reg == w.reg then w'.history == w.history && w'.clients[c].state.uncertain
          else w'.history != [] && w'.history[|w'.history| - 1].root == RootOf(k.state) && Expects(w.reg, k.state.revision))
  {
    hide RootImage, Says, RootOf;
  }

  lemma SwapRootGuarded(p: Primitives, s: Sys, s': Sys, t: State)
    requires s'.w.objs == s.w.objs && s'.w.history != [] && s'.w.history[|s'.w.history| - 1].root == RootOf(t)
    requires forall x: Which :: InStep(p, s.w.objs, t.indexes.Get(x))
    requires Guarded(s', AllObjects(t))
    ensures RootGuarded(p, s')
  {
    hide IsChain, Ids, Doomed, InStep;
    forall x: Which, links | IsChain(p, s.w.objs, links) && HeadOf(links) == RootOf(t).ids.Get(x)
      ensures Guarded(s', Ids(links))
    {
      assert RootOf(t).ids.Get(x) == t.indexes.Get(x).head;
      ChainOfIndex(p, s.w.objs, t.indexes.Get(x), links);
      assert t.indexes.Get(x).objects <= AllObjects(t);
    }
  }

  /** The collection of the publisher dooms nothing its own root needs. */
  lemma SwapDoomed(s: Sys, c: nat, a: Action, w': World, ids: set<Id>)
    requires a.Swap? && c in w'.clients && ids == AllObjects(w'.clients[c].state) && Guarded(s, ids)
    ensures Guarded(Sys(w', s.present, Followed(s, c, a, w')), ids)
  {
    hide AllObjects;
  }

  lemma SwapDeleting(s: Sys, c: nat, a: Action, w': World)
    requires a.Swap? && c in w'.clients
    ensures var after := Followed(s, c, a, w');
      forall d | d in after && after[d].Deleting? :: d == c || (d in s.pending && s.pending[d].Deleting?)
  {
  }

  /** A new root: its publisher's chains are guarded, and nobody else is current. */
  lemma SwappedHeld(p: Primitives, s: Sys, s': Sys, c: nat, fault: ExchangeFault, token: Revision)
    requires Held(p, s) && Enabled(p, s.w, c, Swap(fault, token)) && Inv(p, s'.w) && s'.w == Next(p, s.w, c, Swap(fault, token))
    requires s'.w.reg != s.w.reg && s'.present == s.present && s'.pending == Followed(s, c, Swap(fault, token), s'.w)
    ensures Held(p, s')
  {
    hide Inv, Next, Enabled, RootGuarded, Guarded, Doomed, AllObjects, Followed, RootOf, InStep, Current;
    SwapMoves(p, s.w, c, fault, token);
    var k := s.w.clients[c];
    CertainPublisher(p, s.w, c);
    WasCurrent(s.w, k);
    SameObjects(k.state, s'.w.clients[c].state);
    SwapDoomed(s, c, Swap(fault, token), s'.w, AllObjects(k.state));
    ClientInStep(p, s.w, c);
    SwapRootGuarded(p, s, s', k.state);
    forall d | d in s'.w.clients && d != c
      ensures !Current(s'.w, s'.w.clients[d])
    {
      OthersBehind(p, s.w, c, fault, token, d);
    }
    SwapDeleting(s, c, Swap(fault, token), s'.w);
  }

  lemma WasCurrent(w: World, k: Client)
    requires !k.state.uncertain && Expects(w.reg, k.state.revision)
    ensures Current(w, k)
  {
  }

  lemma SwapHeld(p: Primitives, s: Sys, c: nat, fault: ExchangeFault, token: Revision)
    requires Lossless(p) && Held(p, s) && Enabled(p, s.w, c, Swap(fault, token))
    ensures Held(p, Made(p, s, Act(c, Swap(fault, token))))
  {
    hide Inv, Next, Enabled, RootGuarded, Guarded, Doomed, AllObjects, Followed, Extends, RootOf, Made, Puts;
    var a := Swap(fault, token);
    MovedStands(p, s, c, a);
    SwapMoves(p, s.w, c, fault, token);
    var s' := Made(p, s, Act(c, a));
    if s'.w.reg == s.w.reg {
      SelfExtends(s.w.objs);
      DoomedShrinks(s, c, a, s'.w, s'.present);
      StillHeld(p, s, s', c);
    } else {
      SwappedHeld(p, s, s', c, fault, token);
    }
  }

  lemma CertainPublisher(p: Primitives, w: World, c: nat)
    requires Inv(p, w) && c in w.clients && w.clients[c].phase.Publishing?
    ensures !w.clients[c].state.uncertain
  {
    hide InStep, SaysValid, EntryOk, Linear, RegisterOk, ValidHead, ValidName, Says, ApplyAll, FlushedAs, Base, FlushedClean;
  }

  // Collecting

  lemma StartHeld(p: Primitives, s: Sys, c: nat, candidates: set<Id>)
    requires Held(p, s) && Allowed(p, s, Start(c, candidates))
    ensures Held(p, Made(p, s, Start(c, candidates)))
  {
    hide Inv, Guarded, AllObjects, IsChain, Ids;
    var s' := Made(p, s, Start(c, candidates));
    assert Doomed(s') <= Doomed(s);
    SelfExtends(s.w.objs);
    RootStill(p, s, s');
    forall d | d in s'.w.clients && Current(s'.w, s'.w.clients[d])
      ensures Guarded(s', AllObjects(s'.w.clients[d].state))
    {
      GuardedStill(s, s', AllObjects(s.w.clients[d].state));
    }
  }

  lemma DeleteGuarded(s: Sys, s': Sys, c: nat, id: Id, ids: set<Id>)
    requires Guarded(s, ids) && id in Doomed(s) && s' == s.(present := s.present - {id})
    ensures Guarded(s', ids)
  {
    assert Doomed(s') == Doomed(s);
    hide Doomed;
  }

  lemma DeleteRoot(p: Primitives, s: Sys, s': Sys, c: nat, id: Id)
    requires RootGuarded(p, s) && id in Doomed(s) && s' == s.(present := s.present - {id})
    ensures RootGuarded(p, s')
  {
    hide Guarded, IsChain, Ids, Doomed;
    if s.w.history != [] {
      var root := s.w.history[|s.w.history| - 1].root;
      forall x: Which, links | IsChain(p, s'.w.objs, links) && HeadOf(links) == root.ids.Get(x)
        ensures Guarded(s', Ids(links))
      {
        DeleteGuarded(s, s', c, id, Ids(links));
      }
    }
  }

  lemma DeleteHeld(p: Primitives, s: Sys, c: nat, id: Id)
    requires Held(p, s) && Allowed(p, s, Delete(c, id))
    ensures Held(p, Made(p, s, Delete(c, id)))
  {
    hide Inv, RootGuarded, Guarded, AllObjects, Doomed, Current, Enabled;
    DeletableDoomed(s, c, id);
    var s' := Made(p, s, Delete(c, id));
    DeleteRoot(p, s, s', c, id);
    forall d | d in s'.w.clients && Current(s'.w, s'.w.clients[d])
      ensures Guarded(s', AllObjects(s'.w.clients[d].state))
    {
      DeleteGuarded(s, s', c, id, AllObjects(s.w.clients[d].state));
    }
  }

  lemma DeletableDoomed(s: Sys, c: nat, id: Id)
    requires c in s.pending && s.pending[c].Deleting? && id in s.pending[c].candidates && id !in s.pending[c].keep
    ensures id in Doomed(s)
  {
  }

  lemma MadeHeld(p: Primitives, s: Sys, e: Move)
    requires Lossless(p) && Held(p, s) && Allowed(p, s, e) && Safe(p, s, e)
    ensures Held(p, Made(p, s, e))
  {
    hide Held, Enabled, Moved, Followed, Doomed, Safe;
    match e {
      case Start(c, candidates) => StartHeld(p, s, c, candidates);
      case Delete(c, id) => DeleteHeld(p, s, c, id);
      case Act(c, a) =>
        match a {
          case Open(selected) => OpeningHeld(p, s, c, selected);
          case FlushNext(put) => FlushHeld(p, s, c, put);
          case Swap(fault, token) => SwapHeld(p, s, c, fault, token);
          case ConfirmRoot => ConfirmHeld(p, s, c);
          case _ => EditHeld(p, s, c, a);
        }
    }
  }

  /** A step keeps the invariant if and only if it is safe. */
  lemma HeldIffSafe(p: Primitives, s: Sys, e: Move)
    requires Lossless(p) && Held(p, s) && Allowed(p, s, e)
    ensures Held(p, Made(p, s, e)) <==> Safe(p, s, e)
  {
    hide Held, Enabled, Moved, Puts, Followed, Doomed, Current;
    if Safe(p, s, e) {
      MadeHeld(p, s, e);
    } else {
      UnsafeBreaks(p, s, e.c, e.action.put);
    }
  }

  /** The reused object is now doomed and needed. */
  lemma UnsafeBreaks(p: Primitives, s: Sys, c: nat, put: PutFault)
    requires Held(p, s) && Enabled(p, s.w, c, FlushNext(put)) && !Safe(p, s, Act(c, FlushNext(put)))
    ensures !Held(p, Made(p, s, Act(c, FlushNext(put))))
  {
    hide Inv, FlushStep, RootGuarded, AllObjects, Current, Extends, Written;
    FlushMoves(p, s, c, put);
    var s', written := Made(p, s, Act(c, FlushNext(put))), Puts(p, s, c, FlushNext(put));
    var id :| id in written && id in Doomed(s);
    var d :| d in s.pending && s.pending[d].Deleting? && id in s.pending[d].candidates && id !in s.pending[d].keep;
    assert d != c;
    assert d in s'.pending && s'.pending[d] == s.pending[d];
    assert id in Doomed(s') && id in AllObjects(s'.w.clients[c].state);
  }

  // Runs

  const EMPTY: Sys := Sys(START, {}, map[])

  lemma EmptyHeld(p: Primitives)
    ensures Held(p, EMPTY)
  {
    hide IsChain;
    StartInv(p);
  }

  ghost predicate IsSafeRun(p: Primitives, s: Sys, steps: seq<Move>)
    decreases |steps|
  {
    steps == [] || (Allowed(p, s, steps[0]) && Safe(p, s, steps[0]) && IsSafeRun(p, Made(p, s, steps[0]), steps[1..]))
  }

  ghost function MadeAll(p: Primitives, s: Sys, steps: seq<Move>): Sys
    requires IsSafeRun(p, s, steps)
    decreases |steps|
  {
    if steps == [] then s else MadeAll(p, Made(p, s, steps[0]), steps[1..])
  }

  lemma {:induction false} RunHeld(p: Primitives, s: Sys, steps: seq<Move>)
    requires Lossless(p) && Held(p, s) && IsSafeRun(p, s, steps)
    ensures Held(p, MadeAll(p, s, steps))
    decreases |steps|
  {
    hide Held, Allowed, Safe, Made;
    if steps != [] {
      MadeHeld(p, s, steps[0]);
      RunHeld(p, Made(p, s, steps[0]), steps[1..]);
    }
  }

  /** In every interleaving of any number of publishers and collections in which no object still to be deleted is
      written again, the visible root always opens as published, within the loader's limits: no collection ever
      takes a run it names. */
  lemma CollectionKeepsRoot(p: Primitives, steps: seq<Move>, selected: Key)
    requires Lossless(p) && IsSafeRun(p, EMPTY, steps) && MadeAll(p, EMPTY, steps).w.history != []
    ensures var s := MadeAll(p, EMPTY, steps);
      var e := s.w.history[|s.w.history| - 1];
      var r := LoadFor(p, Present(s), s.w.reg, selected);
      && (r.Ok? <==> forall x: Which :: LoadableHead(p, Present(s), e.root.ids.Get(x)))
      && (r.Ok? ==> Says(r.value) == e.says && r.value.revision == Some(e.revision))
  {
    hide Held, IsSafeRun, MadeAll, LoadFor, LoadableHead, Says;
    EmptyHeld(p);
    RunHeld(p, EMPTY, steps);
    VisibleOpens(p, MadeAll(p, EMPTY, steps), selected);
  }

  /** Clients that share the catalog lock are always safe: none flushes while another's collection is deleting. */
  lemma ExclusionIsSafe(p: Primitives, s: Sys, e: Move)
    requires Held(p, s) && Allowed(p, s, e)
    requires e.Act? && e.action.FlushNext? ==> forall d | d in s.pending && s.pending[d].Deleting? :: d == e.c
    ensures Safe(p, s, e)
  {
    hide Inv, RootGuarded, ClientsGuarded, Moved, Puts;
    if e.Act? && e.action.FlushNext? {
      assert Doomed(s) == {};
    }
  }

  // What reuse leads to

  /** A head that loads has all its objects. */
  lemma LoadFindsAll(p: Primitives, objs: Objects, more: Objects, v: IndexValue)
    requires Load(p, objs, v.head).Ok? && Extends(objs, more) && InStep(p, more, v)
    ensures v.objects <= objs.Keys
  {
    hide Load, IsChain, Loadable, Resolve, Live, InStep, Extends;
    var links := ChainAt(p, objs, v.head);
    ChainExtends(p, objs, more, links);
    ChainOfIndex(p, more, v, links);
    forall l | l in links
      ensures l.id in objs
    {
      var i :| 0 <= i < |links| && links[i] == l;
      ChainHolds(p, objs, links, i);
      HeldPresent(p, objs, l);
    }
  }

  /** So does a catalog that opens. */
  lemma OpenFindsAll(p: Primitives, objs: Objects, more: Objects, reg: Register, selected: Key, t: State)
    requires reg.root.Some? && reg.root.value.bytes == EncodeRoot(p, t) && LoadFor(p, objs, reg, selected).Ok?
    requires Extends(objs, more) && forall x: Which :: InStep(p, more, t.indexes.Get(x))
    ensures AllObjects(t) <= objs.Keys
  {
    RootRoundTrip(p, RootOf(t));
    hide Load, ParseRoot, RootImage, InStep, Extends, HeadsDecode, DecodeHead;
    LoadFindsAll(p, objs, more, t.indexes.Get(Heads));
    LoadFindsAll(p, objs, more, t.indexes.Get(Placements));
    LoadFindsAll(p, objs, more, t.indexes.Get(Endpoints));
    LoadFindsAll(p, objs, more, t.indexes.Get(Retentions));
    LoadFindsAll(p, objs, more, t.indexes.Get(Advisory));
  }

  lemma CleanSwap(p: Primitives, w: World, c: nat, token: Revision)
    requires Enabled(p, w, c, Swap(Clean, token)) && Current(w, w.clients[c])
    ensures c in w.clients
    ensures var w' := Next(p, w, c, Swap(Clean, token));
      w'.objs == w.objs && w'.reg.root == Some(RootRecord(token, EncodeRoot(p, w.clients[c].state)))
  {
    hide RootImage, Says, RootOf;
  }

  /** The converse: a publisher that has flushed an object some other collection has yet to delete, and whose root is
      then applied, leaves a visible root that cannot be opened once it is deleted. */
  lemma ReuseLosesRun(p: Primitives, s: Sys, c: nat, d: nat, id: Id, token: Revision, selected: Key)
    requires Inv(p, s.w) && Enabled(p, s.w, c, Swap(Clean, token)) && Current(s.w, s.w.clients[c])
    requires id in AllObjects(s.w.clients[c].state) && c != d && Allowed(p, s, Delete(d, id))
    ensures var t := Made(p, s, Act(c, Swap(Clean, token)));
      && Allowed(p, t, Delete(d, id))
      && var u := Made(p, t, Delete(d, id));
      && u.w.reg.root.Some? && LoadFor(p, Present(u), u.w.reg, selected).Err?
  {
    hide Inv, Next, Enabled, AllObjects, LoadFor, Current, RootImage, RootOf, InStep, Says;
    CleanSwap(p, s.w, c, token);
    ClientInStep(p, s.w, c);
    var t := Made(p, s, Act(c, Swap(Clean, token)));
    var u := Made(p, t, Delete(d, id));
    if LoadFor(p, Present(u), u.w.reg, selected).Ok? {
      PresentExtends(u);
      OpenFindsAll(p, Present(u), u.w.objs, u.w.reg, selected, s.w.clients[c].state);
    }
  }
}
