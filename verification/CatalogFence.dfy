/** The uncertainty fence over whole runs of the catalog protocol, and when a confirmation tells the truth
    (src/storage/catalog.rs, `publish`, `publish_confirmed`). */
module CatalogFence {
  import opened Bytes
  import opened IndexRun
  import opened Index
  import opened Catalog
  import opened CatalogState
  import opened CatalogProtocol

  // The fence over whole runs

  /** A client behind the fence. */
  ghost predicate Fenced(w: World, c: nat) {
    c in w.clients && w.clients[c].state.uncertain && w.clients[c].phase.Idle?
  }

  lemma UncertainIsFenced(p: Primitives, w: World, c: nat)
    requires Inv(p, w) && c in w.clients && w.clients[c].state.uncertain
    ensures Fenced(w, c)
  {
    hide InStep, SaysValid, ValidHead, ValidName, Says, ApplyAll, FlushedAs, Base, FlushedClean, Linear, RegisterOk, EntryOk;
  }

  /** The run neither opens the client anew nor confirms it. */
  ghost predicate Unreleased(p: Primitives, w: World, events: seq<Event>, c: nat)
    requires IsRun(p, w, events)
    decreases |events|
  {
    events == [] ||
    (var w' := Next(p, w, events[0].client, events[0].action);
     && (events[0].client == c ==>
         !events[0].action.Open? && (events[0].action.ConfirmRoot? ==> c in w'.clients && w'.clients[c].state.uncertain))
     && Unreleased(p, w', events[1..], c))
  }

  lemma FencedStep(p: Primitives, w: World, d: nat, a: Action, c: nat)
    requires Fenced(w, c) && Enabled(p, w, d, a)
    requires d == c ==> !a.Open? && (a.ConfirmRoot? ==> c in Next(p, w, d, a).clients && Next(p, w, d, a).clients[c].state.uncertain)
    ensures var w' := Next(p, w, d, a);
      && Fenced(w', c)
      && (w'.history == w.history
          || (|w'.history| == |w.history| + 1 && w'.history[..|w.history|] == w.history && w'.history[|w.history|].publisher != c))
  {
    hide LoadFor, HeadImage, FlushOne, Says, RootOf, RootImage, ValidHead, ValidName;
  }

  /** Once a client's exchange was stale, failed or uncertain, no root of its own becomes visible until it is opened
      again or a confirmation succeeds, whatever anybody does. */
  lemma {:induction false} FenceHoldsOverRuns(p: Primitives, w: World, events: seq<Event>, c: nat)
    requires Fenced(w, c) && IsRun(p, w, events) && Unreleased(p, w, events, c)
    ensures var t := After(p, w, events);
      && Fenced(t, c)
      && |w.history| <= |t.history| && t.history[..|w.history|] == w.history
      && forall i | |w.history| <= i < |t.history| :: t.history[i].publisher != c
    decreases |events|
  {
    hide Next, Enabled, Fenced;
    if events != [] {
      var w' := Next(p, w, events[0].client, events[0].action);
      FencedStep(p, w, events[0].client, events[0].action, c);
      FenceHoldsOverRuns(p, w', events[1..], c);
      var t := After(p, w', events[1..]);
      assert t.history[..|w.history|] == t.history[..|w'.history|][..|w.history|];
      forall i | |w.history| <= i < |t.history|
        ensures t.history[i].publisher != c
      {
        if i < |w'.history| {
          assert t.history[i] == t.history[..|w'.history|][i] == w'.history[i];
        }
      }
    }
  }

  // When a confirmation tells the truth

  /** The protocol's step is the whole call: on an uncertain state `publish_confirmed` stops at the fence before it
      records the head or flushes anything, and then only rereads the root. */
  lemma ConfirmStepIsCall(p: Primitives, w: World, c: nat, put: Five<PutFault>, fault: ExchangeFault, token: Revision)
    requires Enabled(p, w, c, ConfirmRoot)
    ensures var s := w.clients[c].state;
      var r := Publish(p, w.objs, w.reg, s, put, fault, token);
      var (t, result) := Confirm(p, r.state, r.result, w.reg.root);
      var w' := ConfirmStep(p, w, c);
      && r.objs == w.objs == w'.objs && r.reg == w.reg == w'.reg
      && w'.clients[c].state == t && (result.Ok? <==> !t.uncertain) && t.head == s.head && t.indexes == s.indexes
      && (result.Ok? <==> w.reg.root.Some? && w.reg.root.value.bytes == EncodeRoot(p, s))
  {
    hide RootImage;
    FenceHolds(p, w.objs, w.reg, w.clients[c].state, put, fault, token);
    ConfirmOnUncertain(p, w.objs, w.reg, w.clients[c].state, put, fault, token);
  }

  /** What the client would publish now: its entries with its branch head recorded. */
  function Intended(p: Primitives, s: State): Snapshot {
    Says(Begin(p, s))
  }

  lemma IntendedByEdits(p: Primitives, k: Client)
    requires Says(k.state) == ApplyAll(k.base, k.edits)
    ensures Intended(p, k.state) == ApplyAll(k.base, k.edits + [HeadEdit(p, k.state)])
    ensures Intended(p, k.state).database == k.state.database
  {
    hide HeadImage, ApplyAll;
    assert Begin(p, k.state) == EditState(k.state, HeadEdit(p, k.state));
    EditSays(k.state, HeadEdit(p, k.state));
    ApplyAllSnoc(k.base, k.edits, HeadEdit(p, k.state));
  }

  /** A confirmation that reports success means what it says if and only if the edits made since the last flush,
      the branch head among them, change no entry. */
  lemma ConfirmTrueIff(p: Primitives, w: World, c: nat)
    requires Inv(p, w) && Enabled(p, w, c, ConfirmRoot)
    requires (Confirm(p, w.clients[c].state, Err(Uncertain), w.reg.root)).1.Ok?
    ensures var k := w.clients[c];
      && (Before(w.history, |w.history|) == Intended(p, k.state) <==>
          ApplyAll(k.base, k.edits + [HeadEdit(p, k.state)]).maps == k.base.maps)
  {
    hide InStep, SaysValid, Linear, ValidHead, ValidName, RootImage, EntryOk, RootOf, ApplyAll, Stored, RegisterOk, FlushedClean,
         Confirm, Intended, HeadEdit, Says;
    ConfirmedRoot(p, w, c);
    InvClient(p, w, c);
    IntendedByEdits(p, w.clients[c]);
  }

  /** The heads index already says what the head field says. */
  predicate HeadRecorded(p: Primitives, s: State) {
    var heads := s.indexes.heads.entries;
    if s.head == NO_HEAD then BranchName(s) !in heads
    else BranchName(s) in heads && heads[BranchName(s)] == HeadImage(p, s.head)
  }

  lemma RecordedIntends(p: Primitives, s: State)
    ensures Intended(p, s) == Says(s) <==> HeadRecorded(p, s)
  {
    hide HeadImage;
    var heads := s.indexes.heads.entries;
    if s.head == NO_HEAD && BranchName(s) !in heads {
      assert heads - {BranchName(s)} == heads;
    }
    if HeadRecorded(p, s) && s.head != NO_HEAD {
      assert heads[BranchName(s) := HeadImage(p, s.head)] == heads;
    }
    assert Intended(p, s) == Says(s) ==> Begin(p, s).indexes.heads.entries == heads;
  }

  /** What a caller can look at: with no dirty index a success is true exactly when the heads index already records
      the head. */
  lemma CleanConfirmTrueIff(p: Primitives, w: World, c: nat)
    requires Inv(p, w) && Enabled(p, w, c, ConfirmRoot)
    requires (Confirm(p, w.clients[c].state, Err(Uncertain), w.reg.root)).1.Ok?
    requires forall x: Which :: w.clients[c].state.indexes.Get(x).dirty == map[]
    ensures Before(w.history, |w.history|) == Intended(p, w.clients[c].state) <==> HeadRecorded(p, w.clients[c].state)
  {
    hide InStep, SaysValid, Linear, ValidHead, ValidName, RootImage, EntryOk, RootOf, ApplyAll, Stored, RegisterOk, FlushedClean,
         Confirm, Intended, HeadRecorded;
    ConfirmedRoot(p, w, c);
    var k := w.clients[c];
    forall x: Which
      ensures Says(k.state).maps.Get(x) == k.base.maps.Get(x)
    {
      StoredWhenClean(p, w.objs, k.state.indexes.Get(x));
      StoredUnique(p, w.objs, k.state.indexes.Get(x).head, k.state.indexes.Get(x).entries, k.base.maps.Get(x));
    }
    SameMaps(Says(k.state).maps, k.base.maps);
    assert Before(w.history, |w.history|) == Says(k.state);
    RecordedIntends(p, k.state);
  }

  /** It can report success without an edit: one key inserted on an uncertain client whose root is visible. */
  lemma ConfirmDropsEdit(p: Primitives, w: World, c: nat, key: Key, value: Bytes)
    requires Inv(p, w) && Enabled(p, w, c, ConfirmRoot) && w.clients[c].edits == []
    requires (Confirm(p, w.clients[c].state, Err(Uncertain), w.reg.root)).1.Ok?
    requires key !in w.clients[c].state.indexes.placements.entries
    ensures Enabled(p, w, c, Edit(Write(Placements, key, value)))
    ensures var w1 := Next(p, w, c, Edit(Write(Placements, key, value)));
      && Enabled(p, w1, c, ConfirmRoot)
      && var w2 := Next(p, w1, c, ConfirmRoot);
      && c in w2.clients && !w2.clients[c].state.uncertain
      && key in Says(w2.clients[c].state).maps.placements
      && w2.history == w.history && key !in Before(w2.history, |w2.history|).maps.placements
  {
    hide InStep, SaysValid, Linear, ValidHead, ValidName, RootImage, EntryOk, Stored, RegisterOk, FlushedClean;
    ConfirmedRoot(p, w, c);
    var k := w.clients[c];
    var w1 := Next(p, w, c, Edit(Write(Placements, key, value)));
    assert RootOf(w1.clients[c].state) == RootOf(k.state);
  }

  /** And without the head: a branch head set on such a client leaves no index dirty and no edit behind, the
      confirmation succeeds, and the visible root does not have it. */
  lemma ConfirmDropsHead(p: Primitives, w: World, c: nat, head: Head)
    requires Inv(p, w) && Enabled(p, w, c, ConfirmRoot) && w.clients[c].edits == []
    requires (Confirm(p, w.clients[c].state, Err(Uncertain), w.reg.root)).1.Ok?
    requires head != NO_HEAD && ValidHead(p, head, w.clients[c].state.database)
    requires BranchName(w.clients[c].state) !in w.clients[c].state.indexes.heads.entries
    ensures Enabled(p, w, c, SetHead(head))
    ensures var w1 := Next(p, w, c, SetHead(head));
      && Enabled(p, w1, c, ConfirmRoot) && w1.clients[c].edits == []
      && (forall x: Which :: w1.clients[c].state.indexes.Get(x).dirty == w.clients[c].state.indexes.Get(x).dirty)
      && var w2 := Next(p, w1, c, ConfirmRoot);
      && c in w2.clients && !w2.clients[c].state.uncertain && w2.clients[c].state.head == head
      && w2.history == w.history && BranchName(w2.clients[c].state) !in Before(w2.history, |w2.history|).maps.heads
  {
    hide InStep, SaysValid, Linear, ValidHead, ValidName, RootImage, EntryOk, Stored, RegisterOk, FlushedClean;
    ConfirmedRoot(p, w, c);
    var k := w.clients[c];
    assert ApplyAll(k.base, []) == k.base;
    var w1 := Next(p, w, c, SetHead(head));
    assert RootOf(w1.clients[c].state) == RootOf(k.state);
  }

  // Opening and publishing without an edit

  /** An opened catalog already records its head, unless it was opened under no name and there is a main branch. */
  lemma OpenedRecorded(p: Primitives, objs: Objects, e: Entry, spent: set<Revision>, selected: Key)
    requires EntryOk(p, objs, e)
    requires LoadFor(p, objs, Register(Some(RootRecord(e.revision, RootImage(p, e.root))), spent), selected).Ok?
    ensures var s := LoadFor(p, objs, Register(Some(RootRecord(e.revision, RootImage(p, e.root))), spent), selected).value;
      HeadRecorded(p, s) <==> selected != [] || MAIN !in e.says.maps.heads
  {
    hide LoadFor, Stored, LoadableHead, HeadBytes, HeadImage, RootImage, ValidHead, InStep;
    OpenEntry(p, objs, e, spent, selected);
    EntrySays(p, objs, e);
  }

  lemma PublishSays(p: Primitives, objs: Objects, reg: Register, s: State, put: Five<PutFault>, fault: ExchangeFault, token: Revision)
    requires !s.uncertain
    ensures Says(Publish(p, objs, reg, s, put, fault, token).state) == Intended(p, s)
  {
    hide FlushAll, Begin, EncodeRoot, Says;
    FenceRises(p, objs, reg, s, put, fault, token);
    FlushAllKeeps(p, objs, Begin(p, s), FLUSH_ORDER, put);
    SaysSame(Begin(p, s), Publish(p, objs, reg, s, put, fault, token).state);
  }

  /** Opening any root ever visible and publishing without an edit says the same again, named heads included, if and
      only if a branch was selected or there is no main branch. */
  lemma EditFreePublishKeeps(p: Primitives, events: seq<Event>, i: nat, selected: Key, put: Five<PutFault>,
                             fault: ExchangeFault, token: Revision)
    requires Lossless(p) && IsRun(p, START, events) && i < |After(p, START, events).history|
    requires var w := After(p, START, events);
      var e := w.history[i];
      LoadFor(p, w.objs, Register(Some(RootRecord(e.revision, RootImage(p, e.root))), w.reg.spent), selected).Ok?
    ensures var w := After(p, START, events);
      var e := w.history[i];
      var s := LoadFor(p, w.objs, Register(Some(RootRecord(e.revision, RootImage(p, e.root))), w.reg.spent), selected).value;
      var r := Publish(p, w.objs, w.reg, s, put, fault, token);
      Says(r.state) == e.says <==> selected != [] || MAIN !in e.says.maps.heads
  {
    hide Next, Enabled, LoadFor, EntryOk, ClientOk, LoadableHead, RootImage, Says, IsRun, After, Publish, HeadRecorded, Intended;
    StartInv(p);
    RunInv(p, START, events);
    var w := After(p, START, events);
    var e := w.history[i];
    var s := LoadFor(p, w.objs, Register(Some(RootRecord(e.revision, RootImage(p, e.root))), w.reg.spent), selected).value;
    OpenEntry(p, w.objs, e, w.reg.spent, selected);
    OpenedRecorded(p, w.objs, e, w.reg.spent, selected);
    PublishSays(p, w.objs, w.reg, s, put, fault, token);
    RecordedIntends(p, s);
  }

  /** A fork adds exactly its own branch, from the given head, to what the client would publish. */
  lemma ForkIsPublished(p: Primitives, w: World, c: nat, name: Key, head: Head)
    requires Enabled(p, w, c, Fork(name, head)) && name != BranchName(w.clients[c].state)
    ensures var w' := Next(p, w, c, Fork(name, head));
      && c in w'.clients
      && var (a, b) := (Intended(p, w.clients[c].state), Intended(p, w'.clients[c].state));
      b == a.(maps := a.maps.(heads := a.maps.heads[name := HeadImage(p, head)]))
  {
    hide HeadImage, ValidHead, ValidName, Says, Intended, Apply, EditState, HeadEdit, BranchName;
    var s, e := w.clients[c].state, Write(Heads, name, HeadImage(p, head));
    var s' := EditState(s, e);
    EditSays(s, e);
    IntendedApplies(p, s);
    IntendedApplies(p, s');
    SameBranch(p, s, e);
    EditsCommute(Says(s), e, HeadEdit(p, s));
  }

  lemma IntendedApplies(p: Primitives, s: State)
    ensures Intended(p, s) == Apply(Says(s), HeadEdit(p, s))
  {
    hide HeadImage;
    assert Begin(p, s) == EditState(s, HeadEdit(p, s));
    EditSays(s, HeadEdit(p, s));
  }

  lemma SameBranch(p: Primitives, s: State, e: Edit)
    requires e.Write?
    ensures HeadEdit(p, EditState(s, e)) == HeadEdit(p, s)
    ensures !HeadEdit(p, s).Claim? && HeadEdit(p, s).which == Heads && HeadEdit(p, s).key == BranchName(s)
  {
    hide HeadImage;
  }

  lemma EditsCommute(a: Snapshot, e: Edit, d: Edit)
    requires e.Write? && e.which == Heads && !d.Claim? && d.which == Heads && d.key != e.key
    ensures var b := Apply(a, d); Apply(Apply(a, e), d) == b.(maps := b.maps.(heads := b.maps.heads[e.key := e.value]))
  {
    var x, y := Apply(Apply(a, e), d).maps.heads, Apply(a, d).maps.heads[e.key := e.value];
    assert x == y;
  }

  // An uncertain client with a visible root occurs

  ghost predicate Reachable(p: Primitives, w: World) {
    exists events :: IsRun(p, START, events) && After(p, START, events) == w
  }

  lemma {:induction false} RunSnoc(p: Primitives, w: World, events: seq<Event>, e: Event)
    requires IsRun(p, w, events) && Enabled(p, After(p, w, events), e.client, e.action)
    ensures IsRun(p, w, events + [e])
    ensures After(p, w, events + [e]) == Next(p, After(p, w, events), e.client, e.action)
    decreases |events|
  {
    hide Next, Enabled;
    if events == [] {
      assert [e][1..] == [] && [] + [e] == [e];
    } else {
      assert (events + [e])[1..] == events[1..] + [e];
      RunSnoc(p, Next(p, w, events[0].client, events[0].action), events[1..], e);
    }
  }

  lemma ReachNext(p: Primitives, w: World, c: nat, a: Action)
    requires Reachable(p, w) && Enabled(p, w, c, a)
    ensures Reachable(p, Next(p, w, c, a))
  {
    hide Next, Enabled;
    var events :| IsRun(p, START, events) && After(p, START, events) == w;
    RunSnoc(p, START, events, Event(c, a));
  }

  lemma ReachStart(p: Primitives)
    ensures Reachable(p, START)
  {
    assert IsRun(p, START, []) && After(p, START, []) == START;
  }

  /** The only client, on an empty namespace. */
  ghost function Alone(edits: seq<Edit>, phase: Phase): World {
    START.(clients := map[0 := Client(FreshState([]), NOTHING, edits, phase)])
  }

  lemma OpensAlone(p: Primitives)
    ensures Reachable(p, Alone([], Idle))
  {
    hide Next, LoadFor;
    ReachStart(p);
    ReachNext(p, START, 0, Open([]));
    OpenNothing(p, map[], Register(None, {}), []);
    OpenedAlone(p);
  }

  lemma OpenedAlone(p: Primitives)
    requires LoadFor(p, map[], Register(None, {}), []) == Ok(FreshState([]))
    ensures Next(p, START, 0, Open([])) == Alone([], Idle)
  {
    hide LoadFor;
    assert map[][0 := Client(FreshState([]), NOTHING, [], Idle)] == map[0 := Client(FreshState([]), NOTHING, [], Idle)];
  }

  lemma BeginsAlone(p: Primitives)
    ensures Reachable(p, Alone([Erase(Heads, MAIN)], Publishing(0)))
  {
    hide LoadFor, HeadImage;
    OpensAlone(p);
    var w := Alone([], Idle);
    ReachNext(p, w, 0, BeginPublish);
    assert Begin(p, FreshState([])) == FreshState([]);
    assert Next(p, w, 0, BeginPublish) == Alone([Erase(Heads, MAIN)], Publishing(0)) by {
      assert [] + [Erase(Heads, MAIN)] == [Erase(Heads, MAIN)];
    }
  }

  lemma {:induction false} FlushesAlone(p: Primitives, n: nat)
    requires n <= |FLUSH_ORDER|
    ensures Reachable(p, Alone([Erase(Heads, MAIN)], Publishing(n)))
  {
    hide Next;
    if n == 0 {
      BeginsAlone(p);
    } else {
      FlushesAlone(p, n - 1);
      var w := Alone([Erase(Heads, MAIN)], Publishing(n - 1));
      ReachNext(p, w, 0, FlushNext(NoFault));
      FlushedAlone(p, n - 1);
    }
  }

  lemma FlushedAlone(p: Primitives, n: nat)
    requires n < |FLUSH_ORDER|
    ensures Next(p, Alone([Erase(Heads, MAIN)], Publishing(n)), 0, FlushNext(NoFault)) == Alone([Erase(Heads, MAIN)], Publishing(n + 1))
  {
    var s := FreshState([]);
    assert s.indexes.Get(FLUSH_ORDER[n]) == EMPTY_INDEX;
    assert FlushOne(p, map[], s, FLUSH_ORDER[n], NoFault) == FlushedState(s, map[], Ok(()));
  }

  /** A first publication whose acknowledgement is an error although the root became visible. */
  lemma UncertainOccurs(p: Primitives)
    ensures exists w ::
      && Reachable(p, w) && 0 in w.clients && w.clients[0].edits == [] && Enabled(p, w, 0, ConfirmRoot)
      && (Confirm(p, w.clients[0].state, Err(Uncertain), w.reg.root)).1.Ok?
      && w.clients[0].state == FreshState([]).(uncertain := true)
  {
    hide Next, RootImage;
    FlushesAlone(p, |FLUSH_ORDER|);
    var w := Alone([Erase(Heads, MAIN)], Publishing(|FLUSH_ORDER|));
    var a := Swap(Broken(true), 0);
    assert Enabled(p, w, 0, a);
    ReachNext(p, w, 0, a);
    SwappedAlone(p);
    var w' := Next(p, w, 0, a);
    assert Reachable(p, w');
  }

  lemma SwappedAlone(p: Primitives)
    ensures var w := Alone([Erase(Heads, MAIN)], Publishing(|FLUSH_ORDER|));
      Enabled(p, w, 0, Swap(Broken(true), 0))
    ensures var w := Alone([Erase(Heads, MAIN)], Publishing(|FLUSH_ORDER|));
      var t := Next(p, w, 0, Swap(Broken(true), 0));
      && 0 in t.clients && t.clients[0].state == FreshState([]).(uncertain := true) && t.clients[0].edits == []
      && t.clients[0].phase == Idle && t.reg.root == Some(RootRecord(0, EncodeRoot(p, FreshState([]))))
  {
    hide RootImage;
  }

  /** Both kinds of loss occur from an empty namespace. */
  lemma LossesOccur(p: Primitives, key: Key, value: Bytes, id: Digest)
    requires Lossless(p)
    ensures exists w, w' :: Reachable(p, w) && Reachable(p, w') && Lost(w, key) && Unrecorded(w')
  {
    hide Next, Confirm, Reachable, Inv;
    UncertainOccurs(p);
    var w :| && Reachable(p, w) && 0 in w.clients && w.clients[0].edits == [] && Enabled(p, w, 0, ConfirmRoot)
             && (Confirm(p, w.clients[0].state, Err(Uncertain), w.reg.root)).1.Ok?
             && w.clients[0].state == FreshState([]).(uncertain := true);
    ReachableInv(p, w);
    ConfirmDropsEdit(p, w, 0, key, value);
    var e := Edit(Write(Placements, key, value));
    ReachNext(p, w, 0, e);
    ReachNext(p, Next(p, w, 0, e), 0, ConfirmRoot);
    var head := Head(Some(id), None, None);
    AttachmentOnlyValid(p, id);
    ConfirmDropsHead(p, w, 0, head);
    ReachNext(p, w, 0, SetHead(head));
    ReachNext(p, Next(p, w, 0, SetHead(head)), 0, ConfirmRoot);
    assert Lost(Next(p, Next(p, w, 0, e), 0, ConfirmRoot), key);
    assert Unrecorded(Next(p, Next(p, w, 0, SetHead(head)), 0, ConfirmRoot));
  }

  /** A certain client that believes a key is published which is not. */
  ghost predicate Lost(w: World, key: Key) {
    && 0 in w.clients && !w.clients[0].state.uncertain && key in Says(w.clients[0].state).maps.placements
    && key !in Before(w.history, |w.history|).maps.placements
  }

  /** A certain client whose branch head is not in the visible root. */
  ghost predicate Unrecorded(w: World) {
    && 0 in w.clients && !w.clients[0].state.uncertain && w.clients[0].state.head != NO_HEAD
    && BranchName(w.clients[0].state) !in Before(w.history, |w.history|).maps.heads
  }

  lemma AttachmentOnlyValid(p: Primitives, id: Digest)
    ensures ValidHead(p, Head(Some(id), None, None), None)
  {
  }

  lemma ReachableInv(p: Primitives, w: World)
    requires Lossless(p) && Reachable(p, w)
    ensures Inv(p, w)
  {
    hide Inv, IsRun, After;
    var events :| IsRun(p, START, events) && After(p, START, events) == w;
    StartInv(p);
    RunInv(p, START, events);
  }
}
