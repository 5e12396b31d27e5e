/** Many clients publishing to one namespace, one step at a time: every root that ever becomes visible is
    its predecessor plus its publisher's own edits. */
module CatalogProtocol {
  import opened Bytes
  import opened IndexRun
  import opened Index
  import opened IndexProofs
  import opened Catalog
  import opened CatalogState

  // What a catalog says

  datatype Snapshot = Snapshot(database: Option<Digest>, maps: Five<Entries>)

  datatype Edit =
    | Claim(database: Digest)
    | Write(which: Which, key: Key, value: Bytes)
    | Erase(which: Which, key: Key)

  function Apply(s: Snapshot, e: Edit): Snapshot {
    match e
    case Claim(d) => s.(database := Some(d))
    case Write(w, k, x) => s.(maps := s.maps.Set(w, s.maps.Get(w)[k := x]))
    case Erase(w, k) => s.(maps := s.maps.Set(w, s.maps.Get(w) - {k}))
  }

  function ApplyAll(s: Snapshot, es: seq<Edit>): Snapshot {
    if es == [] then s else Apply(ApplyAll(s, es[..|es| - 1]), es[|es| - 1])
  }

  const NOTHING: Snapshot := Snapshot(None, Five(map[], map[], map[], map[], map[]))

  function Says(s: State): Snapshot {
    Snapshot(s.database, Five(s.indexes.placements.entries, s.indexes.endpoints.entries, s.indexes.retentions.entries,
                              s.indexes.advisory.entries, s.indexes.heads.entries))
  }

  // The system

  /** Idle, or inside a publication with `next` indexes already flushed. */
  datatype Phase = Idle | Publishing(next: nat)

  /** `base` is the catalog a certain client started from, and what an uncertain one had flushed when its exchange
      went wrong; `edits` are the edits since. */
  datatype Client = Client(state: State, base: Snapshot, edits: seq<Edit>, phase: Phase)

  /** One visible root: its token, what it encodes, what it says, by which edits and by whom. */
  datatype Entry = Entry(revision: Revision, root: Root, says: Snapshot, edits: seq<Edit>, publisher: nat)

  datatype World = World(objs: Objects, reg: Register, history: seq<Entry>, clients: map<nat, Client>)

  datatype Action =
    | Open(selected: Key)
    | Edit(edit: Edit)
    | SetHead(head: Head)
    | Fork(name: Key, head: Head)
    | BeginPublish
    | FlushNext(put: PutFault)
    | Swap(fault: ExchangeFault, token: Revision)
    | ConfirmRoot

  function EditState(s: State, e: Edit): State {
    match e
    case Claim(d) => s.(database := Some(d))
    case Write(w, k, x) => s.(indexes := s.indexes.Set(w, Insert(s.indexes.Get(w), k, x)))
    case Erase(w, k) => s.(indexes := s.indexes.Set(w, Remove(s.indexes.Get(w), k)))
  }

  function HeadEdit(p: Primitives, s: State): Edit {
    if s.head != NO_HEAD then Write(Heads, BranchName(s), HeadImage(p, s.head)) else Erase(Heads, BranchName(s))
  }

  /** What each action demands: an idle client edits, certain or not, and publishes only if certain; the heads index
      is edited only through whole valid heads; a fork starts from a sealed one; the namespace identity is set once;
      tokens are new. Only an uncertain
      client rereads the root, at once or after further edits. */
  ghost predicate Enabled(p: Primitives, w: World, c: nat, a: Action) {
    match a
    case Open(selected) => selected == [] || ValidName(selected)
    case Edit(e) =>
      && c in w.clients && w.clients[c].phase.Idle?
      && (e.Write? || e.Erase? ==> e.which != Heads)
      && (e.Claim? ==> w.clients[c].state.database in {None, Some(e.database)})
    case SetHead(head) =>
      && c in w.clients && w.clients[c].phase.Idle? && ValidHead(p, head, w.clients[c].state.database)
    case Fork(name, head) =>
      && c in w.clients && w.clients[c].phase.Idle? && ValidName(name)
      && head.sealed.Some? && ValidHead(p, head, w.clients[c].state.database)
    case BeginPublish => c in w.clients && w.clients[c].phase.Idle? && !w.clients[c].state.uncertain
    case FlushNext(_) =>
      c in w.clients && w.clients[c].phase.Publishing? && w.clients[c].phase.next < |FLUSH_ORDER|
    case Swap(_, token) =>
      && c in w.clients && w.clients[c].phase.Publishing? && w.clients[c].phase.next == |FLUSH_ORDER|
      && token !in w.reg.spent
    case ConfirmRoot => c in w.clients && w.clients[c].phase.Idle? && w.clients[c].state.uncertain
  }

  /** The edits of a client that has not loaded yet start from an empty catalog. */
  ghost function Next(p: Primitives, w: World, c: nat, a: Action): World
    requires Enabled(p, w, c, a)
  {
    match a
    case Open(selected) =>
      var r := LoadFor(p, w.objs, w.reg, selected);
      if r.Err? then w else w.(clients := w.clients[c := Client(r.value, Says(r.value), [], Idle)])
    case Edit(e) => Recorded(w, c, e)
    case SetHead(head) =>
      var k := w.clients[c];
      w.(clients := w.clients[c := k.(state := k.state.(head := head))])
    case Fork(name, head) => Recorded(w, c, Write(Heads, name, HeadImage(p, head)))
    case BeginPublish =>
      var k := w.clients[c];
      w.(clients := w.clients[c := Client(Begin(p, k.state), k.base, k.edits + [HeadEdit(p, k.state)], Publishing(0))])
    case FlushNext(put) => FlushStep(p, w, c, put)
    case Swap(fault, token) => SwapStep(p, w, c, fault, token)
    case ConfirmRoot => ConfirmStep(p, w, c)
  }

  ghost function FlushStep(p: Primitives, w: World, c: nat, put: PutFault): World
    requires Enabled(p, w, c, FlushNext(put))
  {
    var k := w.clients[c];
    var f := FlushOne(p, w.objs, k.state, FLUSH_ORDER[k.phase.next], put);
    World(f.objs, w.reg, w.history, w.clients[c := k.(state := f.state,
      phase := if f.result.Ok? then Publishing(k.phase.next + 1) else Idle)])
  }

  ghost function SwapStep(p: Primitives, w: World, c: nat, fault: ExchangeFault, token: Revision): World
    requires Enabled(p, w, c, Swap(fault, token))
  {
    var k := w.clients[c];
    var r := Finish(p, w.reg, k.state, fault, token);
    World(w.objs, r.reg,
      if r.reg != w.reg then w.history + [Entry(token, RootOf(k.state), Says(k.state), k.edits, c)] else w.history,
      w.clients[c := Client(r.state, Says(k.state), [], Idle)])
  }

  ghost function ConfirmStep(p: Primitives, w: World, c: nat): World
    requires Enabled(p, w, c, ConfirmRoot)
  {
    var k := w.clients[c];
    var (s, result) := Confirm(p, k.state, Err(Uncertain), w.reg.root);
    w.(clients := w.clients[c := if result.Ok? then Client(s, Before(w.history, |w.history|), k.edits, Idle) else k])
  }

  function Recorded(w: World, c: nat, e: Edit): World
    requires c in w.clients
  {
    var k := w.clients[c];
    w.(clients := w.clients[c := k.(state := EditState(k.state, e), edits := k.edits + [e])])
  }

  // The invariant

  /** A stored head of an index: a chain of at most sixteen runs that resolves to these entries. */
  ghost predicate Stored(p: Primitives, objs: Objects, head: Option<Id>, entries: Entries) {
    exists links ::
      IsChain(p, objs, links) && HeadOf(links) == head && Live(Resolve(links)) == entries && |links| <= CHECKPOINT_DEPTH
  }

  ghost predicate InStep(p: Primitives, objs: Objects, v: IndexValue) {
    v.depth <= CHECKPOINT_DEPTH && exists links :: Agrees(p, objs, v, links)
  }

  /** These are the bytes of a head that has something to say. */
  ghost predicate HeadBytes(p: Primitives, b: Bytes, database: Option<Digest>) {
    exists h :: h != NO_HEAD && ValidHead(p, h, database) && b == HeadImage(p, h)
  }

  ghost predicate HeadsValid(p: Primitives, heads: Entries, database: Option<Digest>) {
    forall name | name in heads :: ValidName(name) && HeadBytes(p, heads[name], database)
  }

  ghost predicate SaysValid(p: Primitives, s: Snapshot) {
    HeadsValid(p, s.maps.heads, s.database)
  }

  ghost predicate EntryOk(p: Primitives, objs: Objects, e: Entry) {
    && e.root.database == e.says.database
    && SaysValid(p, e.says)
    && forall x: Which :: Stored(p, objs, e.root.ids.Get(x), e.says.maps.Get(x))
  }

  /** The catalog a token stands for. */
  ghost predicate Base(history: seq<Entry>, revision: Option<Revision>, base: Snapshot) {
    if revision.None? then base == NOTHING
    else exists i :: 0 <= i < |history| && history[i].revision == revision.value && history[i].says == base
  }

  function FlushedSoFar(ph: Phase): (n: nat)
    ensures n <= |FLUSH_ORDER|
  {
    match ph
    case Idle => 0
    case Publishing(n) => Min(n, |FLUSH_ORDER|)
  }

  ghost predicate ClientOk(p: Primitives, w: World, k: Client) {
    && (k.state.selected == [] || ValidName(k.state.selected))
    && ValidHead(p, k.state.head, k.state.database)
    && SaysValid(p, Says(k.state))
    && (forall x: Which :: InStep(p, w.objs, k.state.indexes.Get(x)))
    && Says(k.state) == ApplyAll(k.base, k.edits)
    && (if k.state.uncertain then FlushedAs(p, w.objs, k.state, k.base) else Base(w.history, k.state.revision, k.base))
    && (k.phase.Publishing? ==> !k.state.uncertain && k.phase.next <= |FLUSH_ORDER|)
    && FlushedClean(k)
  }

  /** The runs the state's heads name hold these maps. */
  ghost predicate FlushedAs(p: Primitives, objs: Objects, s: State, base: Snapshot) {
    forall x: Which :: Stored(p, objs, s.indexes.Get(x).head, base.maps.Get(x))
  }

  ghost predicate FlushedClean(k: Client) {
    forall i | 0 <= i < FlushedSoFar(k.phase) :: k.state.indexes.Get(FLUSH_ORDER[i]).dirty == map[]
  }

  /** What the catalog said just before the i-th root became visible. */
  function Before(history: seq<Entry>, i: nat): Snapshot
    requires i <= |history|
  {
    if i == 0 then NOTHING else history[i - 1].says
  }

  /** Every visible root is its predecessor plus its publisher's edits. */
  ghost predicate Linear(history: seq<Entry>) {
    && (forall i, j | 0 <= i < j < |history| :: history[i].revision != history[j].revision)
    && (forall i | 0 <= i < |history| ::
        history[i].says == ApplyAll(Before(history, i), history[i].edits))
  }

  ghost predicate RegisterOk(p: Primitives, w: World) {
    && (w.reg.root.None? <==> w.history == [])
    && (w.history != [] ==>
        w.reg.root == Some(RootRecord(w.history[|w.history| - 1].revision, RootImage(p, w.history[|w.history| - 1].root))))
    && (forall i | 0 <= i < |w.history| :: w.history[i].revision in w.reg.spent)
  }

  ghost predicate Inv(p: Primitives, w: World) {
    && Linear(w.history)
    && RegisterOk(p, w)
    && (forall i | 0 <= i < |w.history| :: EntryOk(p, w.objs, w.history[i]))
    && (forall c | c in w.clients :: ClientOk(p, w, w.clients[c]))
  }

  // Objects are only ever added

  ghost predicate Extends(objs: Objects, more: Objects) {
    forall id | id in objs :: id in more && more[id] == objs[id]
  }

  lemma ChainExtends(p: Primitives, objs: Objects, more: Objects, links: seq<Link>)
    requires IsChain(p, objs, links) && Extends(objs, more)
    ensures IsChain(p, more, links)
  {
    hide IsChain, Holds;
    forall l | l in links
      ensures l.id in objs
    {
      var i :| 0 <= i < |links| && links[i] == l;
      ChainHolds(p, objs, links, i);
      HeldPresent(p, objs, l);
    }
    ChainGrows(p, objs, more, links);
  }

  lemma HeldPresent(p: Primitives, objs: Objects, l: Link)
    requires Holds(p, objs, l)
    ensures l.id in objs
  {
  }

  lemma StoredExtends(p: Primitives, objs: Objects, more: Objects, head: Option<Id>, entries: Entries)
    requires Stored(p, objs, head, entries) && Extends(objs, more)
    ensures Stored(p, more, head, entries)
  {
    hide IsChain, Resolve, Live;
    var links :| IsChain(p, objs, links) && HeadOf(links) == head && Live(Resolve(links)) == entries && |links| <= CHECKPOINT_DEPTH;
    ChainExtends(p, objs, more, links);
  }

  lemma InStepExtends(p: Primitives, objs: Objects, more: Objects, v: IndexValue)
    requires InStep(p, objs, v) && Extends(objs, more)
    ensures InStep(p, more, v)
  {
    hide IsChain, Resolve, Live;
    var links :| Agrees(p, objs, v, links);
    ChainExtends(p, objs, more, links);
    assert Agrees(p, more, v, links);
  }

  lemma EntryExtends(p: Primitives, objs: Objects, more: Objects, e: Entry)
    requires EntryOk(p, objs, e) && Extends(objs, more)
    ensures EntryOk(p, more, e)
  {
    hide Stored, SaysValid;
    forall x: Which
      ensures Stored(p, more, e.root.ids.Get(x), e.says.maps.Get(x))
    {
      StoredExtends(p, objs, more, e.root.ids.Get(x), e.says.maps.Get(x));
    }
  }

  lemma BaseExtends(history: seq<Entry>, e: Entry, revision: Option<Revision>, base: Snapshot)
    requires Base(history, revision, base)
    ensures Base(history + [e], revision, base)
  {
    if revision.Some? {
      var i :| 0 <= i < |history| && history[i].revision == revision.value && history[i].says == base;
      assert (history + [e])[i] == history[i];
    }
  }

  /** A client keeps its standing when others add objects or roots. */
  lemma ClientExtends(p: Primitives, w: World, w': World, k: Client)
    requires ClientOk(p, w, k) && Extends(w.objs, w'.objs)
    requires w'.history == w.history || (w'.history != [] && w.history == w'.history[..|w'.history| - 1])
    ensures ClientOk(p, w', k)
  {
    hide InStep, SaysValid, ValidHead, ValidName, Says, ApplyAll, Stored, FlushedClean;
    forall x: Which
      ensures InStep(p, w'.objs, k.state.indexes.Get(x))
    {
      InStepExtends(p, w.objs, w'.objs, k.state.indexes.Get(x));
    }
    if k.state.uncertain {
      forall x: Which
        ensures Stored(p, w'.objs, k.state.indexes.Get(x).head, k.base.maps.Get(x))
      {
        StoredExtends(p, w.objs, w'.objs, k.state.indexes.Get(x).head, k.base.maps.Get(x));
      }
    }
    if w'.history != w.history && !k.state.uncertain {
      var n := |w'.history| - 1;
      BaseExtends(w.history, w'.history[n], k.state.revision, k.base);
      assert w.history + [w'.history[n]] == w'.history;
    }
  }

  /** One client moved; the objects grew and at most one root was added. */
  lemma StepInv(p: Primitives, w: World, w': World, c: nat)
    requires Inv(p, w) && Extends(w.objs, w'.objs)
    requires w'.history == w.history || (w'.history != [] && w.history == w'.history[..|w'.history| - 1])
    requires Linear(w'.history) && RegisterOk(p, w')
    requires w'.history != w.history ==> EntryOk(p, w'.objs, w'.history[|w'.history| - 1])
    requires w'.clients.Keys <= w.clients.Keys + {c}
    requires forall d | d in w'.clients && d != c :: w'.clients[d] == w.clients[d]
    requires c in w'.clients ==> ClientOk(p, w', w'.clients[c])
    ensures Inv(p, w')
  {
    hide EntryOk, ClientOk, Linear, RegisterOk;
    forall i | 0 <= i < |w'.history|
      ensures EntryOk(p, w'.objs, w'.history[i])
    {
      if i < |w.history| {
        assert w'.history[i] == w.history[i];
        EntryExtends(p, w.objs, w'.objs, w.history[i]);
      }
    }
    forall d | d in w'.clients
      ensures ClientOk(p, w', w'.clients[d])
    {
      if d != c {
        ClientExtends(p, w, w', w.clients[d]);
      }
    }
  }

  /** A step that leaves the root alone. */
  lemma QuietInv(p: Primitives, w: World, objs: Objects, c: nat, k: Client)
    requires Inv(p, w) && Extends(w.objs, objs) && ClientOk(p, w.(objs := objs), k)
    ensures Inv(p, World(objs, w.reg, w.history, w.clients[c := k]))
  {
    hide EntryOk, ClientOk, Linear, RegisterOk, Extends;
    var w' := World(objs, w.reg, w.history, w.clients[c := k]);
    SameStanding(p, w.(objs := objs), w', k);
    RegisterSame(p, w, w');
    StepInv(p, w, w', c);
  }

  /** A client's standing depends on the objects and the history only. */
  lemma SameStanding(p: Primitives, w: World, w': World, k: Client)
    requires ClientOk(p, w, k) && w'.objs == w.objs && w'.history == w.history
    ensures ClientOk(p, w', k)
  {
  }

  lemma RegisterSame(p: Primitives, w: World, w': World)
    requires RegisterOk(p, w) && w'.reg == w.reg && w'.history == w.history
    ensures RegisterOk(p, w')
  {
  }

  // Editing

  lemma ApplyAllSnoc(s: Snapshot, es: seq<Edit>, e: Edit)
    ensures ApplyAll(s, es + [e]) == Apply(ApplyAll(s, es), e)
  {
    assert (es + [e])[..|es|] == es;
  }

  lemma EditSays(s: State, e: Edit)
    ensures Says(EditState(s, e)) == Apply(Says(s), e)
  {
    match e
    case Claim(_) =>
    case Write(w, k, x) =>
      assert Insert(s.indexes.Get(w), k, x).entries == s.indexes.Get(w).entries[k := x];
    case Erase(w, k) =>
      assert Remove(s.indexes.Get(w), k).entries == s.indexes.Get(w).entries - {k};
  }

  lemma EditInStep(p: Primitives, objs: Objects, s: State, e: Edit, x: Which)
    requires InStep(p, objs, s.indexes.Get(x))
    ensures InStep(p, objs, EditState(s, e).indexes.Get(x))
  {
    hide Agrees;
    var v := s.indexes.Get(x);
    var links :| Agrees(p, objs, v, links);
    match e
    case Claim(_) =>
    case Write(w, k, y) =>
      if w == x {
        InsertAgrees(p, objs, v, links, k, y);
      }
    case Erase(w, k) =>
      if w == x {
        RemoveAgrees(p, objs, v, links, k);
      }
  }

  /** The edits that leave the heads index well formed. */
  ghost predicate KeepsHeads(p: Primitives, s: State, e: Edit) {
    match e
    case Claim(d) => s.database in {None, Some(d)}
    case Write(w, k, x) =>
      w == Heads ==> ValidName(k) && HeadBytes(p, x, s.database)
    case Erase(_, _) => true
  }

  lemma ClaimKeepsHead(p: Primitives, h: Head, d: Digest)
    requires ValidHead(p, h, None)
    ensures ValidHead(p, h, Some(d))
  {
  }

  lemma EditKeepsHeads(p: Primitives, s: State, e: Edit)
    requires KeepsHeads(p, s, e) && SaysValid(p, Says(s))
    ensures SaysValid(p, Says(EditState(s, e)))
  {
    hide HeadImage, ValidHead, ValidName;
    var heads := Says(s).maps.heads;
    EditSays(s, e);
    match e
    case Claim(d) =>
      forall name | name in heads
        ensures HeadBytes(p, heads[name], Some(d))
      {
        var h :| h != NO_HEAD && ValidHead(p, h, s.database) && heads[name] == HeadImage(p, h);
        if s.database.None? {
          ClaimKeepsHead(p, h, d);
        }
      }
    case Write(_, _, _) =>
    case Erase(_, _) =>
  }

  lemma EditKeepsRest(p: Primitives, s: State, e: Edit)
    requires KeepsHeads(p, s, e) && ValidHead(p, s.head, s.database)
    ensures var t := EditState(s, e);
      && t.selected == s.selected && t.revision == s.revision && t.uncertain == s.uncertain
      && ValidHead(p, t.head, t.database)
  {
    hide HeadImage, ValidName;
    if e.Claim? && s.database.None? {
      ClaimKeepsHead(p, s.head, e.database);
    }
  }

  /** Edits are only remembered; no head moves. */
  lemma EditKeepsRuns(s: State, e: Edit)
    ensures forall x: Which :: EditState(s, e).indexes.Get(x).head == s.indexes.Get(x).head
  {
  }

  lemma EditClient(p: Primitives, w: World, k: Client, e: Edit, phase: Phase)
    requires ClientOk(p, w, k) && KeepsHeads(p, k.state, e)
    requires phase == Idle || (phase == Publishing(0) && !k.state.uncertain)
    ensures ClientOk(p, w, Client(EditState(k.state, e), k.base, k.edits + [e], phase))
  {
    hide InStep, SaysValid, HeadImage, Base, ValidHead, ValidName, Says, ApplyAll, EditState, KeepsHeads, Stored;
    EditKeepsRuns(k.state, e);
    EditKeepsHeads(p, k.state, e);
    EditSays(k.state, e);
    ApplyAllSnoc(k.base, k.edits, e);
    EditKeepsRest(p, k.state, e);
    forall x: Which
      ensures InStep(p, w.objs, EditState(k.state, e).indexes.Get(x))
    {
      EditInStep(p, w.objs, k.state, e, x);
    }
  }

  // Opening

  /** Whether a stored head is within the loader's size limits. */
  ghost predicate LoadableHead(p: Primitives, objs: Objects, head: Option<Id>) {
    exists links :: IsChain(p, objs, links) && HeadOf(links) == head && Loadable(objs, links)
  }

  lemma LoadStored(p: Primitives, objs: Objects, head: Option<Id>, entries: Entries)
    requires Stored(p, objs, head, entries)
    ensures Load(p, objs, head).Ok? <==> LoadableHead(p, objs, head)
    ensures Load(p, objs, head).Ok? ==>
      var v := Load(p, objs, head).value; v.head == head && v.entries == entries && v.dirty == map[] && InStep(p, objs, v)
  {
    hide IsChain, Resolve, Live, Ids, Loadable, Load;
    var links :| IsChain(p, objs, links) && HeadOf(links) == head && Live(Resolve(links)) == entries && |links| <= CHECKPOINT_DEPTH;
    LoadOfChain(p, objs, links);
    forall other | IsChain(p, objs, other) && HeadOf(other) == head
      ensures other == links
    {
      ChainUnique(p, objs, other, links);
    }
    if Load(p, objs, head).Ok? {
      assert Resolve(links) + map[] == Resolve(links);
      assert Agrees(p, objs, Load(p, objs, head).value, links);
    }
  }

  /** The head an opened branch has: the one whose bytes are stored under its name, or none. */
  predicate BranchHead(p: Primitives, heads: Entries, selected: Key, head: Head) {
    if selected in heads then head != NO_HEAD && HeadImage(p, head) == heads[selected] else head == NO_HEAD
  }

  lemma HeadsDecoded(p: Primitives, heads: Entries, database: Option<Digest>)
    requires HeadsValid(p, heads, database)
    ensures HeadsDecode(p, heads, database)
    ensures forall name | name in heads ::
      var h := DecodeHead(p, heads[name], database).value;
      h != NO_HEAD && ValidHead(p, h, database) && HeadImage(p, h) == heads[name]
  {
    hide HeadImage, ValidHead, ValidName, DecodeHead;
    forall name | name in heads
      ensures DecodeHead(p, heads[name], database).Ok?
      ensures var h := DecodeHead(p, heads[name], database).value;
        h != NO_HEAD && ValidHead(p, h, database) && HeadImage(p, h) == heads[name]
    {
      var h :| h != NO_HEAD && ValidHead(p, h, database) && heads[name] == HeadImage(p, h);
      HeadRoundTrip(p, h, database);
    }
  }

  /** Opening any root that was ever visible succeeds exactly when its five chains are within the loader's
      limits, and returns what its publisher said, with the head stored under the selected name. */
  lemma OpenEntry(p: Primitives, objs: Objects, e: Entry, spent: set<Revision>, selected: Key)
    requires EntryOk(p, objs, e)
    ensures var r := LoadFor(p, objs, Register(Some(RootRecord(e.revision, RootImage(p, e.root))), spent), selected);
      && (r.Ok? <==> forall x: Which :: LoadableHead(p, objs, e.root.ids.Get(x)))
      && (r.Ok? ==>
          && Says(r.value) == e.says
          && r.value.revision == Some(e.revision)
          && r.value.selected == selected
          && !r.value.uncertain
          && ValidHead(p, r.value.head, e.says.database)
          && BranchHead(p, e.says.maps.heads, selected, r.value.head)
          && forall x: Which :: InStep(p, objs, r.value.indexes.Get(x)))
  {
    hide Load, LoadableHead, Stored, InStep, HeadsValid, HeadsDecode, ValidHead, DecodeHead, ParseRoot, RootImage, ValidName,
         HeadImage;
    RootRoundTrip(p, e.root);
    HeadsDecoded(p, e.says.maps.heads, e.says.database);
    var ids, maps := e.root.ids, e.says.maps;
    assert ids.Get(Placements) == ids.placements && ids.Get(Endpoints) == ids.endpoints && ids.Get(Retentions) == ids.retentions
        && ids.Get(Advisory) == ids.advisory && ids.Get(Heads) == ids.heads;
    LoadStored(p, objs, ids.Get(Placements), maps.Get(Placements));
    LoadStored(p, objs, ids.Get(Endpoints), maps.Get(Endpoints));
    LoadStored(p, objs, ids.Get(Retentions), maps.Get(Retentions));
    LoadStored(p, objs, ids.Get(Advisory), maps.Get(Advisory));
    LoadStored(p, objs, ids.Get(Heads), maps.Get(Heads));
    NoHeadValid(p, e.says.database);
  }

  lemma NoHeadValid(p: Primitives, database: Option<Digest>)
    ensures ValidHead(p, NO_HEAD, database)
  {
  }

  lemma OpenClient(p: Primitives, w: World, selected: Key)
    requires Inv(p, w) && (selected == [] || ValidName(selected))
    requires LoadFor(p, w.objs, w.reg, selected).Ok?
    ensures var s := LoadFor(p, w.objs, w.reg, selected).value;
      ClientOk(p, w, Client(s, Says(s), [], Idle))
  {
    hide ValidName, HeadImage, InStep, ValidHead, SaysValid, LoadFor, EntryOk, FreshState, RootImage, Linear;
    var s := LoadFor(p, w.objs, w.reg, selected).value;
    assert ApplyAll(Says(s), []) == Says(s);
    if w.history == [] {
      OpenNothing(p, w.objs, w.reg, selected);
      NothingOk(p, w.objs, selected);
    } else {
      var n := |w.history| - 1;
      OpenEntry(p, w.objs, w.history[n], w.reg.spent, selected);
      EntrySays(p, w.objs, w.history[n]);
      assert Register(w.reg.root, w.reg.spent) == w.reg;
      assert Base(w.history, s.revision, Says(s));
    }
  }

  lemma EntrySays(p: Primitives, objs: Objects, e: Entry)
    requires EntryOk(p, objs, e)
    ensures e.root.database == e.says.database && SaysValid(p, e.says)
  {
  }

  lemma OpenNothing(p: Primitives, objs: Objects, reg: Register, selected: Key)
    requires reg.root.None?
    ensures LoadFor(p, objs, reg, selected) == Ok(FreshState(selected))
    ensures var s := FreshState(selected); s.selected == selected && s.revision.None? && !s.uncertain && s.head == NO_HEAD
  {
  }

  lemma NothingOk(p: Primitives, objs: Objects, selected: Key)
    ensures Says(FreshState(selected)) == NOTHING && SaysValid(p, NOTHING)
    ensures ValidHead(p, NO_HEAD, None)
    ensures forall x: Which :: InStep(p, objs, FreshState(selected).indexes.Get(x))
  {
    assert Agrees(p, objs, EMPTY_INDEX, []);
    assert InStep(p, objs, EMPTY_INDEX);
  }

  // Flushing

  lemma FlushClient(p: Primitives, w: World, k: Client, put: PutFault)
    requires Lossless(p) && ClientOk(p, w, k) && k.phase.Publishing? && k.phase.next < |FLUSH_ORDER|
    ensures var f := FlushOne(p, w.objs, k.state, FLUSH_ORDER[k.phase.next], put);
      && Extends(w.objs, f.objs)
      && ClientOk(p, World(f.objs, w.reg, w.history, w.clients),
                  k.(state := f.state, phase := if f.result.Ok? then Publishing(k.phase.next + 1) else Idle))
  {
    hide FlushOne, SaysValid, Base, ValidHead, ValidName, InStep, Says;
    var x := FLUSH_ORDER[k.phase.next];
    var f := FlushOne(p, w.objs, k.state, x, put);
    FlushOneInStep(p, w.objs, k.state, x, put);
    SaysSame(k.state, f.state);
  }

  lemma FlushOneInStep(p: Primitives, objs: Objects, s: State, x: Which, put: PutFault)
    requires Lossless(p) && forall y: Which :: InStep(p, objs, s.indexes.Get(y))
    ensures var f := FlushOne(p, objs, s, x, put);
      && Extends(objs, f.objs)
      && f.state.(indexes := s.indexes) == s
      && (forall y: Which ::
          && InStep(p, f.objs, f.state.indexes.Get(y))
          && f.state.indexes.Get(y).entries == s.indexes.Get(y).entries
          && (s.indexes.Get(y).dirty == map[] ==> f.state.indexes.Get(y).dirty == map[]))
      && (f.result.Ok? ==> f.state.indexes.Get(x).dirty == map[])
  {
    hide Flush, InStep;
    var f := FlushOne(p, objs, s, x, put);
    FlushInStep(p, objs, s.indexes.Get(x), put);
    forall y: Which
      ensures InStep(p, f.objs, f.state.indexes.Get(y))
    {
      if y != x {
        InStepExtends(p, objs, f.objs, s.indexes.Get(y));
      }
    }
  }

  lemma SaysSame(s: State, t: State)
    requires s.database == t.database
    requires forall x: Which :: t.indexes.Get(x).entries == s.indexes.Get(x).entries
    ensures Says(s) == Says(t)
  {
    assert s.indexes.Get(Placements).entries == t.indexes.Get(Placements).entries;
    assert s.indexes.Get(Endpoints).entries == t.indexes.Get(Endpoints).entries;
    assert s.indexes.Get(Retentions).entries == t.indexes.Get(Retentions).entries;
    assert s.indexes.Get(Advisory).entries == t.indexes.Get(Advisory).entries;
    assert s.indexes.Get(Heads).entries == t.indexes.Get(Heads).entries;
  }

  lemma FlushInStep(p: Primitives, objs: Objects, v: IndexValue, put: PutFault)
    requires Lossless(p) && InStep(p, objs, v)
    ensures var f := Flush(p, objs, v, put);
      && InStep(p, f.objs, f.value)
      && f.value.entries == v.entries
      && Extends(objs, f.objs)
      && (f.result.Ok? ==> f.value.dirty == map[])
      && (v.dirty == map[] ==> f.value.dirty == map[])
  {
    hide Agrees, NextLinks, Flush;
    var links :| Agrees(p, objs, v, links);
    FlushAgrees(p, objs, v, links, put);
  }

  // Swapping the root

  lemma StoredWhenClean(p: Primitives, objs: Objects, v: IndexValue)
    requires InStep(p, objs, v) && v.dirty == map[]
    ensures Stored(p, objs, v.head, v.entries)
  {
    hide IsChain, Resolve, Live, Ids;
    var links :| Agrees(p, objs, v, links);
    assert Resolve(links) + map[] == Resolve(links);
  }

  lemma PublishedEntry(p: Primitives, w: World, k: Client, token: Revision, c: nat)
    requires ClientOk(p, w, k) && FlushedSoFar(k.phase) == |FLUSH_ORDER|
    ensures EntryOk(p, w.objs, Entry(token, RootOf(k.state), Says(k.state), k.edits, c))
    ensures FlushedAs(p, w.objs, k.state, Says(k.state))
  {
    hide InStep, Stored, SaysValid;
    forall x: Which
      ensures Stored(p, w.objs, RootOf(k.state).ids.Get(x), Says(k.state).maps.Get(x))
      ensures RootOf(k.state).ids.Get(x) == k.state.indexes.Get(x).head
    {
      assert FLUSH_ORDER[0] == Heads && FLUSH_ORDER[1] == Placements && FLUSH_ORDER[2] == Endpoints
          && FLUSH_ORDER[3] == Retentions && FLUSH_ORDER[4] == Advisory;
      StoredWhenClean(p, w.objs, k.state.indexes.Get(x));
    }
  }

  /** The compare-and-swap admits only a publisher whose base is the visible catalog. */
  lemma SwapFromHead(p: Primitives, w: World, revision: Option<Revision>, base: Snapshot)
    requires RegisterOk(p, w) && Linear(w.history) && Base(w.history, revision, base) && Expects(w.reg, revision)
    ensures base == Before(w.history, |w.history|)
  {
    hide Linear, RegisterOk;
    LastRevision(p, w, revision);
    if w.history != [] {
      var i :| 0 <= i < |w.history| && w.history[i].revision == revision.value && w.history[i].says == base;
      SameRevision(w.history, i, |w.history| - 1);
    }
  }

  lemma SameRevision(history: seq<Entry>, i: nat, j: nat)
    requires Linear(history) && i < |history| && j < |history| && history[i].revision == history[j].revision
    ensures i == j
  {
    hide ApplyAll;
  }

  lemma LastRevision(p: Primitives, w: World, revision: Option<Revision>)
    requires RegisterOk(p, w) && Expects(w.reg, revision)
    ensures if w.history == [] then revision.None? else revision == Some(w.history[|w.history| - 1].revision)
  {
    hide RootImage;
  }

  lemma AppendLinear(history: seq<Entry>, e: Entry)
    requires Linear(history)
    requires forall i | 0 <= i < |history| :: history[i].revision != e.revision
    requires e.says == ApplyAll(Before(history, |history|), e.edits)
    ensures Linear(history + [e])
  {
    hide ApplyAll;
    var h := history + [e];
    forall i | 0 <= i < |h|
      ensures h[i].says == ApplyAll(Before(h, i), h[i].edits)
    {
      assert Before(h, i) == Before(history, i);
      assert i < |history| ==> h[i] == history[i];
    }
  }

  lemma PublisherStanding(p: Primitives, w: World, k: Client)
    requires ClientOk(p, w, k) && k.phase.Publishing?
    ensures !k.state.uncertain && Base(w.history, k.state.revision, k.base) && Says(k.state) == ApplyAll(k.base, k.edits)
  {
    hide InStep, SaysValid, ValidHead, ValidName, Says, ApplyAll, Base, FlushedClean;
  }

  lemma SwapRegister(p: Primitives, w: World, c: nat, fault: ExchangeFault, token: Revision)
    requires RegisterOk(p, w) && Enabled(p, w, c, Swap(fault, token))
    ensures var w', k := SwapStep(p, w, c, fault, token), w.clients[c];
      && RegisterOk(p, w')
      && (if w'.reg == w.reg then w'.history == w.history
          else Expects(w.reg, k.state.revision)
               && w'.history == w.history + [Entry(token, RootOf(k.state), Says(k.state), k.edits, c)])
  {
    hide RootImage, RootOf, Says;
  }

  lemma SwapInv(p: Primitives, w: World, c: nat, fault: ExchangeFault, token: Revision)
    requires Inv(p, w) && Enabled(p, w, c, Swap(fault, token))
    ensures Inv(p, SwapStep(p, w, c, fault, token))
  {
    hide ClientOk, RegisterOk, EntryOk, Linear, Says, RootOf, RootImage, ApplyAll, Base;
    var k := w.clients[c];
    var w' := SwapStep(p, w, c, fault, token);
    var e := Entry(token, RootOf(k.state), Says(k.state), k.edits, c);
    SwapRegister(p, w, c, fault, token);
    PublisherStanding(p, w, k);
    if w'.reg != w.reg {
      SwapFromHead(p, w, k.state.revision, k.base);
      PublishedEntry(p, w, k, token, c);
      NewToken(p, w, token);
      AppendLinear(w.history, e);
      assert w'.history[..|w.history|] == w.history;
    }
    SwappedClient(p, w, w', c, fault, token);
    StepInv(p, w, w', c);
  }

  lemma NewToken(p: Primitives, w: World, token: Revision)
    requires RegisterOk(p, w) && token !in w.reg.spent
    ensures forall i | 0 <= i < |w.history| :: w.history[i].revision != token
  {
    hide RootImage;
  }

  lemma SwappedClient(p: Primitives, w: World, w': World, c: nat, fault: ExchangeFault, token: Revision)
    requires Inv(p, w) && Enabled(p, w, c, Swap(fault, token)) && w' == SwapStep(p, w, c, fault, token)
    ensures ClientOk(p, w', w'.clients[c])
  {
    hide InStep, SaysValid, EntryOk, Linear, RootImage, ValidHead, ValidName, Stored;
    var k := w.clients[c];
    var s := w'.clients[c].state;
    SaysSame(k.state, s);
    PublishedEntry(p, w, k, token, c);
    assert ApplyAll(Says(s), []) == Says(s);
    if w'.reg != w.reg {
      var n := |w.history|;
      assert w'.history[n].revision == token && w'.history[n].says == Says(k.state);
    }
  }

  lemma ConfirmInv(p: Primitives, w: World, c: nat)
    requires Inv(p, w) && Enabled(p, w, c, ConfirmRoot)
    ensures Inv(p, ConfirmStep(p, w, c))
  {
    hide ClientOk, Inv, Confirm;
    ConfirmedClient(p, w, c);
    QuietInv(p, w, w.objs, c, ConfirmStep(p, w, c).clients[c]);
  }

  /** Whatever the edits do to the identity, starting from the final one ends in the same catalog. */
  lemma {:induction false} ApplyAllFrom(a: Snapshot, b: Snapshot, es: seq<Edit>)
    requires a.maps == b.maps && a.database == ApplyAll(b, es).database
    ensures ApplyAll(a, es) == ApplyAll(b, es)
    decreases |es|
  {
    if es != [] {
      var init, e := es[..|es| - 1], es[|es| - 1];
      if e.Claim? {
        ApplyAllMaps(a, b, init);
      } else {
        ApplyAllFrom(a, b, init);
      }
    }
  }

  lemma {:induction false} ApplyAllMaps(a: Snapshot, b: Snapshot, es: seq<Edit>)
    requires a.maps == b.maps
    ensures ApplyAll(a, es).maps == ApplyAll(b, es).maps
    decreases |es|
  {
    if es != [] {
      ApplyAllMaps(a, b, es[..|es| - 1]);
    }
  }

  /** A confirmed root is the last one published; it says what the client had flushed, under the client's
      identity. */
  lemma ConfirmedRoot(p: Primitives, w: World, c: nat)
    requires Inv(p, w) && Enabled(p, w, c, ConfirmRoot)
    requires (Confirm(p, w.clients[c].state, Err(Uncertain), w.reg.root)).1.Ok?
    ensures var k, n := w.clients[c], |w.history|;
      && n > 0 && w.history[n - 1].root == RootOf(k.state)
      && w.history[n - 1].says.maps == k.base.maps && w.history[n - 1].says.database == k.state.database
      && w.reg.root.Some? && w.history[n - 1].revision == w.reg.root.value.revision
  {
    hide InStep, SaysValid, Linear, ValidHead, ValidName, RootImage, ParseRoot, Stored, Says, ApplyAll, FlushedClean;
    var k := w.clients[c];
    var last := w.history[|w.history| - 1];
    RootRoundTrip(p, RootOf(k.state));
    RootRoundTrip(p, last.root);
    forall x: Which
      ensures last.says.maps.Get(x) == k.base.maps.Get(x)
    {
      StoredUnique(p, w.objs, last.root.ids.Get(x), last.says.maps.Get(x), k.base.maps.Get(x));
    }
    SameMaps(last.says.maps, k.base.maps);
  }

  lemma SameMaps(a: Five<Entries>, b: Five<Entries>)
    requires forall x: Which :: a.Get(x) == b.Get(x)
    ensures a == b
  {
    assert a.Get(Placements) == b.Get(Placements) && a.Get(Endpoints) == b.Get(Endpoints)
        && a.Get(Retentions) == b.Get(Retentions) && a.Get(Advisory) == b.Get(Advisory) && a.Get(Heads) == b.Get(Heads);
  }

  lemma ConfirmedClient(p: Primitives, w: World, c: nat)
    requires Inv(p, w) && Enabled(p, w, c, ConfirmRoot)
    ensures ClientOk(p, w, ConfirmStep(p, w, c).clients[c])
  {
    hide InStep, SaysValid, Linear, ValidHead, ValidName, RootImage, EntryOk, RootOf, ApplyAll, Stored, RegisterOk;
    var k := w.clients[c];
    var (s, result) := Confirm(p, k.state, Err(Uncertain), w.reg.root);
    if result.Ok? {
      ConfirmedRoot(p, w, c);
      SaysSame(k.state, s);
      var last := w.history[|w.history| - 1];
      ApplyAllFrom(last.says, k.base, k.edits);
      assert Base(w.history, s.revision, last.says);
    }
  }

  /** What a root says is fixed by the objects it names. */
  lemma SameRootSaysSame(p: Primitives, objs: Objects, a: Entry, b: Entry)
    requires EntryOk(p, objs, a) && EntryOk(p, objs, b) && a.root == b.root
    ensures a.says == b.says
  {
    hide SaysValid, Stored;
    forall x: Which
      ensures a.says.maps.Get(x) == b.says.maps.Get(x)
    {
      StoredUnique(p, objs, a.root.ids.Get(x), a.says.maps.Get(x), b.says.maps.Get(x));
    }
    assert a.says.maps.Get(Placements) == b.says.maps.Get(Placements);
    assert a.says.maps.Get(Endpoints) == b.says.maps.Get(Endpoints);
    assert a.says.maps.Get(Retentions) == b.says.maps.Get(Retentions);
    assert a.says.maps.Get(Advisory) == b.says.maps.Get(Advisory);
    assert a.says.maps.Get(Heads) == b.says.maps.Get(Heads);
  }

  lemma StoredUnique(p: Primitives, objs: Objects, head: Option<Id>, a: Entries, b: Entries)
    requires Stored(p, objs, head, a) && Stored(p, objs, head, b)
    ensures a == b
  {
    hide IsChain, Resolve, Live;
    var l :| IsChain(p, objs, l) && HeadOf(l) == head && Live(Resolve(l)) == a && |l| <= CHECKPOINT_DEPTH;
    var m :| IsChain(p, objs, m) && HeadOf(m) == head && Live(Resolve(m)) == b && |m| <= CHECKPOINT_DEPTH;
    ChainUnique(p, objs, l, m);
  }

  // Every step keeps the invariant

  lemma NextInv(p: Primitives, w: World, c: nat, a: Action)
    requires Lossless(p) && Inv(p, w) && Enabled(p, w, c, a)
    ensures Inv(p, Next(p, w, c, a))
  {
    hide Inv, Enabled, FlushStep, SwapStep, ConfirmStep, EditState, Says, LoadFor, HeadImage, Begin, HeadEdit;
    match a
    case Open(selected) => OpenInv(p, w, c, selected);
    case Edit(e) => EditActionInv(p, w, c, e);
    case SetHead(head) => SetHeadInv(p, w, c, head);
    case Fork(name, head) => ForkInv(p, w, c, name, head);
    case BeginPublish => BeginInv(p, w, c);
    case FlushNext(put) => FlushInv(p, w, c, put);
    case Swap(fault, token) => SwapInv(p, w, c, fault, token);
    case ConfirmRoot => ConfirmInv(p, w, c);
  }

  lemma EditActionInv(p: Primitives, w: World, c: nat, e: Edit)
    requires Inv(p, w) && Enabled(p, w, c, Edit(e))
    ensures Inv(p, Next(p, w, c, Edit(e)))
  {
    hide Inv, EditState;
    EditInv(p, w, c, e, Idle);
  }

  lemma ForkInv(p: Primitives, w: World, c: nat, name: Key, head: Head)
    requires Inv(p, w) && Enabled(p, w, c, Fork(name, head))
    ensures Inv(p, Next(p, w, c, Fork(name, head)))
  {
    hide Inv, EditState, HeadImage, ValidHead, ValidName;
    EditInv(p, w, c, Write(Heads, name, HeadImage(p, head)), Idle);
  }

  lemma OpenInv(p: Primitives, w: World, c: nat, selected: Key)
    requires Inv(p, w) && Enabled(p, w, c, Open(selected))
    ensures Inv(p, Next(p, w, c, Open(selected)))
  {
    hide LoadFor, ClientOk, Inv, ValidName;
    var r := LoadFor(p, w.objs, w.reg, selected);
    if r.Ok? {
      OpenClient(p, w, selected);
      QuietInv(p, w, w.objs, c, Client(r.value, Says(r.value), [], Idle));
    }
  }

  lemma InvClient(p: Primitives, w: World, c: nat)
    requires Inv(p, w) && c in w.clients
    ensures ClientOk(p, w, w.clients[c])
  {
  }

  lemma FlushEnabled(p: Primitives, w: World, c: nat, put: PutFault)
    requires Enabled(p, w, c, FlushNext(put))
    ensures c in w.clients && w.clients[c].phase.Publishing? && w.clients[c].phase.next < |FLUSH_ORDER|
  {
  }

  lemma FlushInv(p: Primitives, w: World, c: nat, put: PutFault)
    requires Lossless(p) && Inv(p, w) && Enabled(p, w, c, FlushNext(put))
    ensures Inv(p, FlushStep(p, w, c, put))
  {
    hide FlushOne, ClientOk, Inv, Extends, Enabled, Lossless;
    FlushEnabled(p, w, c, put);
    var k := w.clients[c];
    InvClient(p, w, c);
    FlushClient(p, w, k, put);
    var f := FlushOne(p, w.objs, k.state, FLUSH_ORDER[k.phase.next], put);
    QuietInv(p, w, f.objs, c, k.(state := f.state, phase := if f.result.Ok? then Publishing(k.phase.next + 1) else Idle));
  }

  lemma EditInv(p: Primitives, w: World, c: nat, e: Edit, phase: Phase)
    requires Inv(p, w) && c in w.clients && KeepsHeads(p, w.clients[c].state, e)
    requires phase == Idle || (phase == Publishing(0) && !w.clients[c].state.uncertain)
    ensures var k := w.clients[c];
      Inv(p, w.(clients := w.clients[c := Client(EditState(k.state, e), k.base, k.edits + [e], phase)]))
  {
    hide ClientOk, Inv, KeepsHeads, EditState;
    var k := w.clients[c];
    InvClient(p, w, c);
    EditClient(p, w, k, e, phase);
    QuietInv(p, w, w.objs, c, Client(EditState(k.state, e), k.base, k.edits + [e], phase));
  }

  lemma SetHeadInv(p: Primitives, w: World, c: nat, head: Head)
    requires Inv(p, w) && Enabled(p, w, c, SetHead(head))
    ensures Inv(p, Next(p, w, c, SetHead(head)))
  {
    hide Inv, InStep, SaysValid, ValidHead, ValidName, Base;
    var k := w.clients[c];
    var k' := k.(state := k.state.(head := head));
    InvClient(p, w, c);
    SaysSame(k.state, k'.state);
    QuietInv(p, w, w.objs, c, k');
  }

  lemma BeginInv(p: Primitives, w: World, c: nat)
    requires Inv(p, w) && Enabled(p, w, c, BeginPublish)
    ensures Inv(p, Next(p, w, c, BeginPublish))
  {
    hide EntryOk, Linear, InStep, SaysValid, ValidHead, HeadImage, RegisterOk, Base;
    var s := w.clients[c].state;
    assert Begin(p, s) == EditState(s, HeadEdit(p, s));
    MainIsValid();
    EditInv(p, w, c, HeadEdit(p, s), Publishing(0));
  }

  lemma MainIsValid()
    ensures ValidName(MAIN)
  {
  }

  // Whole runs

  datatype Event = Event(client: nat, action: Action)

  const START: World := World(map[], Register(None, {}), [], map[])

  /** A run: every event is enabled where it happens. */
  ghost predicate IsRun(p: Primitives, w: World, events: seq<Event>)
    decreases |events|
  {
    events == [] || (Enabled(p, w, events[0].client, events[0].action)
                     && IsRun(p, Next(p, w, events[0].client, events[0].action), events[1..]))
  }

  ghost function After(p: Primitives, w: World, events: seq<Event>): World
    requires IsRun(p, w, events)
    decreases |events|
  {
    if events == [] then w else After(p, Next(p, w, events[0].client, events[0].action), events[1..])
  }

  lemma {:induction false} RunInv(p: Primitives, w: World, events: seq<Event>)
    requires Lossless(p) && Inv(p, w) && IsRun(p, w, events)
    ensures Inv(p, After(p, w, events))
    decreases |events|
  {
    hide Inv, Enabled, Next;
    if events != [] {
      NextInv(p, w, events[0].client, events[0].action);
      RunInv(p, Next(p, w, events[0].client, events[0].action), events[1..]);
    }
  }

  lemma StartInv(p: Primitives)
    ensures Inv(p, START)
  {
  }

  /** In every interleaving of any number of clients, with any faults: each visible root says what its
      predecessor said plus its publisher's own edits, and opening any root ever visible succeeds
      exactly when its chains fit the loader's limits and then returns what was published and the head of the
      selected branch. */
  lemma LinearHistory(p: Primitives, events: seq<Event>, i: nat, selected: Key)
    requires Lossless(p) && IsRun(p, START, events) && i < |After(p, START, events).history|
    ensures var w := After(p, START, events);
      var e := w.history[i];
      var r := LoadFor(p, w.objs, Register(Some(RootRecord(e.revision, RootImage(p, e.root))), w.reg.spent), selected);
      && e.says == ApplyAll(Before(w.history, i), e.edits)
      && (forall j | 0 <= j < |w.history| && j != i :: w.history[j].revision != e.revision)
      && (r.Ok? <==> forall x: Which :: LoadableHead(p, w.objs, e.root.ids.Get(x)))
      && (r.Ok? ==> Says(r.value) == e.says && BranchHead(p, e.says.maps.heads, selected, r.value.head))
  {
    hide Next, Enabled, LoadFor, ApplyAll, EntryOk, ClientOk, LoadableHead, RootImage, Says, IsRun, After, BranchHead;
    StartInv(p);
    RunInv(p, START, events);
    var w := After(p, START, events);
    OpenEntry(p, w.objs, w.history[i], w.reg.spent, selected);
  }

  /** Two publishers that loaded the same revision cannot both have their root installed. */
  lemma OnePublisherPerRevision(p: Primitives, w: World, c: nat, d: nat, f: ExchangeFault, g: ExchangeFault,
                                t: Revision, u: Revision)
    requires c in w.clients && d in w.clients && c != d && w.clients[c].state.revision == w.clients[d].state.revision
    requires Enabled(p, w, c, Swap(f, t)) && SwapStep(p, w, c, f, t).reg != w.reg
    requires Enabled(p, SwapStep(p, w, c, f, t), d, Swap(g, u))
    requires Inv(p, w)
    ensures var w' := SwapStep(p, w, c, f, t);
      var w'' := SwapStep(p, w', d, g, u);
      w''.reg == w'.reg && d in w''.clients && w''.clients[d].state.uncertain
  {
    hide EntryOk, Linear, InStep, SaysValid, ValidHead, ValidName, RootImage, RootOf, Says, ApplyAll;
    var w' := SwapStep(p, w, c, f, t);
    assert w'.reg.root.value.revision == t;
    assert Base(w.history, w.clients[d].state.revision, w.clients[d].base);
  }

  // Named heads

  /** The edit sets or removes this named head. */
  predicate Touches(e: Edit, name: Key) {
    !e.Claim? && e.which == Heads && e.key == name
  }

  predicate SameHead(a: Entries, b: Entries, name: Key) {
    (name in a <==> name in b) && (name in a ==> a[name] == b[name])
  }

  lemma {:induction false} UntouchedHead(s: Snapshot, es: seq<Edit>, name: Key)
    requires forall e | e in es :: !Touches(e, name)
    ensures SameHead(ApplyAll(s, es).maps.heads, s.maps.heads, name)
    decreases |es|
  {
    if es != [] {
      var init, e := es[..|es| - 1], es[|es| - 1];
      assert e in es && forall d | d in init :: d in es;
      UntouchedHead(s, init, name);
    }
  }

  /** In every run each visible root differs from its predecessor in the named heads only where its publisher's own
      edits name them: every other branch is unchanged. */
  lemma OtherHeadsInHistory(p: Primitives, events: seq<Event>, i: nat, name: Key)
    requires Lossless(p) && IsRun(p, START, events) && i < |After(p, START, events).history|
    requires forall e | e in After(p, START, events).history[i].edits :: !Touches(e, name)
    ensures var w := After(p, START, events);
      SameHead(w.history[i].says.maps.heads, Before(w.history, i).maps.heads, name)
  {
    hide Next, Enabled, ApplyAll, EntryOk, ClientOk, IsRun, After, RegisterOk;
    StartInv(p);
    RunInv(p, START, events);
    var w := After(p, START, events);
    UntouchedHead(Before(w.history, i), w.history[i].edits, name);
  }
}
