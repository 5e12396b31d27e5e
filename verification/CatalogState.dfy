/** Loading and publishing the catalog through a compare-and-swap root (src/storage/catalog.rs, `State`). */
module CatalogState {
  import opened Bytes
  import opened IndexRun
  import opened Index
  import opened Catalog

  /** An adapter-owned token; the adapter never hands the same one out twice. */
  type Revision = nat

  datatype RootRecord = RootRecord(revision: Revision, bytes: Bytes)

  /** The one mutable cell of a namespace, with the tokens it has already used. */
  datatype Register = Register(root: Option<RootRecord>, spent: set<Revision>)

  datatype State = State(
    revision: Option<Revision>,
    database: Option<Digest>,
    head: Head,
    indexes: Five<IndexValue>,
    uncertain: bool,
    selected: Key)

  function FreshState(selected: Key): State {
    State(None, None, NO_HEAD, Five(EMPTY_INDEX, EMPTY_INDEX, EMPTY_INDEX, EMPTY_INDEX, EMPTY_INDEX), false, selected)
  }

  // Loading

  predicate HeadsDecode(p: Primitives, heads: Entries, database: Option<Digest>) {
    forall name | name in heads :: ValidName(name) && DecodeHead(p, heads[name], database).Ok?
  }

  function LoadFor(p: Primitives, objs: Objects, reg: Register, selected: Key): Result<State> {
    if reg.root.None? then Ok(FreshState(selected)) else
    var root :- ParseRoot(p, reg.root.value.bytes);
    var heads :- Load(p, objs, root.ids.heads);
    if !HeadsDecode(p, heads.entries, root.database) then Err(Corrupt) else
    var head := if selected in heads.entries then DecodeHead(p, heads.entries[selected], root.database).value else NO_HEAD;
    var placements :- Load(p, objs, root.ids.placements);
    var endpoints :- Load(p, objs, root.ids.endpoints);
    var retentions :- Load(p, objs, root.ids.retentions);
    var advisory :- Load(p, objs, root.ids.advisory);
    Ok(State(Some(reg.root.value.revision), root.database, head,
             Five(placements, endpoints, retentions, advisory, heads), false, selected))
  }

  /** Whatever opens, from whatever bytes the root and the objects hold: the root is exactly an encoded one, every index
      is loaded from the id it names, every stored head has a valid name and belongs to this database, and the
      selected one is the state's own. */
  lemma LoadedIsSound(p: Primitives, objs: Objects, reg: Register, selected: Key)
    requires reg.root.Some? && LoadFor(p, objs, reg, selected).Ok?
    ensures var s := LoadFor(p, objs, reg, selected).value;
      && s.revision == Some(reg.root.value.revision) && s.selected == selected && !s.uncertain
      && (exists root ::
          && reg.root.value.bytes == RootImage(p, root) && s.database == root.database
          && forall x: Which :: Load(p, objs, root.ids.Get(x)) == Ok(s.indexes.Get(x)))
      && (forall name | name in s.indexes.heads.entries ::
          && ValidName(name) && DecodeHead(p, s.indexes.heads.entries[name], s.database).Ok?
          && ValidHead(p, DecodeHead(p, s.indexes.heads.entries[name], s.database).value, s.database))
      && (if selected in s.indexes.heads.entries
          then DecodeHead(p, s.indexes.heads.entries[selected], s.database) == Ok(s.head) else s.head == NO_HEAD)
  {
    hide Load, ParseRoot, DecodeHead, ValidHead, ValidName, RootImage;
    var s := LoadFor(p, objs, reg, selected).value;
    var root := ParseRoot(p, reg.root.value.bytes).value;
    RootCanonical(p, reg.root.value.bytes);
    forall name | name in s.indexes.heads.entries
      ensures ValidHead(p, DecodeHead(p, s.indexes.heads.entries[name], s.database).value, s.database)
    {
      HeadSound(p, s.indexes.heads.entries[name], s.database);
    }
    forall x: Which
      ensures Load(p, objs, root.ids.Get(x)) == Ok(s.indexes.Get(x))
    {
    }
  }

  // Publishing, step by step

  function BranchName(s: State): Key {
    if s.selected == [] then MAIN else s.selected
  }

  /** Records this branch's head in the heads index, or removes it when there is nothing to record. */
  function Begin(p: Primitives, s: State): State {
    var heads := s.indexes.heads;
    s.(indexes := s.indexes.Set(Heads,
      if s.head != NO_HEAD then Insert(heads, BranchName(s), HeadImage(p, s.head)) else Remove(heads, BranchName(s))))
  }

  const FLUSH_ORDER: seq<Which> := [Heads, Placements, Endpoints, Retentions, Advisory]

  datatype FlushedState = FlushedState(state: State, objs: Objects, result: Result<()>)

  ghost function FlushOne(p: Primitives, objs: Objects, s: State, w: Which, fault: PutFault): FlushedState {
    var f := Flush(p, objs, s.indexes.Get(w), fault);
    FlushedState(s.(indexes := s.indexes.Set(w, f.value)), f.objs, f.result)
  }

  ghost function FlushAll(p: Primitives, objs: Objects, s: State, order: seq<Which>, fault: Five<PutFault>): FlushedState
    decreases |order|
  {
    if order == [] then FlushedState(s, objs, Ok(())) else
    var f := FlushOne(p, objs, s, order[0], fault.Get(order[0]));
    if f.result.Err? then f else FlushAll(p, f.objs, f.state, order[1..], fault)
  }

  function RootOf(s: State): Root {
    Root(s.database, Five(s.indexes.placements.head, s.indexes.endpoints.head, s.indexes.retentions.head,
                          s.indexes.advisory.head, s.indexes.heads.head))
  }

  function EncodeRoot(p: Primitives, s: State): Bytes {
    RootImage(p, RootOf(s))
  }

  /** How the transport may answer an exchange: faithfully, with a lost acknowledgement, or with an
      error; in the last two cases the new root may or may not have become visible. */
  datatype ExchangeFault = Clean | Lost(visible: bool) | Broken(visible: bool)

  datatype Reply = Applied(revision: Revision) | StaleReply | UncertainReply | FailedReply

  datatype Exchanged = Exchanged(reg: Register, reply: Reply)

  predicate Expects(reg: Register, expected: Option<Revision>) {
    expected == if reg.root.None? then None else Some(reg.root.value.revision)
  }

  function Exchange(reg: Register, expected: Option<Revision>, bytes: Bytes, fault: ExchangeFault, token: Revision): Exchanged {
    var takes := Expects(reg, expected) && (fault.Clean? || fault.visible);
    Exchanged(
      if takes then Register(Some(RootRecord(token, bytes)), reg.spent + {token}) else reg,
      match fault
      case Clean => if takes then Applied(token) else StaleReply
      case Lost(_) => UncertainReply
      case Broken(_) => FailedReply)
  }

  datatype Answer = Answer(state: State, reg: Register, result: Result<()>)

  function Finish(p: Primitives, reg: Register, s: State, fault: ExchangeFault, token: Revision): Answer {
    var x := Exchange(reg, s.revision, EncodeRoot(p, s), fault, token);
    match x.reply
    case Applied(r) => Answer(s.(revision := Some(r)), x.reg, Ok(()))
    case StaleReply => Answer(s.(uncertain := true), x.reg, Err(Stale))
    case UncertainReply => Answer(s.(uncertain := true), x.reg, Err(Uncertain))
    case FailedReply => Answer(s.(uncertain := true), x.reg, Err(Backend))
  }

  datatype Published = Published(state: State, objs: Objects, reg: Register, result: Result<()>)

  ghost function Publish(p: Primitives, objs: Objects, reg: Register, s: State, put: Five<PutFault>, fault: ExchangeFault,
                         token: Revision): Published {
    if s.uncertain then Published(s, objs, reg, Err(Uncertain)) else
    var f := FlushAll(p, objs, Begin(p, s), FLUSH_ORDER, put);
    if f.result.Err? then Published(f.state, f.objs, reg, f.result) else
    var a := Finish(p, reg, f.state, fault, token);
    Published(a.state, f.objs, a.reg, a.result)
  }

  /** A publication whose acknowledgement was lost is settled by reading the root again; `later` is the
      root other clients have left there by then. */
  function Confirm(p: Primitives, s: State, result: Result<()>, later: Option<RootRecord>): (State, Result<()>) {
    if result == Err(Uncertain) && later.Some? && later.value.bytes == EncodeRoot(p, s)
    then (s.(revision := Some(later.value.revision), uncertain := false), Ok(()))
    else (s, result)
  }

  // The uncertainty fence

  /** An uncertain state reaches no further exchange and writes nothing at all. */
  lemma FenceHolds(p: Primitives, objs: Objects, reg: Register, s: State, put: Five<PutFault>, fault: ExchangeFault, token: Revision)
    requires s.uncertain
    ensures Publish(p, objs, reg, s, put, fault, token) == Published(s, objs, reg, Err(Uncertain))
  {
  }

  lemma {:induction false} FlushAllKeeps(p: Primitives, objs: Objects, s: State, order: seq<Which>, fault: Five<PutFault>)
    ensures var f := FlushAll(p, objs, s, order, fault);
      && f.state.(indexes := s.indexes) == s
      && (forall w: Which :: f.state.indexes.Get(w).entries == s.indexes.Get(w).entries)
      && (f.result.Err? ==> f.result.error in {Range, Backend})
    decreases |order|
  {
    hide PrintRun, Envelope, NextRun;
    if order != [] {
      var f := FlushOne(p, objs, s, order[0], fault.Get(order[0]));
      if f.result.Ok? {
        FlushAllKeeps(p, f.objs, f.state, order[1..], fault);
      }
    }
  }

  /** Publication succeeds exactly when every object was written, the root had not moved and the exchange said so, and
      then the visible root is the state's own. It raises the fence exactly when the exchange was reached and did not
      report success; before the exchange the root is untouched, and no entry is ever lost. */
  lemma FenceRises(p: Primitives, objs: Objects, reg: Register, s: State, put: Five<PutFault>, fault: ExchangeFault, token: Revision)
    requires !s.uncertain
    ensures var f := FlushAll(p, objs, Begin(p, s), FLUSH_ORDER, put);
      var r := Publish(p, objs, reg, s, put, fault, token);
      && (r.result.Ok? <==> f.result.Ok? && Expects(reg, s.revision) && fault == Clean)
      && (r.result.Ok? ==> r.reg.root == Some(RootRecord(token, EncodeRoot(p, r.state))) && r.state.revision == Some(token))
      && (r.state.uncertain <==> f.result.Ok? && r.result.Err?)
      && (f.result.Err? ==> r.reg == reg && r.state.revision == s.revision && r.result == f.result)
      && (r.result == Err(Uncertain) ==> r.state.uncertain)
      && (forall w: Which :: r.state.indexes.Get(w).entries == Begin(p, s).indexes.Get(w).entries)
  {
    hide FlushAll, Begin, RootOf, RootImage;
    FlushAllKeeps(p, objs, Begin(p, s), FLUSH_ORDER, put);
    BeginKeeps(p, s);
    SameRoot(FlushAll(p, objs, Begin(p, s), FLUSH_ORDER, put).state, Publish(p, objs, reg, s, put, fault, token).state);
  }

  lemma BeginKeeps(p: Primitives, s: State)
    ensures Begin(p, s).(indexes := s.indexes) == s
    ensures forall w: Which | w != Heads :: Begin(p, s).indexes.Get(w) == s.indexes.Get(w)
  {
  }

  lemma {:induction false} FlushAllCleans(p: Primitives, objs: Objects, s: State, order: seq<Which>, fault: Five<PutFault>)
    requires FlushAll(p, objs, s, order, fault).result.Ok?
    ensures var f := FlushAll(p, objs, s, order, fault);
      forall w: Which :: w in order || s.indexes.Get(w).dirty == map[] ==> f.state.indexes.Get(w).dirty == map[]
    decreases |order|
  {
    hide PrintRun, Envelope, NextRun, Writable;
    if order != [] {
      var f := FlushOne(p, objs, s, order[0], fault.Get(order[0]));
      FlushAllCleans(p, f.objs, f.state, order[1..], fault);
      assert forall w: Which :: w in order ==> w == order[0] || w in order[1..];
    }
  }

  lemma InFlushOrder(w: Which)
    ensures w in FLUSH_ORDER
  {
    assert FLUSH_ORDER[0] == Heads && FLUSH_ORDER[1] == Placements && FLUSH_ORDER[2] == Endpoints
        && FLUSH_ORDER[3] == Retentions && FLUSH_ORDER[4] == Advisory;
  }

  lemma BeginTwice(p: Primitives, s: State, t: State)
    requires t.(indexes := s.indexes) == s
    requires forall w: Which :: t.indexes.Get(w).entries == Begin(p, s).indexes.Get(w).entries
    ensures forall w: Which :: Begin(p, t).indexes.Get(w).entries == Begin(p, s).indexes.Get(w).entries
  {
    hide HeadImage;
    assert t.indexes.Get(Heads).entries == Begin(p, s).indexes.Get(Heads).entries;
    assert Begin(p, t).indexes.Get(Heads).entries == Begin(p, s).indexes.Get(Heads).entries;
  }

  /** An object write that fails before the exchange leaves the root untouched and the fence down, and a retry publishes
      the same entries: it succeeds exactly when its own writes do and the root has not moved, and then every index
      is flushed and the visible root is the state's own. */
  lemma RetryPublishesSame(p: Primitives, objs: Objects, reg: Register, s: State, put: Five<PutFault>, fault: ExchangeFault,
                           token: Revision, again: Five<PutFault>, token': Revision)
    requires !s.uncertain && FlushAll(p, objs, Begin(p, s), FLUSH_ORDER, put).result.Err?
    ensures var r := Publish(p, objs, reg, s, put, fault, token);
      && r.reg == reg && r.result.Err? && !r.state.uncertain
      && var r' := Publish(p, r.objs, reg, r.state, again, Clean, token');
      && (r'.result.Ok? <==>
          FlushAll(p, r.objs, Begin(p, r.state), FLUSH_ORDER, again).result.Ok? && Expects(reg, s.revision))
      && (forall w: Which :: r'.state.indexes.Get(w).entries == Begin(p, s).indexes.Get(w).entries)
      && (r'.result.Ok? ==>
          && r'.reg.root == Some(RootRecord(token', EncodeRoot(p, r'.state)))
          && forall w: Which :: r'.state.indexes.Get(w).dirty == map[])
  {
    hide FlushAll, Begin, RootOf, RootImage;
    FenceRises(p, objs, reg, s, put, fault, token);
    FlushAllKeeps(p, objs, Begin(p, s), FLUSH_ORDER, put);
    BeginKeeps(p, s);
    var r := Publish(p, objs, reg, s, put, fault, token);
    BeginTwice(p, s, r.state);
    FenceRises(p, r.objs, reg, r.state, again, Clean, token');
    FlushAllKeeps(p, r.objs, Begin(p, r.state), FLUSH_ORDER, again);
    BeginKeeps(p, r.state);
    var f := FlushAll(p, r.objs, Begin(p, r.state), FLUSH_ORDER, again);
    if f.result.Ok? {
      FlushAllCleans(p, r.objs, Begin(p, r.state), FLUSH_ORDER, again);
      forall w: Which
        ensures f.state.indexes.Get(w).dirty == map[]
      {
        InFlushOrder(w);
      }
      SameRoot(f.state, Publish(p, r.objs, reg, r.state, again, Clean, token').state);
    }
  }

  /** Other branches' heads are untouched by a publication. */
  lemma OtherHeadsUnchanged(p: Primitives, s: State, name: Key)
    requires name != BranchName(s)
    ensures name in Begin(p, s).indexes.heads.entries <==> name in s.indexes.heads.entries
    ensures name in s.indexes.heads.entries ==>
      Begin(p, s).indexes.heads.entries[name] == s.indexes.heads.entries[name]
  {
    hide HeadImage;
  }

  /** A confirmed publication means what it says when it starts on a certain state: the visible root
      names exactly the runs this state flushed, and the state's next exchange will expect it. */
  lemma ConfirmedIsVisible(p: Primitives, objs: Objects, reg: Register, s: State, put: Five<PutFault>, fault: ExchangeFault,
                           token: Revision, later: Option<RootRecord>)
    requires !s.uncertain
    ensures var r := Publish(p, objs, reg, s, put, fault, token);
      var (t, result) := Confirm(p, r.state, r.result, later);
      && (result.Ok? ==> FlushAll(p, objs, Begin(p, s), FLUSH_ORDER, put).result.Ok? && !t.uncertain)
      && (result.Ok? && r.result.Ok? ==> r.reg.root == Some(RootRecord(token, EncodeRoot(p, t))) && t.revision == Some(token))
      && (result.Ok? && r.result.Err? ==>
          later.Some? && ParseRoot(p, later.value.bytes) == Ok(RootOf(t)) && t.revision == Some(later.value.revision))
      && RootOf(t) == RootOf(r.state)
  {
    hide FlushAll, Begin, RootOf, RootImage, ParseRoot;
    FenceRises(p, objs, reg, s, put, fault, token);
    var r := Publish(p, objs, reg, s, put, fault, token);
    RootRoundTrip(p, RootOf(r.state));
    SameRoot(FlushAll(p, objs, Begin(p, s), FLUSH_ORDER, put).state, r.state);
    SameRoot(r.state, (Confirm(p, r.state, r.result, later)).0);
    FlushAllKeeps(p, objs, Begin(p, s), FLUSH_ORDER, put);
  }

  lemma SameRoot(s: State, t: State)
    requires s.database == t.database && s.indexes == t.indexes
    ensures RootOf(s) == RootOf(t)
  {
  }

  /** Started on a state that is already uncertain, a confirmation writes nothing, records no head, and tests only
      whether the root still holds the state's last flushed runs. */
  lemma ConfirmOnUncertain(p: Primitives, objs: Objects, reg: Register, s: State, put: Five<PutFault>, fault: ExchangeFault,
                           token: Revision)
    requires s.uncertain
    ensures var r := Publish(p, objs, reg, s, put, fault, token);
      var (t, result) := Confirm(p, r.state, r.result, reg.root);
      && (result.Ok? <==> reg.root.Some? && reg.root.value.bytes == EncodeRoot(p, s))
      && r.reg == reg && r.objs == objs && t.indexes == s.indexes
  {
  }
}
