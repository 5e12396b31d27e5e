/** The catalog as the program runs it: five live indexes and a root cell, updated in place
    (src/storage/catalog.rs, `State`). */
module CatalogOps {
  import opened Bytes
  import opened IndexRun
  import opened Index
  import opened IndexOps
  import opened Catalog
  import CS = CatalogState

  /** The conditional root of one namespace. */
  class RootCell {
    var reg: CS.Register

    constructor ()
      ensures reg == CS.Register(None, {})
    {
      reg := CS.Register(None, {});
    }

    method CompareExchange(expected: Option<CS.Revision>, bytes: Bytes, fault: CS.ExchangeFault, token: CS.Revision)
      returns (reply: CS.Reply)
      modifies this
      ensures CS.Exchanged(reg, reply) == CS.Exchange(old(reg), expected, bytes, fault, token)
    {
      var current := if reg.root.None? then None else Some(reg.root.value.revision);
      if current == expected && (fault.Clean? || fault.visible) {
        reg := CS.Register(Some(CS.RootRecord(token, bytes)), reg.spent + {token});
        return match fault { case Clean => CS.Applied(token) case Lost(_) => CS.UncertainReply case Broken(_) => CS.FailedReply };
      }
      return match fault { case Clean => CS.StaleReply case Lost(_) => CS.UncertainReply case Broken(_) => CS.FailedReply };
    }
  }

  class LiveCatalog {
    var revision: Option<CS.Revision>
    var database: Option<Digest>
    var head: Head
    var uncertain: bool
    var selected: Key
    const indexes: Five<LiveIndex>

    ghost predicate Valid() {
      forall x: Which, y: Which | x != y :: indexes.Get(x) != indexes.Get(y)
    }

    ghost function Parts(): set<object> {
      {indexes.placements, indexes.endpoints, indexes.retentions, indexes.advisory, indexes.heads}
    }

    ghost function Value(): CS.State
      reads this, Parts()
    {
      CS.State(revision, database, head,
               Five(indexes.placements.Value(), indexes.endpoints.Value(), indexes.retentions.Value(),
                    indexes.advisory.Value(), indexes.heads.Value()), uncertain, selected)
    }

    constructor (s: CS.State, live: Five<LiveIndex>)
      ensures indexes == live
      ensures revision == s.revision && database == s.database && head == s.head
      ensures uncertain == s.uncertain && selected == s.selected
    {
      revision, database, head, uncertain, selected := s.revision, s.database, s.head, s.uncertain, s.selected;
      indexes := live;
    }

    /** Records this branch's head before the indexes are flushed. */
    method RecordHead(p: Primitives)
      requires Valid()
      modifies indexes.heads
      ensures Value() == CS.Begin(p, old(Value()))
    {
      hide HeadImage, Index.Insert, Index.Remove;
      assert indexes.Get(Heads) != indexes.Get(Placements) && indexes.Get(Heads) != indexes.Get(Endpoints)
          && indexes.Get(Heads) != indexes.Get(Retentions) && indexes.Get(Heads) != indexes.Get(Advisory);
      var name := if selected == [] then MAIN else selected;
      if head.attachment.Some? || head.sealed.Some? || head.pending.Some? {
        indexes.heads.Insert(name, HeadImage(p, head));
      } else {
        indexes.heads.Remove(name);
      }
    }

    method FlushIndex(p: Primitives, store: ObjectStore, x: Which, fault: PutFault) returns (r: Result<()>)
      requires Valid()
      modifies indexes.Get(x), store
      ensures CS.FlushedState(Value(), store.objects, r) == CS.FlushOne(p, old(store.objects), old(Value()), x, fault)
    {
      hide Flush;
      assert forall y: Which | y != x :: indexes.Get(y) != indexes.Get(x);
      assert indexes.Get(Placements) == indexes.placements && indexes.Get(Endpoints) == indexes.endpoints
          && indexes.Get(Retentions) == indexes.retentions && indexes.Get(Advisory) == indexes.advisory
          && indexes.Get(Heads) == indexes.heads;
      r := indexes.Get(x).Flush(p, store, fault);
    }

    method FlushIndexes(p: Primitives, store: ObjectStore, put: Five<PutFault>) returns (r: Result<()>)
      requires Valid()
      modifies Parts(), store
      ensures CS.FlushedState(Value(), store.objects, r)
           == CS.FlushAll(p, old(store.objects), old(Value()), CS.FLUSH_ORDER, put)
    {
      hide CS.FlushOne, CS.FlushAll;
      assert CS.FLUSH_ORDER[0..] == CS.FLUSH_ORDER;
      ghost var all := CS.FlushAll(p, store.objects, Value(), CS.FLUSH_ORDER, put);
      FlushAllStep(p, store.objects, Value(), 0, put, Heads);
      r := FlushIndex(p, store, Heads, put.heads);
      if r.Err? {
        return;
      }
      assert all == CS.FlushAll(p, store.objects, Value(), CS.FLUSH_ORDER[1..], put);
      FlushAllStep(p, store.objects, Value(), 1, put, Placements);
      r := FlushIndex(p, store, Placements, put.placements);
      if r.Err? {
        return;
      }
      assert all == CS.FlushAll(p, store.objects, Value(), CS.FLUSH_ORDER[2..], put);
      FlushAllStep(p, store.objects, Value(), 2, put, Endpoints);
      r := FlushIndex(p, store, Endpoints, put.endpoints);
      if r.Err? {
        return;
      }
      assert all == CS.FlushAll(p, store.objects, Value(), CS.FLUSH_ORDER[3..], put);
      FlushAllStep(p, store.objects, Value(), 3, put, Retentions);
      r := FlushIndex(p, store, Retentions, put.retentions);
      if r.Err? {
        return;
      }
      assert all == CS.FlushAll(p, store.objects, Value(), CS.FLUSH_ORDER[4..], put);
      FlushAllStep(p, store.objects, Value(), 4, put, Advisory);
      r := FlushIndex(p, store, Advisory, put.advisory);
      if r.Err? {
        return;
      }
      assert all == CS.FlushAll(p, store.objects, Value(), CS.FLUSH_ORDER[5..], put);
      FlushAllDone(p, store.objects, Value(), put);
      r := Ok(());
    }

    method SwapRoot(p: Primitives, cell: RootCell, fault: CS.ExchangeFault, token: CS.Revision) returns (r: Result<()>)
      modifies this, cell
      ensures CS.Answer(Value(), cell.reg, r) == CS.Finish(p, old(cell.reg), old(Value()), fault, token)
    {
      hide RootImage;
      var bytes := RootImage(p, Root(database, Five(indexes.placements.head, indexes.endpoints.head,
                                                    indexes.retentions.head, indexes.advisory.head, indexes.heads.head)));
      var reply := cell.CompareExchange(revision, bytes, fault, token);
      match reply
      case Applied(t) =>
        revision := Some(t);
        r := Ok(());
      case StaleReply =>
        uncertain := true;
        r := Err(Stale);
      case UncertainReply =>
        uncertain := true;
        r := Err(Uncertain);
      case FailedReply =>
        uncertain := true;
        r := Err(Backend);
    }

    method Publish(p: Primitives, store: ObjectStore, cell: RootCell, put: Five<PutFault>, fault: CS.ExchangeFault,
                   token: CS.Revision) returns (r: Result<()>)
      requires Valid()
      modifies this, Parts(), store, cell
      ensures CS.Published(Value(), store.objects, cell.reg, r)
           == CS.Publish(p, old(store.objects), old(cell.reg), old(Value()), put, fault, token)
    {
      hide CS.FlushAll, CS.Begin, CS.Finish;
      if uncertain {
        return Err(Uncertain);
      }
      RecordHead(p);
      r := FlushIndexes(p, store, put);
      if r.Err? {
        return;
      }
      r := SwapRoot(p, cell, fault, token);
    }

    /** The second half of `publish_confirmed`, run on whatever root is there by then. */
    method Reread(p: Primitives, result: Result<()>, later: Option<CS.RootRecord>) returns (r: Result<()>)
      modifies this
      ensures (Value(), r) == CS.Confirm(p, old(Value()), result, later)
    {
      if result == Err(Uncertain) && later.Some?
         && later.value.bytes == RootImage(p, Root(database, Five(indexes.placements.head, indexes.endpoints.head,
                                                    indexes.retentions.head, indexes.advisory.head, indexes.heads.head))) {
        revision := Some(later.value.revision);
        uncertain := false;
        return Ok(());
      }
      return result;
    }
  }

  lemma FlushAllStep(p: Primitives, objs: Objects, s: CS.State, i: nat, put: Five<PutFault>, x: Which)
    requires i < |CS.FLUSH_ORDER| && CS.FLUSH_ORDER[i] == x
    ensures var f := CS.FlushOne(p, objs, s, x, put.Get(x));
      CS.FlushAll(p, objs, s, CS.FLUSH_ORDER[i..], put)
        == if f.result.Err? then f else CS.FlushAll(p, f.objs, f.state, CS.FLUSH_ORDER[i + 1..], put)
  {
    hide CS.FlushOne;
    assert CS.FLUSH_ORDER[i..][1..] == CS.FLUSH_ORDER[i + 1..];
  }

  lemma FlushAllDone(p: Primitives, objs: Objects, s: CS.State, put: Five<PutFault>)
    ensures CS.FlushAll(p, objs, s, CS.FLUSH_ORDER[5..], put) == CS.FlushedState(s, objs, Ok(()))
  {
  }

  /** Opens the catalog behind the current root. */
  method OpenCatalog(p: Primitives, store: ObjectStore, cell: RootCell, selected: Key) returns (r: Result<LiveCatalog>)
    ensures match CS.LoadFor(p, store.objects, cell.reg, selected)
      case Ok(s) => r.Ok? && fresh(r.value) && r.value.Valid() && r.value.Value() == s
      case Err(e) => r == Err(e)
  {
    hide Load, CS.HeadsDecode, DecodeHead, ParseRoot;
    if cell.reg.root.None? {
      var a := new LiveIndex();
      var b := new LiveIndex();
      var c := new LiveIndex();
      var d := new LiveIndex();
      var e := new LiveIndex();
      var catalog := new LiveCatalog(CS.FreshState(selected), Five(a, b, c, d, e));
      return Ok(catalog);
    }
    var root := ParseRoot(p, cell.reg.root.value.bytes);
    if root.Err? {
      return Err(root.error);
    }
    var heads := LoadIndex(p, store, root.value.ids.heads);
    if heads.Err? {
      return Err(heads.error);
    }
    if !CS.HeadsDecode(p, heads.value.entries, root.value.database) {
      return Err(Corrupt);
    }
    DecodedAt(p, heads.value.entries, root.value.database, selected);
    var branch := if selected in heads.value.entries
                  then DecodeHead(p, heads.value.entries[selected], root.value.database).value else NO_HEAD;
    var placements := LoadIndex(p, store, root.value.ids.placements);
    if placements.Err? {
      return Err(placements.error);
    }
    var endpoints := LoadIndex(p, store, root.value.ids.endpoints);
    if endpoints.Err? {
      return Err(endpoints.error);
    }
    var retentions := LoadIndex(p, store, root.value.ids.retentions);
    if retentions.Err? {
      return Err(retentions.error);
    }
    var advisory := LoadIndex(p, store, root.value.ids.advisory);
    if advisory.Err? {
      return Err(advisory.error);
    }
    var s := CS.FreshState(selected).(revision := Some(cell.reg.root.value.revision), database := root.value.database, head := branch);
    var catalog := new LiveCatalog(s, Five(placements.value, endpoints.value, retentions.value, advisory.value, heads.value));
    return Ok(catalog);
  }

  lemma DecodedAt(p: Primitives, heads: Entries, database: Option<Digest>, name: Key)
    requires CS.HeadsDecode(p, heads, database)
    ensures name in heads ==> DecodeHead(p, heads[name], database).Ok?
  {
  }
}
