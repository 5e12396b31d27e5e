/** What loading, flushing and collecting an index do to the map it stands for. */
module IndexProofs {
  import opened Bytes
  import opened IndexRun
  import opened Index

  // Loading a chain

  lemma OpenHeld(p: Primitives, objs: Objects, l: Link, budget: nat)
    requires Holds(p, objs, l)
    ensures OpenRun(p, objs, l.id, budget).Ok? <==> Readable(objs, l) && |PrintRun(l.run)| <= budget
    ensures OpenRun(p, objs, l.id, budget).Ok? ==>
      OpenRun(p, objs, l.id, budget).value == Opened(l.run, |PrintRun(l.run)|)
  {
    hide PrintRun, ParseRun;
    OpenWithin(p, objs[l.id], budget);
    ParsePrintRun(l.run);
  }

  /** The state of the loading loop once it has walked a whole chain. */
  ghost function Walked(w: Walk, links: seq<Link>): Walk {
    Walk(w.objects + Ids(links), w.depth + |links|, w.decoded + TotalLength(links), Resolve(links) + w.table)
  }

  lemma IdsCons(links: seq<Link>)
    requires links != []
    ensures Ids(links) == {links[0].id} + Ids(links[1..])
  {
    assert links == [links[0]] + links[1..];
  }

  lemma WalkedCons(w: Walk, links: seq<Link>)
    requires links != []
    ensures Walked(w, links) == Walked(Advance(w, links[0].id, Opened(links[0].run, |PrintRun(links[0].run)|)), links[1..])
  {
    hide PrintRun;
    IdsCons(links);
    var w' := Advance(w, links[0].id, Opened(links[0].run, |PrintRun(links[0].run)|));
    assert w.objects + Ids(links) == w'.objects + Ids(links[1..]);
    assert Resolve(links) + w.table == Resolve(links[1..]) + w'.table;
  }

  ghost predicate WalkFits(objs: Objects, w: Walk, links: seq<Link>) {
    && w.depth + |links| <= MAX_DEPTH
    && w.decoded + TotalLength(links) <= INDEX_LIMIT
    && forall l | l in links :: l.id in objs && Readable(objs, l)
  }

  lemma LoadStep(p: Primitives, objs: Objects, l: Link, w: Walk)
    requires Holds(p, objs, l) && l.id !in w.objects && w.decoded <= INDEX_LIMIT
    ensures var w' := Advance(w, l.id, Opened(l.run, |PrintRun(l.run)|));
      if w.depth < MAX_DEPTH && Readable(objs, l) && w'.decoded <= INDEX_LIMIT
      then LoadChain(p, objs, Some(l.id), w) == LoadChain(p, objs, l.run.parent, w')
      else LoadChain(p, objs, Some(l.id), w).Err?
  {
    hide PrintRun, OpenRun, Holds, Readable;
    OpenHeld(p, objs, l, INDEX_LIMIT - w.decoded);
  }

  lemma WalkFitsCons(objs: Objects, w: Walk, links: seq<Link>)
    requires links != []
    ensures WalkFits(objs, w, links) <==>
      && w.depth < MAX_DEPTH
      && links[0].id in objs && Readable(objs, links[0])
      && WalkFits(objs, Advance(w, links[0].id, Opened(links[0].run, |PrintRun(links[0].run)|)), links[1..])
  {
    hide PrintRun, CountGuard;
    assert links == [links[0]] + links[1..];
  }

  lemma {:induction false} WalkChain(p: Primitives, objs: Objects, links: seq<Link>, w: Walk)
    requires IsChain(p, objs, links) && Ids(links) !! w.objects && w.decoded <= INDEX_LIMIT && w.depth <= MAX_DEPTH
    ensures LoadChain(p, objs, HeadOf(links), w).Ok? <==> WalkFits(objs, w, links)
    ensures WalkFits(objs, w, links) ==> LoadChain(p, objs, HeadOf(links), w) == Ok(Walked(w, links))
    decreases |links|
  {
    if links == [] {
      assert Walked(w, links) == w;
    } else {
      hide PrintRun, LoadChain, WalkFits, Walked, Readable, Resolve, TotalLength, Holds;
      var w' := Advance(w, links[0].id, Opened(links[0].run, |PrintRun(links[0].run)|));
      IdsCons(links);
      LoadStep(p, objs, links[0], w);
      WalkFitsCons(objs, w, links);
      if w.depth < MAX_DEPTH && Readable(objs, links[0]) && w'.decoded <= INDEX_LIMIT {
        HeadNotInTail(p, objs, links);
        WalkChain(p, objs, links[1..], w');
        WalkedCons(w, links);
      } else {
        WalkFitsBound(objs, w', links[1..]);
      }
    }
  }

  lemma WalkFitsBound(objs: Objects, w: Walk, links: seq<Link>)
    ensures WalkFits(objs, w, links) ==> w.decoded <= INDEX_LIMIT
  {
  }

  /** Loading the head of a chain succeeds exactly when the chain meets the size limits, and then
      returns the newest value of every key, every object of the chain and nothing else. */
  lemma LoadOfChain(p: Primitives, objs: Objects, links: seq<Link>)
    requires IsChain(p, objs, links)
    ensures Load(p, objs, HeadOf(links)).Ok? <==> Loadable(objs, links)
    ensures Loadable(objs, links) ==>
      Load(p, objs, HeadOf(links)) == Ok(IndexValue(HeadOf(links), Ids(links), Live(Resolve(links)), map[], |links|))
  {
    hide PrintRun, LoadChain, Readable, Resolve, TotalLength, Holds, Live, Ids, IsChain;
    var w := Walk({}, 0, 0, map[]);
    WalkChain(p, objs, links, w);
    assert Resolve(links) + map[] == Resolve(links);
    assert Walked(w, links) == Walk(Ids(links), |links|, TotalLength(links), Resolve(links));
  }

  // Every successful load has walked a chain

  ghost function ChainFrom(p: Primitives, objs: Objects, next: Option<Id>, w: Walk): seq<Link>
    requires w.decoded <= INDEX_LIMIT && LoadChain(p, objs, next, w).Ok?
    decreases MAX_DEPTH - w.depth
  {
    if next.None? then [] else
    var o := OpenRun(p, objs, next.value, INDEX_LIMIT - w.decoded).value;
    OpenedWithin(p, objs, next.value, INDEX_LIMIT - w.decoded);
    [Link(next.value, o.run)] + ChainFrom(p, objs, o.run.parent, Advance(w, next.value, o))
  }

  lemma OpenedHolds(p: Primitives, objs: Objects, id: Id, budget: nat)
    requires OpenRun(p, objs, id, budget).Ok?
    ensures Holds(p, objs, Link(id, OpenRun(p, objs, id, budget).value.run))
  {
    hide PrintRun, ParseRun;
    PrintParseRun(OpenEnvelope(p, objs[id], budget).value);
  }

  lemma ChainFromStep(p: Primitives, objs: Objects, id: Id, w: Walk)
    requires w.decoded <= INDEX_LIMIT && LoadChain(p, objs, Some(id), w).Ok?
    ensures var r := OpenRun(p, objs, id, INDEX_LIMIT - w.decoded);
      && r.Ok?
      && w.depth < MAX_DEPTH
      && Advance(w, id, r.value).decoded <= INDEX_LIMIT
      && LoadChain(p, objs, r.value.run.parent, Advance(w, id, r.value)).Ok?
      && ChainFrom(p, objs, Some(id), w) ==
         [Link(id, r.value.run)] + ChainFrom(p, objs, r.value.run.parent, Advance(w, id, r.value))
  {
    hide OpenRun;
    OpenedWithin(p, objs, id, INDEX_LIMIT - w.decoded);
  }

  lemma ChainFromNone(p: Primitives, objs: Objects, w: Walk)
    requires w.decoded <= INDEX_LIMIT && LoadChain(p, objs, None, w).Ok?
    ensures ChainFrom(p, objs, None, w) == [] && IsChain(p, objs, [])
  {
  }

  lemma {:induction false} ChainFromIsChain(p: Primitives, objs: Objects, next: Option<Id>, w: Walk)
    requires w.decoded <= INDEX_LIMIT && LoadChain(p, objs, next, w).Ok?
    ensures IsChain(p, objs, ChainFrom(p, objs, next, w))
    ensures HeadOf(ChainFrom(p, objs, next, w)) == next
    decreases MAX_DEPTH - w.depth
  {
    hide Holds, OpenRun, IsChain, LoadChain, ChainFrom;
    if next.None? {
      ChainFromNone(p, objs, w);
    } else {
      var budget := INDEX_LIMIT - w.decoded;
      ChainFromStep(p, objs, next.value, w);
      OpenedHolds(p, objs, next.value, budget);
      var o := OpenRun(p, objs, next.value, budget).value;
      var w' := Advance(w, next.value, o);
      ChainFromIsChain(p, objs, o.run.parent, w');
      ChainCons(p, objs, Link(next.value, o.run), ChainFrom(p, objs, o.run.parent, w'));
    }
  }

  lemma ChainCons(p: Primitives, objs: Objects, l: Link, links: seq<Link>)
    requires Holds(p, objs, l) && l.run.parent == HeadOf(links) && IsChain(p, objs, links)
    ensures IsChain(p, objs, [l] + links)
  {
    hide Holds;
    assert ([l] + links)[1..] == links;
  }

  ghost function ChainAt(p: Primitives, objs: Objects, head: Option<Id>): (links: seq<Link>)
    requires Load(p, objs, head).Ok?
    ensures IsChain(p, objs, links) && HeadOf(links) == head
    ensures Loadable(objs, links)
    ensures Load(p, objs, head).value == IndexValue(head, Ids(links), Live(Resolve(links)), map[], |links|)
  {
    var w := Walk({}, 0, 0, map[]);
    ChainFromIsChain(p, objs, head, w);
    LoadOfChain(p, objs, ChainFrom(p, objs, head, w));
    ChainFrom(p, objs, head, w)
  }

  /** A head loads if and only if it is the head of a chain within the limits: every object there under its own hash,
      and every run printed as the writer prints it. */
  lemma LoadsIff(p: Primitives, objs: Objects, head: Option<Id>)
    ensures Load(p, objs, head).Ok? <==> exists links :: IsChain(p, objs, links) && HeadOf(links) == head && Loadable(objs, links)
  {
    hide Load, IsChain, Loadable, Ids, Live, Resolve;
    if Load(p, objs, head).Ok? {
      var links := ChainAt(p, objs, head);
      LoadOfChain(p, objs, links);
    }
    forall links | IsChain(p, objs, links) && HeadOf(links) == head && Loadable(objs, links)
      ensures Load(p, objs, head).Ok?
    {
      LoadOfChain(p, objs, links);
    }
  }

  /** A collector that keeps the objects of a loaded index cannot change what loading it returns. */
  lemma LoadSurvivesCollection(p: Primitives, objs: Objects, kept: Objects, head: Option<Id>)
    requires Load(p, objs, head).Ok?
    requires forall id | id in Load(p, objs, head).value.objects && id in objs :: id in kept && kept[id] == objs[id]
    ensures Load(p, kept, head) == Load(p, objs, head)
  {
    hide Load, IsChain;
    var links := ChainAt(p, objs, head);
    forall l | l in links
      ensures l.id in objs && l.id in kept && kept[l.id] == objs[l.id]
    {
      assert l.id in Ids(links);
    }
    ChainGrows(p, objs, kept, links);
    LoadOfChain(p, kept, links);
  }

  // Editing and flushing keep an index in step with its chain

  /** The in-memory index is its stored chain plus the unflushed edits. */
  ghost predicate Agrees(p: Primitives, objs: Objects, v: IndexValue, links: seq<Link>) {
    && IsChain(p, objs, links)
    && v.head == HeadOf(links)
    && v.objects == Ids(links)
    && v.depth == |links|
    && v.entries == Live(Resolve(links) + v.dirty)
  }

  lemma InsertAgrees(p: Primitives, objs: Objects, v: IndexValue, links: seq<Link>, key: Key, value: Bytes)
    requires Agrees(p, objs, v, links)
    ensures Agrees(p, objs, Insert(v, key, value), links)
    ensures Insert(v, key, value).entries == v.entries[key := value]
  {
    hide IsChain, Resolve, Ids;
    assert Live(Resolve(links) + v.dirty[key := Some(value)]) == Live(Resolve(links) + v.dirty)[key := value];
  }

  lemma RemoveAgrees(p: Primitives, objs: Objects, v: IndexValue, links: seq<Link>, key: Key)
    requires Agrees(p, objs, v, links)
    ensures Agrees(p, objs, Remove(v, key), links)
    ensures Remove(v, key).entries == v.entries - {key}
  {
    hide IsChain, Resolve, Ids;
    assert Live(Resolve(links) + v.dirty[key := None]) == Live(Resolve(links) + v.dirty) - {key};
  }

  ghost function FlushId(p: Primitives, v: IndexValue): Id {
    p.blake3(Envelope(p, PrintRun(NextRun(v))))
  }

  /** The chain an index stands on after a flush that reports success. */
  ghost function NextLinks(p: Primitives, v: IndexValue, links: seq<Link>): seq<Link> {
    if FlushIsIdle(v) then links
    else if IsCheckpoint(v) then [Link(FlushId(p, v), NextRun(v))]
    else [Link(FlushId(p, v), NextRun(v))] + links
  }

  lemma LiveOfAll(e: Entries)
    ensures Live(AllEntries(e)) == e
  {
  }

  lemma FlushedRunHolds(p: Primitives, objs: Objects, v: IndexValue)
    requires Lossless(p) && Writable(NextRun(v))
    requires !Conflicts(objs, FlushId(p, v), Envelope(p, PrintRun(NextRun(v))))
    ensures Holds(p, objs[FlushId(p, v) := Envelope(p, PrintRun(NextRun(v)))], Link(FlushId(p, v), NextRun(v)))
  {
    hide PrintRun, Envelope, NextRun, Contents;
    OpenEnvelopeOfEnvelope(p, PrintRun(NextRun(v)));
  }

  lemma ChainKept(p: Primitives, objs: Objects, links: seq<Link>, id: Id, b: Bytes)
    requires IsChain(p, objs, links) && !Conflicts(objs, id, b)
    ensures IsChain(p, objs[id := b], links)
  {
    forall l | l in links
      ensures l.id in objs
    {
      var i :| 0 <= i < |links| && links[i] == l;
      ChainHolds(p, objs, links, i);
    }
    ChainGrows(p, objs, objs[id := b], links);
  }

  /** Flushing never changes the map; it either reports an error and leaves the index alone or puts
      every edit into a chain of at most sixteen runs. */
  lemma FlushAgrees(p: Primitives, objs: Objects, v: IndexValue, links: seq<Link>, fault: PutFault)
    requires Lossless(p) && Agrees(p, objs, v, links)
    ensures var f := Flush(p, objs, v, fault);
      && f.value.entries == v.entries
      && (forall id | id in objs :: id in f.objs && f.objs[id] == objs[id])
      && (f.result.Err? ==> f.value == v && Agrees(p, f.objs, v, links))
      && (f.result.Ok? ==> f.value.dirty == map[] && Agrees(p, f.objs, f.value, NextLinks(p, v, links)))
      && (v.depth <= CHECKPOINT_DEPTH ==> f.value.depth <= CHECKPOINT_DEPTH)
  {
    hide PrintRun, Envelope, Printable, Resolve, Holds, IsChain, Live, AllEntries;
    if !FlushIsIdle(v) && Writable(NextRun(v)) {
      var b := Envelope(p, PrintRun(NextRun(v)));
      var id := FlushId(p, v);
      if !fault.Refused? && !Conflicts(objs, id, b) {
        ChainKept(p, objs, links, id, b);
        FlushedRunHolds(p, objs, v);
        NextLinksAgree(p, objs[id := b], v, links);
      }
    }
  }

  /** A flush succeeds if and only if there is nothing to do, or the run can be printed, the store accepts it and says so;
      after a failed write the retry ends where the first attempt would have without the fault. */
  lemma FlushOkIff(p: Primitives, objs: Objects, v: IndexValue, fault: PutFault)
    ensures var free := Writable(NextRun(v)) && !Conflicts(objs, FlushId(p, v), Envelope(p, PrintRun(NextRun(v))));
      var f := Flush(p, objs, v, fault);
      && (f.result.Ok? <==> (v.dirty == map[] && v.depth < CHECKPOINT_DEPTH) || (free && fault == NoFault))
      && (f.result.Err? && free ==>
          var again, clean := Flush(p, f.objs, f.value, NoFault), Flush(p, objs, v, NoFault);
          again.result.Ok? && again == clean)
  {
    hide PrintRun, Envelope, NextRun;
  }

  lemma NextLinksAgree(p: Primitives, objs: Objects, v: IndexValue, links: seq<Link>)
    requires !FlushIsIdle(v) && Agrees(p, objs, v, links) && Holds(p, objs, Link(FlushId(p, v), NextRun(v)))
    ensures Agrees(p, objs, Advanced(v, FlushId(p, v)), NextLinks(p, v, links))
  {
    hide FlushId, Holds;
    var l := Link(FlushId(p, v), NextRun(v));
    var next := NextLinks(p, v, links);
    if IsCheckpoint(v) {
      assert IsChain(p, objs, []);
      ChainCons(p, objs, l, []);
      assert [l] + [] == next;
      LiveOfAll(v.entries);
      assert Resolve(next) == AllEntries(v.entries);
      assert Resolve(next) + map[] == Resolve(next);
      IdsCons(next);
    } else {
      ChainCons(p, objs, l, links);
      assert next[1..] == links;
      assert Resolve(next) == Resolve(links) + v.dirty;
      assert Resolve(next) + map[] == Resolve(next);
      IdsCons(next);
    }
  }

  /** After a successful flush, loading the new head gives back exactly this index, provided the chain
      is within the loader's limits; otherwise it is refused. The flush itself checks one run only. */
  lemma FlushThenLoad(p: Primitives, objs: Objects, v: IndexValue, links: seq<Link>, fault: PutFault)
    requires Lossless(p) && Agrees(p, objs, v, links)
    requires Flush(p, objs, v, fault).result.Ok?
    ensures var f := Flush(p, objs, v, fault);
      if Loadable(f.objs, NextLinks(p, v, links)) then Load(p, f.objs, f.value.head) == Ok(f.value)
      else Load(p, f.objs, f.value.head).Err?
  {
    hide Flush, Load, NextLinks, IsChain, Resolve, Ids, Loadable;
    FlushAgrees(p, objs, v, links, fault);
    var f := Flush(p, objs, v, fault);
    var next := NextLinks(p, v, links);
    LoadOfChain(p, f.objs, next);
    assert Resolve(next) + map[] == Resolve(next);
  }
}
