/** The log-structured index: a content-addressed chain of delta runs with tombstones and periodic
    checkpoints (src/storage/catalog.rs, `Index`). */
module Index {
  import opened Bytes
  import opened IndexRun

  const INDEX_LIMIT: nat := 64 * 1024 * 1024
  const MAX_DEPTH: nat := 64
  const CHECKPOINT_DEPTH: nat := 16
  const INDEX_MAGIC: Bytes := [0x5a, 0x49, 0x4e, 0x44, 0x45, 0x58, 0x30, 0x31]

  /** The immutable index objects of a backend. */
  type Objects = map<Id, Bytes>
  type Entries = map<Key, Bytes>

  // Envelopes

  function Envelope(p: Primitives, raw: Bytes): Bytes {
    INDEX_MAGIC + ToLE(|raw|, 8) + p.blake3(raw) + p.compress(raw)
  }

  /** What opens is what the hash inside vouches for, and no longer than allowed. */
  function OpenEnvelope(p: Primitives, b: Bytes, limit: nat): (r: Result<Bytes>)
    ensures r.Ok? ==> |b| >= 48 && b[..8] == INDEX_MAGIC && |r.value| <= limit && b[16..48] == p.blake3(r.value)
  {
    if |b| < 48 || b[..8] != INDEX_MAGIC then Err(Corrupt)
    else if GetU64(b, 8) > limit then Err(Range)
    else
      var raw := p.decompress(b[48..], GetU64(b, 8));
      if raw.None? || |raw.value| != GetU64(b, 8) || p.blake3(raw.value) != b[16..48] then Err(Corrupt)
      else Ok(raw.value)
  }

  /** What an encoding opens to when no size limit applies. */
  function Contents(p: Primitives, b: Bytes): Result<Bytes> {
    OpenEnvelope(p, b, U64_LIMIT)
  }

  lemma OpenWithin(p: Primitives, b: Bytes, limit: nat)
    requires Contents(p, b).Ok?
    ensures OpenEnvelope(p, b, limit) ==
      if |Contents(p, b).value| <= limit then Contents(p, b) else Err(Range)
  {
  }

  lemma OpenEnvelopeOfEnvelope(p: Primitives, raw: Bytes)
    requires Lossless(p) && |raw| < U64_LIMIT
    ensures Contents(p, Envelope(p, raw)) == Ok(raw)
  {
    hide ToLE, FromLE, OpenEnvelope;
    var n: u64 := |raw|;
    EnvelopeParts(INDEX_MAGIC, ToLE(n, 8), p.blake3(raw), p.compress(raw));
    OpenParts(p, Envelope(p, raw), raw);
  }

  lemma OpenParts(p: Primitives, b: Bytes, raw: Bytes)
    requires Lossless(p) && |raw| < U64_LIMIT && |b| >= 48
    requires b[..8] == INDEX_MAGIC && b[8..16] == ToLE(|raw|, 8) && b[16..48] == p.blake3(raw) && b[48..] == p.compress(raw)
    ensures Contents(p, b) == Ok(raw)
  {
    hide ToLE, FromLE, U64, GetU64;
    ReadsLength(b, |raw|);
  }

  lemma ReadsLength(b: Bytes, n: u64)
    requires |b| >= 16 && b[8..16] == ToLE(n, 8)
    ensures GetU64(b, 8) == n
  {
    assert ToLE(n, 8) == U64(n);
    hide ToLE, FromLE, U64;
  }

  lemma EnvelopeParts(magic: Bytes, length: Bytes, hash: Digest, body: Bytes)
    requires |magic| == 8 && |length| == 8
    ensures var b := magic + length + hash + body;
      |b| >= 48 && b[..8] == magic && b[8..16] == length && b[16..48] == hash && b[48..] == body
  {
  }

  // Loading

  datatype Opened = Opened(run: Run, length: nat)

  /** One iteration of the loading loop: fetch, authenticate, unwrap and parse one run. */
  function OpenRun(p: Primitives, objs: Objects, id: Id, budget: nat): Result<Opened> {
    if id !in objs then Err(Missing)
    else if |objs[id]| == 0 || |objs[id]| > INDEX_LIMIT then Err(Range)
    else if p.blake3(objs[id]) != id then Err(Corrupt)
    else
      var raw :- OpenEnvelope(p, objs[id], budget);
      var run :- ParseRun(raw);
      Ok(Opened(run, |raw|))
  }

  datatype Walk = Walk(objects: set<Id>, depth: nat, decoded: nat, table: Table)

  function LoadChain(p: Primitives, objs: Objects, next: Option<Id>, w: Walk): Result<Walk>
    requires w.decoded <= INDEX_LIMIT
    decreases MAX_DEPTH - w.depth
  {
    if next.None? then Ok(w)
    else if w.depth >= MAX_DEPTH || next.value in w.objects then Err(Range)
    else
      var o :- OpenRun(p, objs, next.value, INDEX_LIMIT - w.decoded);
      OpenedWithin(p, objs, next.value, INDEX_LIMIT - w.decoded);
      LoadChain(p, objs, o.run.parent, Advance(w, next.value, o))
  }

  function Advance(w: Walk, id: Id, o: Opened): Walk {
    Walk(w.objects + {id}, w.depth + 1, w.decoded + o.length, o.run.table + w.table)
  }

  lemma OpenedWithin(p: Primitives, objs: Objects, id: Id, budget: nat)
    ensures OpenRun(p, objs, id, budget).Ok? ==> OpenRun(p, objs, id, budget).value.length <= budget
  {
  }

  function Live(t: Table): Entries {
    map k | k in t && t[k].Some? :: t[k].value
  }

  datatype IndexValue = IndexValue(head: Option<Id>, objects: set<Id>, entries: Entries, dirty: Table, depth: nat)

  const EMPTY_INDEX: IndexValue := IndexValue(None, {}, map[], map[], 0)

  function Load(p: Primitives, objs: Objects, head: Option<Id>): Result<IndexValue> {
    var w :- LoadChain(p, objs, head, Walk({}, 0, 0, map[]));
    Ok(IndexValue(head, w.objects, Live(w.table), map[], w.depth))
  }

  // Editing and flushing

  function Insert(v: IndexValue, key: Key, value: Bytes): IndexValue {
    if key in v.entries && v.entries[key] == value then v
    else v.(entries := v.entries[key := value], dirty := v.dirty[key := Some(value)])
  }

  function Remove(v: IndexValue, key: Key): IndexValue {
    if key in v.entries then v.(entries := v.entries - {key}, dirty := v.dirty[key := None]) else v
  }

  /** What the transport may do to one object write. */
  datatype PutFault = NoFault | Refused | StoredButReported

  datatype Flushed = Flushed(value: IndexValue, objs: Objects, result: Result<()>)

  predicate FlushIsIdle(v: IndexValue) {
    v.dirty == map[] && v.depth < CHECKPOINT_DEPTH
  }

  predicate IsCheckpoint(v: IndexValue) {
    v.head.None? || v.depth >= CHECKPOINT_DEPTH
  }

  function AllEntries(e: Entries): Table {
    map k | k in e :: Some(e[k])
  }

  function NextRun(v: IndexValue): Run {
    if IsCheckpoint(v) then Run(None, AllEntries(v.entries)) else Run(v.head, v.dirty)
  }

  ghost predicate Writable(run: Run) {
    Printable(run.table) && |PrintRun(run)| <= INDEX_LIMIT
  }

  /** An object store never replaces an object: a conflicting write is refused. */
  predicate Conflicts(objs: Objects, id: Id, b: Bytes) {
    id in objs && objs[id] != b
  }

  function Advanced(v: IndexValue, id: Id): IndexValue {
    if IsCheckpoint(v) then IndexValue(Some(id), {id}, v.entries, map[], 1)
    else IndexValue(Some(id), v.objects + {id}, v.entries, map[], v.depth + 1)
  }

  ghost function Flush(p: Primitives, objs: Objects, v: IndexValue, fault: PutFault): Flushed {
    if FlushIsIdle(v) then Flushed(v, objs, Ok(()))
    else if !Writable(NextRun(v)) then Flushed(v, objs, Err(Range))
    else
      var b := Envelope(p, PrintRun(NextRun(v)));
      var id := p.blake3(b);
      if fault.Refused? || Conflicts(objs, id, b) then Flushed(v, objs, Err(Backend))
      else if fault.StoredButReported? then Flushed(v, objs[id := b], Err(Backend))
      else Flushed(Advanced(v, id), objs[id := b], Ok(()))
  }

  // Chains

  datatype Link = Link(id: Id, run: Run)

  function HeadOf(links: seq<Link>): Option<Id> {
    if links == [] then None else Some(links[0].id)
  }

  /** The stored object is the authenticated printing of this run. */
  ghost predicate Holds(p: Primitives, objs: Objects, l: Link) {
    && l.id in objs
    && p.blake3(objs[l.id]) == l.id
    && Printable(l.run.table)
    && Contents(p, objs[l.id]) == Ok(PrintRun(l.run))
  }

  /** Newest run first; each run names the next as its parent, the last names none. */
  ghost predicate IsChain(p: Primitives, objs: Objects, links: seq<Link>) {
    links == [] || (Holds(p, objs, links[0]) && links[0].run.parent == HeadOf(links[1..]) && IsChain(p, objs, links[1..]))
  }

  function Ids(links: seq<Link>): set<Id> {
    set l | l in links :: l.id
  }

  /** Newer runs win, tombstones included. */
  function Resolve(links: seq<Link>): Table {
    if links == [] then map[] else Resolve(links[1..]) + links[0].run.table
  }

  ghost function TotalLength(links: seq<Link>): nat {
    if links == [] then 0 else |PrintRun(links[0].run)| + TotalLength(links[1..])
  }

  ghost predicate Readable(objs: Objects, l: Link)
    requires l.id in objs
  {
    |objs[l.id]| <= INDEX_LIMIT && CountGuard(|l.run.table|, |PrintRun(l.run)|)
  }

  /** The size limits the loader applies to a chain. */
  ghost predicate Loadable(objs: Objects, links: seq<Link>) {
    && |links| <= MAX_DEPTH
    && TotalLength(links) <= INDEX_LIMIT
    && forall l | l in links :: l.id in objs && Readable(objs, l)
  }

  lemma {:induction false} ChainGrows(p: Primitives, objs: Objects, more: Objects, links: seq<Link>)
    requires IsChain(p, objs, links)
    requires forall l | l in links :: l.id in objs && l.id in more && more[l.id] == objs[l.id]
    ensures IsChain(p, more, links)
  {
    hide PrintRun, Contents;
    if links != [] {
      ChainGrows(p, objs, more, links[1..]);
    }
  }

  lemma {:induction false} ChainHolds(p: Primitives, objs: Objects, links: seq<Link>, i: nat)
    requires IsChain(p, objs, links) && i < |links|
    ensures Holds(p, objs, links[i]) && links[i].run.parent == HeadOf(links[i + 1..])
  {
    hide Holds;
    if i > 0 {
      ChainHolds(p, objs, links[1..], i - 1);
      assert links[1..][i..] == links[i + 1..];
    }
  }

  /** A stored object fixes the parent it names, even when the loader would refuse it. */
  lemma ParentFixed(p: Primitives, objs: Objects, a: Link, b: Link)
    requires Holds(p, objs, a) && Holds(p, objs, b) && a.id == b.id
    ensures a.run.parent == b.run.parent
  {
    hide PrintRun, ParseId;
    PrintedParent(a.run);
    PrintedParent(b.run);
  }

  /** Because objects are immutable no chain can return to a run it has left. */
  lemma {:induction false} ChainDistinct(p: Primitives, objs: Objects, links: seq<Link>, i: nat, j: nat)
    requires IsChain(p, objs, links) && i < j < |links|
    ensures links[i].id != links[j].id
    decreases |links| - j
  {
    hide Holds;
    if links[i].id == links[j].id {
      ChainHolds(p, objs, links, i);
      ChainHolds(p, objs, links, j);
      ParentFixed(p, objs, links[i], links[j]);
      if j + 1 < |links| {
        ChainDistinct(p, objs, links, i + 1, j + 1);
      }
    }
  }

  lemma HeadNotInTail(p: Primitives, objs: Objects, links: seq<Link>)
    requires IsChain(p, objs, links) && links != []
    ensures links[0].id !in Ids(links[1..])
  {
    forall l | l in links[1..]
      ensures l.id != links[0].id
    {
      var j :| 0 <= j < |links[1..]| && links[1..][j] == l;
      ChainDistinct(p, objs, links, 0, j + 1);
    }
  }

  /** A head has one chain. */
  lemma {:induction false} ChainUnique(p: Primitives, objs: Objects, a: seq<Link>, b: seq<Link>)
    requires IsChain(p, objs, a) && IsChain(p, objs, b) && HeadOf(a) == HeadOf(b)
    ensures a == b
  {
    hide PrintRun, Contents;
    if a != [] {
      PrintRunInjective(a[0].run, b[0].run);
      ChainUnique(p, objs, a[1..], b[1..]);
      assert a == [a[0]] + a[1..] && b == [b[0]] + b[1..];
    }
  }
}
