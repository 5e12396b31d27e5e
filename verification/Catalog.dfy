/** The catalog: five indexes and the named branch heads behind one conditional root
    (src/storage/catalog.rs, `Head` and `State`). */
module Catalog {
  import opened Bytes
  import opened IndexRun
  import opened Format

  const HEAD_MAGIC: Bytes := [0x5a, 0x42, 0x52, 0x41, 0x4e, 0x43, 0x48, 0x31]
  const ROOT_MAGIC: Bytes := [0x5a, 0x43, 0x41, 0x54, 0x30, 0x30, 0x30, 0x31]
  const MAIN: Key := [0x6d, 0x61, 0x69, 0x6e]

  // Branch heads

  datatype Head = Head(attachment: Option<Digest>, sealed: Option<ActiveHeader>, pending: Option<ActiveHeader>)

  const NO_HEAD: Head := Head(None, None, None)

  /** The conditions under which a stored header belongs to the namespace. */
  predicate Belongs(p: Primitives, h: Option<ActiveHeader>, database: Option<Digest>) {
    h.Some? ==> ValidHeader(p, h.value) && database == Some(h.value.database) && h.value.parent != ZeroDigest()
  }

  predicate ValidHead(p: Primitives, h: Head, database: Option<Digest>) {
    Belongs(p, h.sealed, database) && Belongs(p, h.pending, database)
  }

  function PrintHeader(p: Primitives, h: Option<ActiveHeader>): Bytes {
    if h.None? then [0] else [1] + HeaderImage(p, h.value)
  }

  function HeadImage(p: Primitives, h: Head): Bytes {
    HEAD_MAGIC + PrintId(h.attachment) + PrintHeader(p, h.sealed) + PrintHeader(p, h.pending)
  }

  function ParseHeader(p: Primitives, b: Bytes): Result<Step<Option<ActiveHeader>>> {
    var tag :- Take(b, 1);
    if tag.value[0] == 0 then Ok(Step(None, tag.rest))
    else if tag.value[0] == 1 then
      var sector :- Take(tag.rest, SECTOR);
      var h :- DecodeHeader(p, sector.value);
      Ok(Step(Some(h), sector.rest))
    else Err(Corrupt)
  }

  predicate Foreign(h: Option<ActiveHeader>, database: Option<Digest>) {
    h.Some? && (database != Some(h.value.database) || h.value.parent == ZeroDigest())
  }

  function DecodeHead(p: Primitives, b: Bytes, database: Option<Digest>): Result<Head> {
    var magic :- Take(b, 8);
    if magic.value != HEAD_MAGIC then Err(Corrupt) else
    var attachment :- ParseId(magic.rest);
    var sealed :- ParseHeader(p, attachment.rest);
    var pending :- ParseHeader(p, sealed.rest);
    if pending.rest != [] then Err(Corrupt)
    else if Foreign(sealed.value, database) || Foreign(pending.value, database) then Err(IdentityMismatch)
    else Ok(Head(attachment.value, sealed.value, pending.value))
  }

  lemma ParsePrintHeader(p: Primitives, h: Option<ActiveHeader>, rest: Bytes)
    requires h.Some? ==> ValidHeader(p, h.value)
    ensures ParseHeader(p, PrintHeader(p, h) + rest) == Ok(Step(h, rest))
  {
    hide HeaderImage, DecodeHeader, ValidHeader;
    if h.None? {
      TakePrefix([0], rest);
    } else {
      var image := HeaderImage(p, h.value);
      assert PrintHeader(p, h) + rest == [1] + (image + rest);
      TakePrefix([1], image + rest);
      TakePrefix(image, rest);
      HeaderRoundTrip(p, h.value);
    }
  }

  lemma HeadRoundTrip(p: Primitives, h: Head, database: Option<Digest>)
    requires ValidHead(p, h, database)
    ensures DecodeHead(p, HeadImage(p, h), database) == Ok(h)
  {
    hide ValidHeader, ParseHeader, PrintHeader, ParseId, PrintId;
    var a, s, q := PrintId(h.attachment), PrintHeader(p, h.sealed), PrintHeader(p, h.pending);
    assert HeadImage(p, h) == HEAD_MAGIC + (a + (s + (q + [])));
    TakePrefix(HEAD_MAGIC, a + (s + (q + [])));
    ParsePrintId(h.attachment, s + (q + []));
    ParsePrintHeader(p, h.sealed, q + []);
    ParsePrintHeader(p, h.pending, []);
  }

  /** The bytes of a header field that reads as this header. */
  predicate ReadsAsHeader(p: Primitives, b: Bytes, h: Option<ActiveHeader>) {
    if h.None? then b == [0] else |b| == 1 + SECTOR && b[0] == 1 && DecodeHeader(p, b[1..]) == Ok(h.value)
  }

  lemma DecodedValid(p: Primitives, b: Bytes)
    requires DecodeHeader(p, b).Ok?
    ensures ValidHeader(p, DecodeHeader(p, b).value)
  {
    hide ValidHeader, DecodeHeader, Sealed, Splice, HeaderImage;
    HeaderCanonical(p, b);
  }

  lemma PrintParseHeader(p: Primitives, b: Bytes)
    requires ParseHeader(p, b).Ok?
    ensures var s := ParseHeader(p, b).value;
      && |s.rest| <= |b| && b[|b| - |s.rest|..] == s.rest && ReadsAsHeader(p, b[..|b| - |s.rest|], s.value)
      && (s.value.Some? ==> ValidHeader(p, s.value.value))
  {
    hide DecodeHeader, ValidHeader;
    if b[0] == 1 {
      DecodedValid(p, b[1..][..SECTOR]);
      assert b[..1 + SECTOR][1..] == b[1..][..SECTOR];
      assert b[1..][SECTOR..] == b[1 + SECTOR..];
    } else {
      assert b[..1] == [0];
    }
  }

  /** Whatever the decoder accepts is a head of this namespace, field by field, with nothing after it. */
  lemma HeadSound(p: Primitives, b: Bytes, database: Option<Digest>)
    requires DecodeHead(p, b, database).Ok?
    ensures var h := DecodeHead(p, b, database).value;
      && ValidHead(p, h, database)
      && exists x, y :: b == HEAD_MAGIC + PrintId(h.attachment) + x + y && ReadsAsHeader(p, x, h.sealed) && ReadsAsHeader(p, y, h.pending)
  {
    hide ParseHeader, ParseId, PrintId, ReadsAsHeader, ValidHeader;
    var h := DecodeHead(p, b, database).value;
    var c := b[8..];
    PrintParseId(c);
    var d := ParseId(c).value.rest;
    PrintParseHeader(p, d);
    var e := ParseHeader(p, d).value.rest;
    PrintParseHeader(p, e);
    var x := d[..|d| - |e|];
    assert d == x + e && e[..|e|] == e;
    assert b == HEAD_MAGIC + c;
    assert b == HEAD_MAGIC + PrintId(h.attachment) + x + e;
  }

  /** 1 to 128 ASCII letters, digits, full stops, underscores or hyphens. */
  predicate ValidName(name: Key) {
    && 0 < |name| <= 128
    && forall c | c in name ::
      0x30 <= c <= 0x39 || 0x41 <= c <= 0x5a || 0x61 <= c <= 0x7a || c == 0x2e || c == 0x5f || c == 0x2d
  }

  // The five indexes

  datatype Which = Placements | Endpoints | Retentions | Advisory | Heads

  datatype Five<T> = Five(placements: T, endpoints: T, retentions: T, advisory: T, heads: T) {
    function Get(w: Which): T {
      match w
      case Placements => placements
      case Endpoints => endpoints
      case Retentions => retentions
      case Advisory => advisory
      case Heads => heads
    }

    function Set(w: Which, t: T): (r: Five<T>)
      ensures forall x: Which :: r.Get(x) == if x == w then t else Get(x)
    {
      match w
      case Placements => this.(placements := t)
      case Endpoints => this.(endpoints := t)
      case Retentions => this.(retentions := t)
      case Advisory => this.(advisory := t)
      case Heads => this.(heads := t)
    }
  }

  // The root record

  datatype Root = Root(database: Option<Digest>, ids: Five<Option<Id>>)

  function RootBody(r: Root): Bytes {
    ROOT_MAGIC + PrintId(r.database) + PrintId(r.ids.placements) + PrintId(r.ids.endpoints)
    + PrintId(r.ids.retentions) + PrintId(r.ids.advisory) + PrintId(r.ids.heads)
  }

  function RootImage(p: Primitives, r: Root): Bytes {
    RootBody(r) + p.blake3(RootBody(r))
  }

  function ParseIds(b: Bytes): Result<Root> {
    var database :- ParseId(b);
    var placements :- ParseId(database.rest);
    var endpoints :- ParseId(placements.rest);
    var retentions :- ParseId(endpoints.rest);
    var advisory :- ParseId(retentions.rest);
    var heads :- ParseId(advisory.rest);
    if heads.rest != [] then Err(Corrupt)
    else Ok(Root(database.value,
                 Five(placements.value, endpoints.value, retentions.value, advisory.value, heads.value)))
  }

  function ParseRoot(p: Primitives, b: Bytes): Result<Root> {
    if |b| < 40 || b[..8] != ROOT_MAGIC || p.blake3(b[..|b| - 32]) != b[|b| - 32..] then Err(Corrupt)
    else ParseIds(b[8..|b| - 32])
  }

  lemma RootRoundTrip(p: Primitives, r: Root)
    ensures ParseRoot(p, RootImage(p, r)) == Ok(r)
  {
    hide ParseId, PrintId;
    var f := PrintId(r.ids.heads) + [];
    var e := PrintId(r.ids.advisory) + f;
    var d := PrintId(r.ids.retentions) + e;
    var c := PrintId(r.ids.endpoints) + d;
    var b := PrintId(r.ids.placements) + c;
    var a := PrintId(r.database) + b;
    assert RootBody(r) == ROOT_MAGIC + a;
    ParsePrintId(r.database, b);
    ParsePrintId(r.ids.placements, c);
    ParsePrintId(r.ids.endpoints, d);
    ParsePrintId(r.ids.retentions, e);
    ParsePrintId(r.ids.advisory, f);
    ParsePrintId(r.ids.heads, []);
    var image := RootImage(p, r);
    assert image[..|image| - 32] == RootBody(r);
    assert image[|image| - 32..] == p.blake3(RootBody(r));
    assert image[..8] == RootBody(r)[..8] == ROOT_MAGIC;
    assert image[8..|image| - 32] == a;
  }

  lemma PrintParseIds(b: Bytes)
    requires ParseIds(b).Ok?
    ensures var r := ParseIds(b).value;
      b == PrintId(r.database) + PrintId(r.ids.placements) + PrintId(r.ids.endpoints) + PrintId(r.ids.retentions)
           + PrintId(r.ids.advisory) + PrintId(r.ids.heads)
  {
    hide ParseId, PrintId;
    PrintParseId(b);
    var c := ParseId(b).value.rest;
    PrintParseId(c);
    var d := ParseId(c).value.rest;
    PrintParseId(d);
    var e := ParseId(d).value.rest;
    PrintParseId(e);
    var f := ParseId(e).value.rest;
    PrintParseId(f);
    var g := ParseId(f).value.rest;
    PrintParseId(g);
  }

  /** Whatever the parser accepts is exactly the encoding of the root it returns, checksum included. */
  lemma RootCanonical(p: Primitives, b: Bytes)
    requires ParseRoot(p, b).Ok?
    ensures b == RootImage(p, ParseRoot(p, b).value)
  {
    hide ParseIds, PrintId;
    var r := ParseRoot(p, b).value;
    var body := b[8..|b| - 32];
    PrintParseIds(body);
    assert b[..|b| - 32] == ROOT_MAGIC + body;
    assert ROOT_MAGIC + body == RootBody(r);
    assert b == b[..|b| - 32] + b[|b| - 32..];
  }
}
