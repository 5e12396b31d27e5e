/** The fixed records of the active pagefile: frame headers, state sectors and the header sector
    (src/format.rs). Encoders fill a zeroed buffer field by field; decoders read it back at the same
    offsets and reject every byte pattern the encoder cannot produce. */
module Format {
  import opened Bytes
  import opened Layout

  const SECTOR: nat := 4096
  const FRAME_HEADER_SIZE: nat := 24
  const FORMAT_VERSION: u16 := 1
  const MAX_FRAME_PAYLOAD: nat := 8 * 1024 * 1024
  const MIB: nat := 1024 * 1024
  const NO_DICTIONARY: u16 := 0xffff

  const ACTIVE_MAGIC: Bytes := [0x5a, 0x53, 0x51, 0x4c, 0x41, 0x43, 0x30, 0x31]
  const STATE_MAGIC: Bytes := [0x5a, 0x53, 0x51, 0x4c, 0x41, 0x53, 0x30, 0x31]
  const FRAME_MAGIC: Bytes := [0x50, 0x46, 0x52, 0x31]

  /** Text hashed for the history of an empty database: zsqlite/sealed-lineage/v1/genesis. */
  const GENESIS_TEXT: Bytes :=
    [0x7a, 0x73, 0x71, 0x6c, 0x69, 0x74, 0x65, 0x2f, 0x73, 0x65, 0x61, 0x6c, 0x65, 0x64, 0x2d, 0x6c, 0x69,
     0x6e, 0x65, 0x61, 0x67, 0x65, 0x2f, 0x76, 0x31, 0x2f, 0x67, 0x65, 0x6e, 0x65, 0x73, 0x69, 0x73]

  function GenesisHistory(p: Primitives): Digest {
    p.blake3(GENESIS_TEXT)
  }

  predicate ValidPageSize(n: nat) {
    n == 512 || n == 1024 || n == 2048 || n == 4096 || n == 8192 || n == 16384 || n == 32768 || n == 65536
  }

  // Sector checksum

  /** `put_sector_checksum`: the last four bytes cover everything before them. */
  function Sealed(p: Primitives, b: Bytes): (r: Bytes)
    requires |b| == SECTOR
    ensures |r| == SECTOR && r[..SECTOR - 4] == b[..SECTOR - 4]
    ensures r[SECTOR - 4..] == U32(p.crc32(b[..SECTOR - 4]))
  {
    b[..SECTOR - 4] + U32(p.crc32(b[..SECTOR - 4]))
  }

  function CheckSector(p: Primitives, b: Bytes, magic: Bytes): bool
    requires |b| == SECTOR
  {
    && b[..8] == magic
    && GetU16(b, 8) == FORMAT_VERSION
    && GetU32(b, SECTOR - 4) == p.crc32(b[..SECTOR - 4])
  }

  // Frame headers

  datatype Codec = Raw | Zstd

  datatype FrameHeader = FrameHeader(pageNo: u32, codec: Codec, dictionary: u16, storedLen: u32, rawLen: u32)

  predicate ValidFrameHeader(f: FrameHeader) {
    && f.pageNo != 0
    && 512 <= f.rawLen <= MAX_FRAME_PAYLOAD
    && f.rawLen % 512 == 0
    && 0 < f.storedLen <= f.rawLen
    && (f.codec.Raw? ==> f.dictionary == NO_DICTIONARY && f.storedLen == f.rawLen)
  }

  function FrameBody(f: FrameHeader): (b: Bytes)
    ensures |b| == 20
  {
    FRAME_MAGIC + U32(f.pageNo) + [if f.codec.Raw? then 0 else 1, 0] + U16(f.dictionary) + U32(f.storedLen)
    + U32(f.rawLen)
  }

  function FrameImage(p: Primitives, f: FrameHeader): (b: Bytes)
    ensures |b| == FRAME_HEADER_SIZE
  {
    FrameBody(f) + U32(p.crc32(FrameBody(f)))
  }

  function DecodeFrame(p: Primitives, b: Bytes): Result<FrameHeader> {
    if |b| != FRAME_HEADER_SIZE || b[..4] != FRAME_MAGIC || GetU32(b, 20) != p.crc32(b[..20]) || b[8] > 1 then
      Err(Format)
    else
      var f := FrameHeader(GetU32(b, 4), if b[8] == 0 then Raw else Zstd, GetU16(b, 10), GetU32(b, 12), GetU32(b, 16));
      if b[9] != 0 || !ValidFrameHeader(f) then Err(Format) else Ok(f)
  }

  lemma FrameRoundTrip(p: Primitives, f: FrameHeader)
    requires ValidFrameHeader(f)
    ensures DecodeFrame(p, FrameImage(p, f)) == Ok(f)
  {
    hide U16, U32;
    var b := FrameImage(p, f);
    assert b[..20] == FrameBody(f);
    assert b[..4] == FRAME_MAGIC;
    assert b[4..8] == U32(f.pageNo);
    assert b[8..10] == [if f.codec.Raw? then 0 else 1, 0];
    assert b[8] == b[8..10][0] && b[9] == b[8..10][1];
    assert b[10..12] == U16(f.dictionary);
    assert b[12..16] == U32(f.storedLen);
    assert b[16..20] == U32(f.rawLen);
    assert b[20..24] == U32(p.crc32(FrameBody(f)));
  }

  lemma FrameCanonical(p: Primitives, b: Bytes)
    requires DecodeFrame(p, b).Ok?
    ensures ValidFrameHeader(DecodeFrame(p, b).value)
    ensures FrameImage(p, DecodeFrame(p, b).value) == b
  {
    hide U16, U32;
    var f := DecodeFrame(p, b).value;
    assert b[8..10] == [if f.codec.Raw? then 0 else 1, 0];
    assert b[..20] == b[..4] + b[4..8] + b[8..10] + b[10..12] + b[12..16] + b[16..20];
    assert b[..20] == FrameBody(f);
    assert b == b[..20] + b[20..24];
  }

  // State sectors

  datatype ActiveState = ActiveState(
    database: Digest,
    sequence: u64,
    txid: u64,
    logicalSize: u64,
    pageSize: u32,
    history: Digest,
    commitUnix: u64,
    firstCommitUnix: u64,
    recordCount: u64,
    truncatePages: Option<u32>)

  predicate ValidState(s: ActiveState) {
    && s.sequence != 0
    && (s.pageSize == 0 ==> s.logicalSize == 0)
    && (s.pageSize != 0 ==> ValidPageSize(s.pageSize) && s.logicalSize % s.pageSize == 0)
    && (s.truncatePages.Some? ==> s.pageSize != 0 && s.truncatePages.value <= s.logicalSize / s.pageSize)
  }

  function StateBody(s: ActiveState): (b: Bytes)
    ensures |b| == SECTOR
  {
    var b := Zeros(SECTOR);
    var b := Splice(b, 0, STATE_MAGIC);
    var b := Splice(b, 8, U16(FORMAT_VERSION));
    var b := Splice(b, 16, s.database);
    var b := Splice(b, 48, U64(s.sequence));
    var b := Splice(b, 56, U64(s.txid));
    var b := Splice(b, 64, U64(s.logicalSize));
    var b := Splice(b, 72, U32(s.pageSize));
    var b := Splice(b, 80, s.history);
    var b := Splice(b, 112, U64(s.commitUnix));
    var b := Splice(b, 120, U64(s.recordCount));
    var b := if s.truncatePages.Some? then Splice(Splice(b, 128, [1]), 132, U32(s.truncatePages.value)) else b;
    Splice(b, 136, U64(s.firstCommitUnix))
  }

  function StateImage(p: Primitives, s: ActiveState): (b: Bytes)
    ensures |b| == SECTOR
  {
    Sealed(p, StateBody(s))
  }

  function StateFields(b: Bytes): (s: ActiveState)
    requires |b| == SECTOR
  {
    ActiveState(b[16..48], GetU64(b, 48), GetU64(b, 56), GetU64(b, 64), GetU32(b, 72), b[80..112], GetU64(b, 112),
                GetU64(b, 136), GetU64(b, 120), if b[128] == 0 then None else Some(GetU32(b, 132)))
  }

  function DecodeState(p: Primitives, b: Bytes): Result<ActiveState> {
    if |b| != SECTOR || !CheckSector(p, b, STATE_MAGIC) then Err(Format)
    else if b[128] > 1 || (b[128] == 0 && GetU32(b, 132) != 0) then Err(Format)
    else
      var s := StateFields(b);
      if || !ValidState(s)
         || b[10..16] != Zeros(6)
         || b[76..80] != Zeros(4)
         || b[129..132] != Zeros(3)
         || b[144..SECTOR - 4] != Zeros(SECTOR - 148)
      then Err(Format) else Ok(s)
  }

  lemma ZeroSlices(n: nat)
    ensures forall i, j | 0 <= i <= j <= n :: Zeros(n)[i..j] == Zeros(j - i)
  {
  }

  /** The state sector, field by field, at the offsets the decoder uses. */
  predicate StateLaidOut(b: Bytes, s: ActiveState)
    requires |b| == SECTOR
  {
    && b[0..8] == STATE_MAGIC
    && b[8..10] == U16(FORMAT_VERSION)
    && b[10..16] == Zeros(6)
    && b[16..48] == s.database
    && b[48..56] == U64(s.sequence)
    && b[56..64] == U64(s.txid)
    && b[64..72] == U64(s.logicalSize)
    && b[72..76] == U32(s.pageSize)
    && b[76..80] == Zeros(4)
    && b[80..112] == s.history
    && b[112..120] == U64(s.commitUnix)
    && b[120..128] == U64(s.recordCount)
    && b[128..129] == [if s.truncatePages.Some? then 1 else 0]
    && b[129..132] == Zeros(3)
    && b[132..136] == U32(if s.truncatePages.Some? then s.truncatePages.value else 0)
    && b[136..144] == U64(s.firstCommitUnix)
    && b[144..SECTOR - 4] == Zeros(SECTOR - 148)
  }

  lemma StateBodyLaidOut(s: ActiveState)
    ensures StateLaidOut(StateBody(s), s)
  {
    hide Splice, U16, U32, U64, Zeros;
    ZeroSlices(SECTOR);
    ZeroWord();
  }

  lemma ZeroWord()
    ensures U32(0) == Zeros(4)
    ensures Zeros(1) == [0]
  {
    assert ToLE(0, 4) == [0] + ToLE(0, 3) == [0, 0] + ToLE(0, 2) == [0, 0, 0] + ToLE(0, 1);
  }

  lemma StateRoundTrip(p: Primitives, s: ActiveState)
    requires ValidState(s)
    ensures DecodeState(p, StateImage(p, s)) == Ok(s)
  {
    var b := StateImage(p, s);
    StateBodyLaidOut(s);
    StateImageLaidOut(p, s);
    assert CheckSector(p, b, STATE_MAGIC);
    StateFieldsOf(b, s);
  }

  lemma StateImageLaidOut(p: Primitives, s: ActiveState)
    ensures StateLaidOut(StateImage(p, s), s)
    ensures CheckSector(p, StateImage(p, s), STATE_MAGIC)
  {
    hide StateBody, U16, U32, U64, Zeros;
    StateBodyLaidOut(s);
    var b, c := StateBody(s), StateImage(p, s);
    assert forall i, j | 0 <= i <= j <= SECTOR - 4 :: c[i..j] == c[..SECTOR - 4][i..j] == b[..SECTOR - 4][i..j] == b[i..j];
    assert c[SECTOR - 4..SECTOR] == c[SECTOR - 4..];
    assert c[..8] == c[0..8];
  }

  lemma StateFieldsOf(b: Bytes, s: ActiveState)
    requires |b| == SECTOR && StateLaidOut(b, s)
    ensures StateFields(b) == s && b[128] == (if s.truncatePages.Some? then 1 else 0)
    ensures s.truncatePages.None? ==> GetU32(b, 132) == 0
  {
    hide U16, U32, U64, Zeros;
    assert b[128] == b[128..129][0];
  }

  /** A sector written for an invalid state is refused. */
  lemma StateRejected(p: Primitives, s: ActiveState)
    requires !ValidState(s)
    ensures DecodeState(p, StateImage(p, s)).Err?
  {
    hide StateImage;
    StateImageLaidOut(p, s);
    StateFieldsOf(StateImage(p, s), s);
  }

  /** An accepted state sector is valid and is exactly what encoding it again writes. */
  lemma StateCanonical(p: Primitives, b: Bytes)
    requires DecodeState(p, b).Ok?
    ensures ValidState(DecodeState(p, b).value)
    ensures StateImage(p, DecodeState(p, b).value) == b
  {
    var s := DecodeState(p, b).value;
    StateLaidOutDecoded(p, b);
    StateImageLaidOut(p, s);
    SameStateSector(b, StateImage(p, s), s);
    SameChecksum(p, b, StateImage(p, s), STATE_MAGIC);
  }

  lemma StateLaidOutDecoded(p: Primitives, b: Bytes)
    requires DecodeState(p, b).Ok?
    ensures StateLaidOut(b, DecodeState(p, b).value)
  {
    hide U16, U32, U64, Zeros;
    ZeroWord();
    assert b[0..8] == b[..8];
    assert b[128..129] == [b[128]];
  }

  lemma SameStateSector(b: Bytes, c: Bytes, s: ActiveState)
    requires |b| == SECTOR && |c| == SECTOR && StateLaidOut(b, s) && StateLaidOut(c, s)
    ensures b[..SECTOR - 4] == c[..SECTOR - 4]
  {
    hide U16, U32, U64, Zeros;
    Adjoin(b, c, 0, 8, 10);
    Adjoin(b, c, 0, 10, 16);
    Adjoin(b, c, 0, 16, 48);
    Adjoin(b, c, 0, 48, 56);
    Adjoin(b, c, 0, 56, 64);
    Adjoin(b, c, 0, 64, 72);
    Adjoin(b, c, 0, 72, 76);
    Adjoin(b, c, 0, 76, 80);
    Adjoin(b, c, 0, 80, 112);
    Adjoin(b, c, 0, 112, 120);
    Adjoin(b, c, 0, 120, 128);
    Adjoin(b, c, 0, 128, 129);
    Adjoin(b, c, 0, 129, 132);
    Adjoin(b, c, 0, 132, 136);
    Adjoin(b, c, 0, 136, 144);
    Adjoin(b, c, 0, 144, SECTOR - 4);
  }

  /** Equal contents carry equal checksums, so the whole sectors are equal. */
  lemma SameChecksum(p: Primitives, b: Bytes, c: Bytes, magic: Bytes)
    requires |b| == SECTOR && |c| == SECTOR
    requires CheckSector(p, b, magic) && CheckSector(p, c, magic)
    requires b[..SECTOR - 4] == c[..SECTOR - 4]
    ensures b == c
  {
    hide U32;
    assert b[SECTOR - 4..SECTOR] == U32(p.crc32(b[..SECTOR - 4])) == c[SECTOR - 4..SECTOR];
    assert b == b[..SECTOR - 4] + b[SECTOR - 4..SECTOR];
    assert c == c[..SECTOR - 4] + c[SECTOR - 4..SECTOR];
  }

  // The header sector

  datatype StoragePolicy = StoragePolicy(rollover: u64, dictionaryBytes: u32, sampleBytes: u64)

  predicate ValidPolicy(v: StoragePolicy) {
    && (v.rollover == 0 || v.rollover >= MIB)
    && (v.dictionaryBytes == 0 || 8192 <= v.dictionaryBytes <= 768 * 1024)
    && MIB <= v.sampleBytes <= 96 * MIB
  }

  datatype ActiveHeader = ActiveHeader(
    attachment: Digest,
    database: Digest,
    pageSize: u32,
    startTxid: u64,
    baseHistory: Digest,
    parent: Digest,
    baseSize: u64,
    policy: StoragePolicy,
    layout: LayoutPolicy,
    sourceBytes: u64,
    sourceDigest: Digest)

  predicate ValidHeader(p: Primitives, h: ActiveHeader) {
    && h.startTxid != 0
    && ValidPolicy(h.policy)
    && ValidLayout(h.layout)
    && (h.pageSize == 0 || ValidPageSize(h.pageSize))
    && (h.pageSize == 0 ==> h.baseSize == 0)
    && (h.pageSize != 0 ==> h.baseSize % h.pageSize == 0)
    && (h.startTxid == 1 <==> h.parent == ZeroDigest())
    && (h.startTxid == 1 ==> h.baseHistory == GenesisHistory(p))
    && (h.sourceBytes == 0 <==> h.sourceDigest == ZeroDigest())
    && (h.sourceBytes != 0 ==> h.pageSize != 0 && h.sourceBytes % h.pageSize == 0 && h.startTxid == 1)
  }

  function HeaderBody(h: ActiveHeader): (b: Bytes)
    ensures |b| == SECTOR
  {
    var b := Zeros(SECTOR);
    var b := Splice(b, 0, ACTIVE_MAGIC);
    var b := Splice(b, 8, U16(FORMAT_VERSION));
    var b := Splice(b, 16, h.database);
    var b := Splice(b, 64, U32(h.pageSize));
    var b := Splice(b, 72, U64(h.startTxid));
    var b := Splice(b, 80, h.baseHistory);
    var b := Splice(b, 112, h.parent);
    var b := Splice(b, 144, U64(h.baseSize));
    var b := Splice(b, 216, U64(h.policy.rollover));
    var b := Splice(b, 224, U32(h.policy.dictionaryBytes));
    var b := Splice(b, 228, U64(h.policy.sampleBytes));
    var b := Splice(b, 256, LayoutImage(h.layout));
    var b := Splice(b, 384, h.attachment);
    var b := Splice(b, 416, U64(h.sourceBytes));
    Splice(b, 424, h.sourceDigest)
  }

  function HeaderImage(p: Primitives, h: ActiveHeader): (b: Bytes)
    ensures |b| == SECTOR
  {
    Sealed(p, HeaderBody(h))
  }

  function HeaderFields(b: Bytes, layout: LayoutPolicy): ActiveHeader
    requires |b| == SECTOR
  {
    ActiveHeader(b[384..416], b[16..48], GetU32(b, 64), GetU64(b, 72), b[80..112], b[112..144], GetU64(b, 144),
                 StoragePolicy(GetU64(b, 216), GetU32(b, 224), GetU64(b, 228)), layout, GetU64(b, 416), b[424..456])
  }

  function DecodeHeader(p: Primitives, b: Bytes): Result<ActiveHeader> {
    if |b| != SECTOR || !CheckSector(p, b, ACTIVE_MAGIC) then Err(Format) else
    var layout :- DecodeLayout(b[256..384]);
    var h := HeaderFields(b, layout);
    if || !ValidHeader(p, h)
       || b[10..16] != Zeros(6)
       || b[48..64] != Zeros(16)
       || b[68..72] != Zeros(4)
       || b[152..208] != Zeros(56)
       || b[236..256] != Zeros(20)
       || b[456..SECTOR - 4] != Zeros(SECTOR - 460)
    then Err(Format) else Ok(h)
  }

  /** The identity of the file and where it starts. */
  predicate HeaderFrontLaidOut(b: Bytes, h: ActiveHeader)
    requires |b| == SECTOR
  {
    && b[0..8] == ACTIVE_MAGIC
    && b[8..10] == U16(FORMAT_VERSION)
    && b[10..16] == Zeros(6)
    && b[16..48] == h.database
    && b[48..64] == Zeros(16)
    && b[64..68] == U32(h.pageSize)
    && b[68..72] == Zeros(4)
    && b[72..80] == U64(h.startTxid)
    && b[80..112] == h.baseHistory
    && b[112..144] == h.parent
    && b[144..152] == U64(h.baseSize)
    && b[152..208] == Zeros(56)
  }

  /** The header sector, field by field. Bytes 208..216 once held two timers: they are written as
      zero and never read. */
  predicate HeaderLaidOut(b: Bytes, h: ActiveHeader)
    requires |b| == SECTOR
  {
    && HeaderFrontLaidOut(b, h)
    && b[216..224] == U64(h.policy.rollover)
    && b[224..228] == U32(h.policy.dictionaryBytes)
    && b[228..236] == U64(h.policy.sampleBytes)
    && b[236..256] == Zeros(20)
    && b[256..384] == LayoutImage(h.layout)
    && b[384..416] == h.attachment
    && b[416..424] == U64(h.sourceBytes)
    && b[424..456] == h.sourceDigest
    && b[456..SECTOR - 4] == Zeros(SECTOR - 460)
  }

  lemma HeaderBodyLaidOut(h: ActiveHeader)
    ensures HeaderLaidOut(HeaderBody(h), h)
    ensures HeaderBody(h)[208..216] == Zeros(8)
  {
    hide Splice, U16, U32, U64, Zeros, LayoutImage, HeaderFrontLaidOut;
    HeaderFrontBody(h);
    ZeroSlices(SECTOR);
  }

  lemma PageSizePositive(ps: nat)
    requires ValidPageSize(ps)
    ensures ps > 0
  {
  }

  lemma HeaderFrontBody(h: ActiveHeader)
    ensures HeaderFrontLaidOut(HeaderBody(h), h)
  {
    hide Splice, U16, U32, U64, Zeros, LayoutImage;
    ZeroSlices(SECTOR);
  }

  lemma HeaderImageLaidOut(p: Primitives, h: ActiveHeader)
    ensures HeaderLaidOut(HeaderImage(p, h), h)
    ensures HeaderImage(p, h)[208..216] == Zeros(8)
    ensures CheckSector(p, HeaderImage(p, h), ACTIVE_MAGIC)
  {
    hide HeaderBody, U16, U32, U64, Zeros, LayoutImage;
    HeaderBodyLaidOut(h);
    var b, c := HeaderBody(h), HeaderImage(p, h);
    assert forall i, j | 0 <= i <= j <= SECTOR - 4 :: c[i..j] == c[..SECTOR - 4][i..j] == b[..SECTOR - 4][i..j] == b[i..j];
    assert c[SECTOR - 4..SECTOR] == c[SECTOR - 4..];
    assert c[..8] == c[0..8];
  }

  lemma HeaderRoundTrip(p: Primitives, h: ActiveHeader)
    requires ValidHeader(p, h)
    ensures DecodeHeader(p, HeaderImage(p, h)) == Ok(h)
  {
    hide HeaderImage, U16, U32, U64, Zeros, LayoutImage, DecodeLayout;
    HeaderImageLaidOut(p, h);
    LayoutRoundTrip(h.layout);
  }

  /** Re-encoding an accepted header gives the same sector with the retired timer bytes zeroed and the
      checksum recomputed. */
  lemma HeaderCanonical(p: Primitives, b: Bytes)
    requires DecodeHeader(p, b).Ok?
    ensures ValidHeader(p, DecodeHeader(p, b).value)
    ensures HeaderImage(p, DecodeHeader(p, b).value) == Sealed(p, Splice(b, 208, Zeros(8)))
  {
    hide HeaderImage, U16, U32, U64, Zeros, LayoutImage, DecodeLayout, Splice;
    var h := DecodeHeader(p, b).value;
    HeaderLaidOutDecoded(p, b);
    HeaderImageLaidOut(p, h);
    var c, d := HeaderImage(p, h), Sealed(p, Splice(b, 208, Zeros(8)));
    assert forall i, j | 0 <= i <= j <= SECTOR - 4 ::
        d[i..j] == d[..SECTOR - 4][i..j] == Splice(b, 208, Zeros(8))[..SECTOR - 4][i..j] == Splice(b, 208, Zeros(8))[i..j];
    SameHeaderSector(c, d, h);
    assert d[SECTOR - 4..SECTOR] == d[SECTOR - 4..];
    assert d[..8] == d[0..8];
    SameChecksum(p, c, d, ACTIVE_MAGIC);
  }

  lemma HeaderLaidOutDecoded(p: Primitives, b: Bytes)
    requires DecodeHeader(p, b).Ok?
    ensures HeaderLaidOut(b, DecodeHeader(p, b).value)
  {
    hide U16, U32, U64, Zeros, LayoutImage, DecodeLayout;
    LayoutCanonical(b[256..384]);
    assert b[0..8] == b[..8];
  }

  lemma SameHeaderSector(b: Bytes, c: Bytes, h: ActiveHeader)
    requires |b| == SECTOR && |c| == SECTOR && HeaderLaidOut(b, h) && HeaderLaidOut(c, h)
    requires b[208..216] == c[208..216]
    ensures b[..SECTOR - 4] == c[..SECTOR - 4]
  {
    hide U16, U32, U64, Zeros, LayoutImage;
    Adjoin(b, c, 0, 8, 10);
    Adjoin(b, c, 0, 10, 16);
    Adjoin(b, c, 0, 16, 48);
    Adjoin(b, c, 0, 48, 64);
    Adjoin(b, c, 0, 64, 68);
    Adjoin(b, c, 0, 68, 72);
    Adjoin(b, c, 0, 72, 80);
    Adjoin(b, c, 0, 80, 112);
    Adjoin(b, c, 0, 112, 144);
    Adjoin(b, c, 0, 144, 152);
    Adjoin(b, c, 0, 152, 208);
    Adjoin(b, c, 0, 208, 216);
    Adjoin(b, c, 0, 216, 224);
    Adjoin(b, c, 0, 224, 228);
    Adjoin(b, c, 0, 228, 236);
    Adjoin(b, c, 0, 236, 256);
    Adjoin(b, c, 0, 256, 384);
    Adjoin(b, c, 0, 384, 416);
    Adjoin(b, c, 0, 416, 424);
    Adjoin(b, c, 0, 424, 456);
    Adjoin(b, c, 0, 456, SECTOR - 4);
  }
}
