/** The in-place encoders: a zeroed array filled by `put_*` calls at fixed offsets, then checksummed
    (src/format.rs, src/layout.rs). */
module Encoders {
  import opened Bytes
  import opened Layout
  import opened Format

  method Put(a: array<byte>, at: nat, w: Bytes)
    requires at + |w| <= a.Length
    modifies a
    ensures a[..] == Splice(old(a[..]), at, w)
  {
    ghost var was := a[..];
    var i := 0;
    while i < |w|
      invariant 0 <= i <= |w|
      invariant forall k | 0 <= k < a.Length :: a[k] == if at <= k < at + i then w[k - at] else was[k]
    {
      a[at + i] := w[i];
      i := i + 1;
    }
  }

  method Zeroed(n: nat) returns (a: array<byte>)
    ensures fresh(a) && a[..] == Zeros(n)
  {
    a := new byte[n](_ => 0);
  }

  method PutSectorChecksum(p: Primitives, a: array<byte>)
    requires a.Length == SECTOR
    modifies a
    ensures a[..] == Sealed(p, old(a[..]))
  {
    ghost var was := a[..];
    Put(a, SECTOR - 4, U32(p.crc32(a[..SECTOR - 4])));
    assert a[..SECTOR - 4] == a[..][0..SECTOR - 4] == was[0..SECTOR - 4];
    assert a[..] == a[..SECTOR - 4] + a[..][SECTOR - 4..SECTOR];
  }

  method EncodeLayout(l: LayoutPolicy) returns (a: array<byte>)
    ensures fresh(a) && a[..] == LayoutImage(l)
  {
    hide Splice, U64, Zeros;
    a := Zeroed(LAYOUT_SIZE);
    Put(a, 0, U64(if l.frames.Fixed? then l.frames.frame else 0));
    Put(a, 8, U64(l.level));
    Put(a, 16, U64(if l.cache.FixedCache? then l.cache.capacity else 0));
    Put(a, 24, U64(l.maintenanceInput));
    Put(a, 32, U64(l.deletionBudget));
    Put(a, 40, U64(l.packTarget));
    Put(a, 48, U64(if l.cache.FixedCache? then 1 else 0));
  }

  method EncodeState(p: Primitives, s: ActiveState) returns (a: array<byte>)
    ensures fresh(a) && a[..] == StateImage(p, s)
  {
    hide Splice, U16, U32, U64, Zeros;
    a := Zeroed(SECTOR);
    Put(a, 0, STATE_MAGIC);
    Put(a, 8, U16(FORMAT_VERSION));
    Put(a, 16, s.database);
    Put(a, 48, U64(s.sequence));
    Put(a, 56, U64(s.txid));
    Put(a, 64, U64(s.logicalSize));
    Put(a, 72, U32(s.pageSize));
    Put(a, 80, s.history);
    Put(a, 112, U64(s.commitUnix));
    Put(a, 120, U64(s.recordCount));
    if s.truncatePages.Some? {
      Put(a, 128, [1]);
      Put(a, 132, U32(s.truncatePages.value));
    }
    Put(a, 136, U64(s.firstCommitUnix));
    PutSectorChecksum(p, a);
  }

  method EncodeHeader(p: Primitives, h: ActiveHeader) returns (a: array<byte>)
    ensures fresh(a) && a[..] == HeaderImage(p, h)
  {
    hide Splice, U16, U32, U64, Zeros, LayoutImage;
    a := Zeroed(SECTOR);
    Put(a, 0, ACTIVE_MAGIC);
    Put(a, 8, U16(FORMAT_VERSION));
    Put(a, 16, h.database);
    Put(a, 64, U32(h.pageSize));
    Put(a, 72, U64(h.startTxid));
    Put(a, 80, h.baseHistory);
    Put(a, 112, h.parent);
    Put(a, 144, U64(h.baseSize));
    Put(a, 216, U64(h.policy.rollover));
    Put(a, 224, U32(h.policy.dictionaryBytes));
    Put(a, 228, U64(h.policy.sampleBytes));
    var layout := EncodeLayout(h.layout);
    Put(a, 256, layout[..]);
    Put(a, 384, h.attachment);
    Put(a, 416, U64(h.sourceBytes));
    Put(a, 424, h.sourceDigest);
    PutSectorChecksum(p, a);
  }
}
