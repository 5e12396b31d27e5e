/** Bytes, little-endian integers and in-place splicing: the vocabulary every wire record is written in. */
module Bytes {

  type byte = x: int | 0 <= x < 256
  type Bytes = seq<byte>

  const U16_LIMIT: nat := 0x1_0000
  const U32_LIMIT: nat := 0x1_0000_0000
  const U64_LIMIT: nat := 0x1_0000_0000_0000_0000

  type u16 = x: nat | x < 0x1_0000
  type u32 = x: nat | x < 0x1_0000_0000
  type u64 = x: nat | x < 0x1_0000_0000_0000_0000

  type Digest = b: Bytes | |b| == 32 witness seq(32, _ => 0)

  function ZeroDigest(): Digest {
    Zeros(32)
  }

  datatype Option<+T> = None | Some(value: T)

  datatype StoreError =
    | Range
    | Corrupt
    | IdentityMismatch
    | Busy
    | ReadOnly
    | InvalidPageSize
    | Format
    | Backend
    | Stale
    | Uncertain
    | Missing

  datatype Result<+T> = Ok(value: T) | Err(error: StoreError) {
    predicate IsFailure() {
      Err?
    }

    function PropagateFailure<U>(): Result<U>
      requires Err?
    {
      Err(error)
    }

    function Extract(): T
      requires Ok?
    {
      value
    }
  }

  /** The checksum, the content hash and the compressor. Nothing is assumed of the first two;
      the compressor is only ever assumed to be lossless. */
  datatype Primitives = Primitives(
    crc32: Bytes -> u32,
    blake3: Bytes -> Digest,
    compress: Bytes -> Bytes,
    decompress: (Bytes, nat) -> Option<Bytes>)

  ghost predicate Lossless(p: Primitives) {
    forall raw: Bytes :: p.decompress(p.compress(raw), |raw|) == Some(raw)
  }

  function Zeros(n: nat): (z: Bytes)
    ensures |z| == n
  {
    seq(n, _ => 0)
  }

  function Min(a: nat, b: nat): nat {
    if a <= b then a else b
  }

  /** `copy_from_slice` into an existing buffer. */
  function Splice(b: Bytes, at: nat, w: Bytes): (r: Bytes)
    requires at + |w| <= |b|
    ensures |r| == |b|
    ensures r[at..at + |w|] == w
    ensures forall i, j | 0 <= i <= j <= at || at + |w| <= i <= j <= |b| :: r[i..j] == b[i..j]
  {
    seq(|b|, i requires 0 <= i < |b| => if at <= i < at + |w| then w[i - at] else b[i])
  }

  /** Agreement on two adjacent slices is agreement on their union. */
  lemma Adjoin(x: Bytes, y: Bytes, a: nat, b: nat, c: nat)
    requires a <= b <= c <= |x| && c <= |y|
    requires x[a..b] == y[a..b] && x[b..c] == y[b..c]
    ensures x[a..c] == y[a..c]
  {
    assert x[a..c] == x[a..b] + x[b..c];
    assert y[a..c] == y[a..b] + y[b..c];
  }

  // Little-endian integers

  function Pow256(w: nat): (n: nat)
    ensures n > 0
  {
    if w == 0 then 1 else 256 * Pow256(w - 1)
  }

  function ToLE(n: nat, w: nat): (b: Bytes)
    ensures |b| == w
  {
    if w == 0 then [] else [n % 256] + ToLE(n / 256, w - 1)
  }

  function FromLE(b: Bytes, i: nat := 0): (n: nat)
    requires i <= |b|
    ensures n < Pow256(|b| - i)
    decreases |b| - i
  {
    if i == |b| then 0 else b[i] + 256 * FromLE(b, i + 1)
  }

  lemma {:induction false} FromLESuffix(b: Bytes, i: nat, j: nat)
    requires i <= j <= |b|
    ensures FromLE(b[i..], j - i) == FromLE(b, j)
    decreases |b| - j
  {
    if j < |b| {
      FromLESuffix(b, i, j + 1);
    }
  }

  lemma {:induction false} FromToLE(n: nat, w: nat)
    requires n < Pow256(w)
    ensures FromLE(ToLE(n, w)) == n
  {
    if w > 0 {
      FromToLE(n / 256, w - 1);
      assert ToLE(n, w)[1..] == ToLE(n / 256, w - 1);
      FromLESuffix(ToLE(n, w), 1, 1);
    }
  }

  lemma {:induction false} ToFromLE(b: Bytes)
    ensures ToLE(FromLE(b), |b|) == b
  {
    if b != [] {
      ToFromLE(b[1..]);
      FromLESuffix(b, 1, 1);
      assert b == [b[0]] + b[1..];
    }
  }

  lemma Widths()
    ensures Pow256(1) == 256
    ensures Pow256(2) == U16_LIMIT
    ensures Pow256(4) == U32_LIMIT
    ensures Pow256(8) == U64_LIMIT
  {
    assert Pow256(3) == 256 * Pow256(2);
    assert Pow256(5) == 256 * Pow256(4);
    assert Pow256(7) == 256 * Pow256(6);
  }

  function U16(n: u16): (b: Bytes)
    ensures |b| == 2 && FromLE(b) == n
  {
    Widths(); FromToLE(n, 2);
    ToLE(n, 2)
  }

  function U32(n: u32): (b: Bytes)
    ensures |b| == 4 && FromLE(b) == n
  {
    Widths(); FromToLE(n, 4);
    ToLE(n, 4)
  }

  function U64(n: u64): (b: Bytes)
    ensures |b| == 8 && FromLE(b) == n
  {
    Widths(); FromToLE(n, 8);
    ToLE(n, 8)
  }

  function GetU16(b: Bytes, at: nat): (n: u16)
    requires at + 2 <= |b|
    ensures U16(n) == b[at..at + 2]
  {
    Widths(); ToFromLE(b[at..at + 2]);
    FromLE(b[at..at + 2])
  }

  function GetU32(b: Bytes, at: nat): (n: u32)
    requires at + 4 <= |b|
    ensures U32(n) == b[at..at + 4]
  {
    Widths(); ToFromLE(b[at..at + 4]);
    FromLE(b[at..at + 4])
  }

  function GetU64(b: Bytes, at: nat): (n: u64)
    requires at + 8 <= |b|
    ensures U64(n) == b[at..at + 8]
  {
    Widths(); ToFromLE(b[at..at + 8]);
    FromLE(b[at..at + 8])
  }
}
