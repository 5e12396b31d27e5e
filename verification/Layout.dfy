/** The frame, pack, cache and maintenance policy stored inside the active header (src/layout.rs). */
module Layout {
  import opened Bytes

  const LAYOUT_SIZE: nat := 128
  const MAX_FRAME: nat := 8 * 1024 * 1024
  const MAX_MAINTENANCE: nat := 64 * 1024 * 1024
  const I32_MAX: nat := 0x7fff_ffff

  datatype FrameLayout = PageFrames | Fixed(frame: u64)
  datatype CacheCapacity = Automatic | FixedCache(capacity: u64)

  datatype LayoutPolicy = LayoutPolicy(
    frames: FrameLayout,
    packTarget: u64,
    level: u32,
    cache: CacheCapacity,
    maintenanceInput: u64,
    deletionBudget: u64)

  const DEFAULT_LAYOUT: LayoutPolicy :=
    LayoutPolicy(PageFrames, 4 * 1024 * 1024, 3, Automatic, 64 * 1024 * 1024, 8)

  predicate PowerOfTwoUpTo(n: nat, top: nat)
    decreases top
  {
    top > 0 && (n == top || (top % 2 == 0 && PowerOfTwoUpTo(n, top / 2)))
  }

  predicate ValidFrame(n: nat) {
    512 <= n <= MAX_FRAME && PowerOfTwoUpTo(n, MAX_FRAME)
  }

  /** What the validated builders together admit. */
  predicate ValidLayout(l: LayoutPolicy) {
    && 1 <= l.level <= 22
    && l.packTarget != 0
    && l.maintenanceInput <= MAX_MAINTENANCE
    && (l.frames.Fixed? ==> ValidFrame(l.frames.frame))
  }

  function WithLevel(l: LayoutPolicy, level: nat): Result<LayoutPolicy> {
    if level > I32_MAX || !(1 <= level <= 22) then Err(Format) else Ok(l.(level := level))
  }

  function WithMaintenance(l: LayoutPolicy, input: u64, deletions: u64): Result<LayoutPolicy> {
    if input > MAX_MAINTENANCE then Err(Format)
    else Ok(l.(maintenanceInput := input, deletionBudget := deletions))
  }

  function WithPackTarget(l: LayoutPolicy, target: u64): Result<LayoutPolicy> {
    if target == 0 then Err(Format) else Ok(l.(packTarget := target))
  }

  function WithFrame(l: LayoutPolicy, frame: u64): Result<LayoutPolicy> {
    if !ValidFrame(frame) then Err(Format) else Ok(l.(frames := Fixed(frame)))
  }

  function LayoutImage(l: LayoutPolicy): (b: Bytes)
    ensures |b| == LAYOUT_SIZE
  {
    var b := Zeros(LAYOUT_SIZE);
    var b := Splice(b, 0, U64(if l.frames.Fixed? then l.frames.frame else 0));
    var b := Splice(b, 8, U64(l.level));
    var b := Splice(b, 16, U64(if l.cache.FixedCache? then l.cache.capacity else 0));
    var b := Splice(b, 24, U64(l.maintenanceInput));
    var b := Splice(b, 32, U64(l.deletionBudget));
    var b := Splice(b, 40, U64(l.packTarget));
    Splice(b, 48, U64(if l.cache.FixedCache? then 1 else 0))
  }

  function DecodeLayout(b: Bytes): Result<LayoutPolicy>
    requires |b| == LAYOUT_SIZE
  {
    if b[56..128] != Zeros(72) then Err(Format) else
    var l :- WithLevel(DEFAULT_LAYOUT, GetU64(b, 8));
    var l :- WithMaintenance(l, GetU64(b, 24), GetU64(b, 32));
    var l :- WithPackTarget(l, GetU64(b, 40));
    var mode := GetU64(b, 48);
    if mode > 1 || (mode == 0 && GetU64(b, 16) != 0) then Err(Format) else
    var l := l.(cache := if mode == 0 then Automatic else FixedCache(GetU64(b, 16)));
    if GetU64(b, 0) != 0 then WithFrame(l, GetU64(b, 0)) else Ok(l)
  }

  /** Where the encoder puts each field, and that it leaves the rest zero. */
  lemma LayoutAt(l: LayoutPolicy)
    ensures var b := LayoutImage(l);
      && b[0..8] == U64(if l.frames.Fixed? then l.frames.frame else 0)
      && b[8..16] == U64(l.level)
      && b[16..24] == U64(if l.cache.FixedCache? then l.cache.capacity else 0)
      && b[24..32] == U64(l.maintenanceInput)
      && b[32..40] == U64(l.deletionBudget)
      && b[40..48] == U64(l.packTarget)
      && b[48..56] == U64(if l.cache.FixedCache? then 1 else 0)
      && b[56..128] == Zeros(72)
  {
    hide Splice, U64;
    assert Zeros(LAYOUT_SIZE)[56..128] == Zeros(72);
  }

  lemma LayoutRoundTrip(l: LayoutPolicy)
    requires ValidLayout(l)
    ensures DecodeLayout(LayoutImage(l)) == Ok(l)
  {
    hide LayoutImage, U64;
    LayoutAt(l);
  }

  /** Every accepted policy is valid and is the only policy with those bytes. */
  lemma LayoutCanonical(b: Bytes)
    requires |b| == LAYOUT_SIZE && DecodeLayout(b).Ok?
    ensures ValidLayout(DecodeLayout(b).value)
    ensures LayoutImage(DecodeLayout(b).value) == b
  {
    hide LayoutImage, U64;
    var c := LayoutImage(DecodeLayout(b).value);
    LayoutAt(DecodeLayout(b).value);
    Adjoin(b, c, 0, 8, 16);
    Adjoin(b, c, 0, 16, 24);
    Adjoin(b, c, 0, 24, 32);
    Adjoin(b, c, 0, 32, 40);
    Adjoin(b, c, 0, 40, 48);
    Adjoin(b, c, 0, 48, 56);
    Adjoin(b, c, 0, 56, 128);
    assert b == b[0..128] == c[0..128] == c;
  }
}
