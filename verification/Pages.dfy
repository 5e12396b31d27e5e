/** Byte vectors seen page by page: the reference a page store is compared with. */
module Pages {
  import opened Bytes

  /** Byte offset of page n; pages are numbered from one. */
  function Start(ps: nat, n: nat): nat
    requires n >= 1
  {
    (n - 1) * ps
  }

  /** Page n of a byte vector, zero beyond its end. */
  function PageOf(v: Bytes, ps: nat, n: nat): (page: Bytes)
    requires n >= 1
    ensures |page| == ps
  {
    seq(ps, j requires 0 <= j < ps => if Start(ps, n) + j < |v| then v[Start(ps, n) + j] else 0)
  }

  /** Overwrites part of a byte vector, growing it with zeros when needed. */
  function Patch(v: Bytes, at: nat, d: Bytes): (r: Bytes)
    ensures |r| == if at + |d| > |v| then at + |d| else |v|
  {
    var n := if at + |d| > |v| then at + |d| else |v|;
    seq(n, i requires 0 <= i < n =>
      if at <= i < at + |d| then d[i - at] else if i < |v| then v[i] else 0)
  }

  /** Cuts or zero-extends a byte vector. */
  function Resize(v: Bytes, n: nat): (r: Bytes)
    ensures |r| == n
  {
    if n <= |v| then v[..n] else v + Zeros(n - |v|)
  }

  lemma StartOrder(ps: nat, m: nat, n: nat)
    requires 1 <= m < n
    ensures Start(ps, m) + ps <= Start(ps, n)
  {
    assert (n - 1) * ps == (m - 1) * ps + (n - m) * ps;
    assert (n - m) * ps >= ps by {
      assert (n - m) * ps == ps + (n - m - 1) * ps;
    }
  }

  /** Every offset lies in exactly one page. */
  lemma Locate(ps: nat, at: nat)
    requires ps > 0
    ensures at == Start(ps, at / ps + 1) + at % ps
  {
    assert at == ps * (at / ps) + at % ps;
  }

  lemma SamePage(ps: nat, at: nat, n: nat, j: nat)
    requires ps > 0 && n >= 1 && j < ps && at == Start(ps, n) + j
    ensures at / ps + 1 == n && at % ps == j
  {
    Locate(ps, at);
    var m := at / ps + 1;
    if m < n {
      StartOrder(ps, m, n);
    } else if n < m {
      StartOrder(ps, n, m);
    }
  }

  lemma AlignedSum(ps: nat, a: nat, b: nat)
    requires ps > 0 && a % ps == 0 && b % ps == 0
    ensures (a + b) % ps == 0
  {
    assert a == ps * (a / ps) && b == ps * (b / ps);
    assert a + b == (a / ps + b / ps) * ps;
    SamePage(ps, a + b, a / ps + b / ps + 1, 0);
  }

  /** The vector is determined by its length and its pages. */
  lemma PagesDetermine(v: Bytes, u: Bytes, ps: nat)
    requires ps > 0 && |v| == |u|
    requires forall n | n >= 1 :: PageOf(v, ps, n) == PageOf(u, ps, n)
    ensures v == u
  {
    forall i | 0 <= i < |v|
      ensures v[i] == u[i]
    {
      Locate(ps, i);
      var n, j := i / ps + 1, i % ps;
      assert v[i] == PageOf(v, ps, n)[j];
      assert u[i] == PageOf(u, ps, n)[j];
    }
  }

  lemma PageOfZero(v: Bytes, ps: nat, n: nat)
    requires n >= 1 && |v| <= Start(ps, n)
    ensures PageOf(v, ps, n) == Zeros(ps)
  {
  }

  /** Shrinking to a page boundary keeps the pages below it and clears the rest. */
  lemma PageOfShrunk(v: Bytes, ps: nat, pages: nat, n: nat)
    requires n >= 1 && Start(ps, pages + 1) <= |v|
    ensures PageOf(v[..Start(ps, pages + 1)], ps, n) == if n <= pages then PageOf(v, ps, n) else Zeros(ps)
  {
    if n <= pages {
      StartOrder(ps, n, pages + 1);
    } else if n > pages + 1 {
      StartOrder(ps, pages + 1, n);
    }
  }

  lemma PageOfGrown(v: Bytes, ps: nat, n: nat, extra: nat)
    requires n >= 1
    ensures PageOf(v + Zeros(extra), ps, n) == PageOf(v, ps, n)
  {
  }
}
