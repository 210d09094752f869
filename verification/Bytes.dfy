/** Bytes, little-endian integers and in-place splices, shared by the encoders of this project. */
module Bytes {

  type Byte = x: int | 0 <= x < 256

  /** 256 to the power `n`. */
  function Pow256(n: nat): (p: nat)
    ensures p > 0
  {
    if n == 0 then 1 else 256 * Pow256(n - 1)
  }

  lemma Pow256Values()
    ensures Pow256(1) == 0x100
    ensures Pow256(2) == 0x1_0000
    ensures Pow256(4) == 0x1_0000_0000
    ensures Pow256(8) == 0x1_0000_0000_0000_0000
  {
    assert Pow256(3) == 0x100_0000;
    assert Pow256(5) == 0x100_0000_0000;
    assert Pow256(6) == 0x1_0000_0000_0000;
    assert Pow256(7) == 0x100_0000_0000_0000;
  }

  /** The low `n` bytes of `v`, least significant first; anything above is cut off. */
  function Le(v: nat, n: nat): (s: seq<Byte>)
    ensures |s| == n
  {
    if n == 0 then [] else [v % 256] + Le(v / 256, n - 1)
  }

  function FromLe(s: seq<Byte>): (v: nat) {
    if s == [] then 0 else s[0] + 256 * FromLe(s[1..])
  }

  lemma {:induction false} FromLeBound(s: seq<Byte>)
    ensures FromLe(s) < Pow256(|s|)
  {
    if s != [] {
      FromLeBound(s[1..]);
    }
  }

  /** Writing `v` into `n` bytes and reading it back keeps exactly `v` modulo 256^n. */
  lemma {:induction false} LeRoundTrip(v: nat, n: nat)
    ensures FromLe(Le(v, n)) == v % Pow256(n)
  {
    if n > 0 {
      LeRoundTrip(v / 256, n - 1);
      assert Le(v, n)[1..] == Le(v / 256, n - 1);
      ModStep(v, Pow256(n - 1));
    }
  }

  lemma ModStep(v: nat, p: nat)
    requires p > 0
    ensures v % (256 * p) == v % 256 + 256 * ((v / 256) % p)
  {
    var q, r := v / 256, v % 256;
    var k, m := q / p, q % p;
    assert q == k * p + m;
    assert v == 256 * (k * p + m) + r;
    assert 256 * (k * p) == k * (256 * p);
    assert v == k * (256 * p) + (256 * m + r);
    assert 256 * m + r < 256 * p by {
      assert m + 1 <= p;
    }
    DivModUnique(v, 256 * p, k, 256 * m + r);
  }

  lemma DivModUnique(v: int, d: int, q: int, r: int)
    requires d > 0 && 0 <= r < d && v == q * d + r
    ensures v / d == q && v % d == r
  {
    var q', r' := v / d, v % d;
    assert v == q' * d + r';
    assert (q - q') * d == r' - r;
    if q > q' {
      MulAtLeast(q - q', d);
    } else if q < q' {
      MulAtLeast(q' - q, d);
    }
  }

  lemma MulAtLeast(k: int, d: int)
    requires k >= 1 && d > 0
    ensures k * d >= d
  {}

  lemma LeExact(v: nat, n: nat)
    requires v < Pow256(n)
    ensures FromLe(Le(v, n)) == v
  {
    LeRoundTrip(v, n);
    ModSmall(v, Pow256(n));
  }

  lemma ModSmall(v: nat, p: nat)
    requires v < p
    ensures v % p == v
  {}

  function Zeros(n: nat): (s: seq<Byte>)
    ensures |s| == n
    ensures forall i :: 0 <= i < n ==> s[i] == 0
  {
    seq(n, _ => 0)
  }

  /** Bytes needed to reach the next multiple of four. */
  function Pad4(n: nat): (p: nat)
    ensures p < 4 && (n + p) % 4 == 0
  {
    (4 - n % 4) % 4
  }

  /** `s` with the bytes from `off` on overwritten by `b`. */
  function Splice(s: seq<Byte>, off: nat, b: seq<Byte>): (r: seq<Byte>)
    requires off + |b| <= |s|
    ensures |r| == |s|
  {
    s[..off] + b + s[off + |b|..]
  }

  /** Two adjacent splices are one. */
  lemma SpliceJoin(s: seq<Byte>, off: nat, a: seq<Byte>, b: seq<Byte>)
    requires off + |a| + |b| <= |s|
    ensures Splice(Splice(s, off, a), off + |a|, b) == Splice(s, off, a + b)
  {
    var m := off + |a|;
    var x := Splice(s, off, a);
    assert x[..m] == s[..off] + a;
    assert x[m + |b|..] == s[m + |b|..];
    assert (s[..off] + a) + b + s[m + |b|..] == s[..off] + (a + b) + s[m + |b|..];
  }

  /** Overwriting the start of an earlier splice patches that splice only. */
  lemma SplicePatch(s: seq<Byte>, off: nat, a: seq<Byte>, p: seq<Byte>)
    requires off + |a| <= |s| && |p| <= |a|
    ensures Splice(Splice(s, off, a), off, p) == Splice(s, off, p + a[|p|..])
  {
    var x := Splice(s, off, a);
    assert x[..off] == s[..off];
    assert x[off + |p|..] == a[|p|..] + s[off + |a|..];
    assert s[..off] + p + (a[|p|..] + s[off + |a|..]) == s[..off] + (p + a[|p|..]) + s[off + |a|..];
  }

  lemma SpliceNothing(s: seq<Byte>, off: nat)
    requires off <= |s|
    ensures Splice(s, off, []) == s
  {}

  /** One more byte stored right behind a splice lengthens it. */
  lemma SpliceSnoc(s: seq<Byte>, off: nat, b: seq<Byte>, x: Byte)
    requires off + |b| < |s|
    ensures Splice(s, off, b)[off + |b| := x] == Splice(s, off, b + [x])
  {}
}
