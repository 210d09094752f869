/** Bitwise operations on natural numbers, bit by bit. */
module Bits {
  function Pow2(k: nat): (p: nat)
    ensures p >= 1
  {
    if k == 0 then 1 else 2 * Pow2(k - 1)
  }

  predicate Bit(a: nat, i: nat) {
    if i == 0 then a % 2 == 1 else Bit(a / 2, i - 1)
  }

  function And(a: nat, b: nat): (r: nat)
    ensures r <= a && r <= b
  {
    if a == 0 then 0 else (if a % 2 == 1 && b % 2 == 1 then 1 else 0) + 2 * And(a / 2, b / 2)
  }

  function Xor(a: nat, b: nat): (r: nat)
    decreases a + b
  {
    if a == 0 && b == 0 then 0 else (if a % 2 != b % 2 then 1 else 0) + 2 * Xor(a / 2, b / 2)
  }

  lemma {:induction false} ZeroBit(i: nat)
    ensures !Bit(0, i)
  {
    if i > 0 {
      ZeroBit(i - 1);
    }
  }

  /** What the operations do to each bit. */
  lemma {:induction false} AndBit(a: nat, b: nat, i: nat)
    ensures Bit(And(a, b), i) <==> Bit(a, i) && Bit(b, i)
    decreases i
  {
    if a == 0 {
      ZeroBit(i);
    } else if i > 0 {
      AndBit(a / 2, b / 2, i - 1);
    }
  }

  lemma {:induction false} XorBit(a: nat, b: nat, i: nat)
    ensures Bit(Xor(a, b), i) <==> (Bit(a, i) <==> !Bit(b, i))
    decreases i
  {
    if a == 0 && b == 0 {
      ZeroBit(i);
    } else if i > 0 {
      XorBit(a / 2, b / 2, i - 1);
    }
  }

  lemma AndHalf(a: nat, b: nat)
    ensures And(a, b) == (if a % 2 == 1 && b % 2 == 1 then 1 else 0) + 2 * And(a / 2, b / 2)
  {}

  lemma XorHalf(a: nat, b: nat)
    ensures Xor(a, b) == (if a % 2 != b % 2 then 1 else 0) + 2 * Xor(a / 2, b / 2)
  {}

  lemma Halved(hi: nat, lo: nat, k: nat)
    requires k > 0 && lo < Pow2(k)
    ensures (hi * Pow2(k) + lo) / 2 == hi * Pow2(k - 1) + lo / 2 && (hi * Pow2(k) + lo) % 2 == lo % 2
    ensures lo / 2 < Pow2(k - 1)
  {
    Doubled(hi, k);
  }

  lemma Doubled(x: nat, k: nat)
    requires k > 0
    ensures x * Pow2(k) == 2 * (x * Pow2(k - 1))
  {}

  lemma NoPlaces(hi: nat, lo: nat)
    requires lo < Pow2(0)
    ensures lo == 0 && hi * Pow2(0) == hi
  {}

  /** High and low parts do not meet. */
  lemma {:induction false} AndParts(hi: nat, lo: nat, hi': nat, lo': nat, k: nat)
    requires lo < Pow2(k) && lo' < Pow2(k)
    ensures And(hi * Pow2(k) + lo, hi' * Pow2(k) + lo') == And(hi, hi') * Pow2(k) + And(lo, lo')
    decreases k
  {
    hide And, Pow2;
    if k == 0 {
      NoPlaces(hi, lo);
      NoPlaces(hi', lo');
      NoPlaces(And(hi, hi'), lo);
      AndZero(0);
    } else {
      Halved(hi, lo, k);
      Halved(hi', lo', k);
      AndParts(hi, lo / 2, hi', lo' / 2, k - 1);
      AndHalf(lo, lo');
      AndHalf(hi * Pow2(k) + lo, hi' * Pow2(k) + lo');
      Doubled(And(hi, hi'), k);
    }
  }

  lemma {:induction false} XorParts(hi: nat, lo: nat, hi': nat, lo': nat, k: nat)
    requires lo < Pow2(k) && lo' < Pow2(k)
    ensures Xor(hi * Pow2(k) + lo, hi' * Pow2(k) + lo') == Xor(hi, hi') * Pow2(k) + Xor(lo, lo')
    decreases k
  {
    hide Xor, Pow2;
    if k == 0 {
      NoPlaces(hi, lo);
      NoPlaces(hi', lo');
      NoPlaces(Xor(hi, hi'), lo);
      XorZero(0);
    } else {
      Halved(hi, lo, k);
      Halved(hi', lo', k);
      XorParts(hi, lo / 2, hi', lo' / 2, k - 1);
      XorHalf(lo, lo');
      XorHalf(hi * Pow2(k) + lo, hi' * Pow2(k) + lo');
      Doubled(Xor(hi, hi'), k);
    }
  }

  lemma {:induction false} AndZero(a: nat)
    ensures And(a, 0) == 0 && And(0, a) == 0
  {
    if a > 0 {
      AndZero(a / 2);
    }
  }

  lemma {:induction false} XorZero(a: nat)
    ensures Xor(a, 0) == a && Xor(0, a) == a
  {
    if a > 0 {
      XorZero(a / 2);
    }
  }

  /** All ones keep everything below them. */
  lemma {:induction false} AndOnes(a: nat, k: nat)
    requires a < Pow2(k)
    ensures And(a, Pow2(k) - 1) == a
    decreases k
  {
    if k > 0 && a > 0 {
      AndOnes(a / 2, k - 1);
      assert (Pow2(k) - 1) / 2 == Pow2(k - 1) - 1;
    }
  }

  /** Ones everywhere but in `a`: what `a` has is gone. */
  lemma {:induction false} AndRest(a: nat, k: nat)
    requires a < Pow2(k)
    ensures And(a, Pow2(k) - 1 - a) == 0
    decreases k
  {
    if k > 0 && a > 0 {
      AndRest(a / 2, k - 1);
      var rest := Pow2(k) - 1 - a;
      assert rest / 2 == Pow2(k - 1) - 1 - a / 2 && rest % 2 != a % 2;
    }
  }

  lemma {:induction false} XorBelow(a: nat, b: nat, k: nat)
    requires a < Pow2(k) && b < Pow2(k)
    ensures Xor(a, b) < Pow2(k)
    decreases k
  {
    if k > 0 && (a > 0 || b > 0) {
      XorBelow(a / 2, b / 2, k - 1);
    }
  }
}
