/** The Internet checksum of netfast's echo requests. */
module IcmpChecksum {
  import opened Bytes

  const TWO32: nat := 0x1_0000_0000

  /** Longest packet whose 16-bit words cannot overflow a 32-bit sum. */
  const LONGEST: nat := 131074

  /** A big-endian 16-bit word. */
  function Word(hi: Byte, lo: Byte): (w: nat)
    ensures w < 65536
  {
    256 * (hi as int) + lo as int
  }

  /** Sum of the big-endian 16-bit words; a last odd byte is the high half of a word. */
  function WordSum(s: seq<Byte>): (n: nat) {
    if s == [] then 0
    else if |s| == 1 then Word(s[0], 0)
    else Word(s[0], s[1]) + WordSum(s[2..])
  }

  /** One's complement addition: the carry out of bit 15 comes back in at bit 0. */
  function OnesAdd(x: nat, y: nat): (z: nat)
    requires x < 65536 && y < 65536
    ensures z < 65536
  {
    if x + y < 65536 then x + y else x + y - 65535
  }

  /** The one's complement sum of section 1 of RFC 1071, one word at a time. */
  function OnesSum(s: seq<Byte>): (n: nat)
    ensures n < 65536
  {
    if s == [] then 0
    else if |s| == 1 then Word(s[0], 0)
    else OnesAdd(Word(s[0], s[1]), OnesSum(s[2..]))
  }

  /** The 16-bit value congruent to n modulo 65535, zero only for zero. */
  function Residue(n: nat): (r: nat)
    ensures r < 65536 && (r == 0 <==> n == 0)
  {
    if n == 0 then 0 else 1 + (n - 1) % 65535
  }

  lemma ResidueOf(n: nat, k: nat, r: nat)
    requires n == 65535 * k + r && 1 <= r <= 65535
    ensures Residue(n) == r
  {
    DivModUnique(n - 1, 65535, k, r - 1);
  }

  lemma ResidueIs(n: nat) returns (k: nat)
    requires n > 0
    ensures n == 65535 * k + Residue(n)
  {
    k := (n - 1) / 65535;
  }

  lemma AddResidues(x: nat, n: nat)
    requires x < 65536
    ensures OnesAdd(x, Residue(n)) == Residue(x + n)
  {
    if n > 0 {
      var k := ResidueIs(n);
      var z := x + Residue(n);
      if z < 65536 {
        ResidueOf(x + n, k, z);
      } else {
        ResidueOf(x + n, k + 1, z - 65535);
      }
    } else if x > 0 {
      ResidueOf(x, 0, x);
    }
  }

  /** Adding with carries as one goes gives what folding the plain sum once at the end gives. */
  lemma {:induction false} OnesSumIsFoldedSum(s: seq<Byte>)
    ensures OnesSum(s) == Residue(WordSum(s))
  {
    hide OnesAdd, Residue;
    if |s| >= 2 {
      OnesSumIsFoldedSum(s[2..]);
      AddResidues(Word(s[0], s[1]), WordSum(s[2..]));
    } else if |s| == 1 {
      AddResidues(Word(s[0], 0), 0);
      AddZero(Word(s[0], 0));
    }
  }

  lemma AddZero(x: nat)
    requires x < 65536
    ensures OnesAdd(x, Residue(0)) == x && Residue(0) == 0
  {}

  lemma {:induction false} WordSumBound(s: seq<Byte>)
    ensures 2 * WordSum(s) <= 65535 * (|s| + 1)
    ensures |s| % 2 == 0 ==> 2 * WordSum(s) <= 65535 * |s|
  {
    if |s| >= 2 {
      WordSumBound(s[2..]);
    }
  }

  lemma {:induction false} AllOnes(n: nat)
    ensures WordSum(seq(n, _ => 255 as Byte)) == 65535 * (n / 2) + (if n % 2 == 1 then 65280 else 0)
  {
    if n >= 2 {
      AllOnes(n - 2);
      assert seq(n, _ => 255 as Byte)[2..] == seq(n - 2, _ => 255 as Byte);
    }
  }

  /** No packet of length n overflows the 32-bit sum exactly when n is at most 131074. */
  lemma NoOverflowIff(n: nat)
    ensures (forall s: seq<Byte> :: |s| == n ==> WordSum(s) < TWO32) <==> n <= LONGEST
  {
    if n <= LONGEST {
      forall s: seq<Byte> | |s| == n ensures WordSum(s) < TWO32 { WordSumBound(s); }
    } else {
      AllOnes(n);
      assert |seq(n, _ => 255 as Byte)| == n;
    }
  }

  /** The two bytes of a word change places. */
  function Swap(v: nat): (w: nat)
    requires v < 65536
    ensures w < 65536 && w % 256 == v / 256 && w / 256 == v % 256
  {
    (v % 256) * 256 + v / 256
  }

  /** What the code returns, for any length: the plain sum kept to 32 bits, folded, complemented, swapped. */
  function Returned(s: seq<Byte>): (v: nat)
    ensures v < 65536
  {
    Swap(65535 - Residue(WordSum(s) % TWO32))
  }

  lemma WordSumStep(s: seq<Byte>, i: nat)
    requires i < |s|
    ensures i + 1 < |s| ==> WordSum(s[i..]) == Word(s[i], s[i + 1]) + WordSum(s[i + 2..])
    ensures i + 1 == |s| ==> WordSum(s[i..]) == Word(s[i], 0)
  {
    assert i + 1 < |s| ==> s[i..][2..] == s[i + 2..];
  }

  lemma NoWords(s: seq<Byte>)
    ensures WordSum(s[|s|..]) == 0 && s[0..] == s
  {
    assert s[|s|..] == [];
  }

  /** The plain sum, kept to 32 bits. */
  method AddWords(data: array<Byte>, len: nat) returns (sum: nat)
    requires len <= data.Length
    ensures sum == WordSum(data[..len]) % TWO32
  {
    hide WordSum, Word;
    ghost var s := data[..len];
    ghost var total: nat := 0;
    var i: nat := 0;
    sum := 0;
    NoWords(s);
    while i + 1 < len
      invariant 0 <= i <= len
      invariant WordSum(s) == total + WordSum(s[i..])
      invariant sum == total % TWO32
    {
      WordSumStep(s, i);
      Wrap(total, Word(data[i], data[i + 1]));
      total := total + Word(data[i], data[i + 1]);
      sum := (sum + Word(data[i], data[i + 1])) % TWO32;
      i := i + 2;
    }
    if i < len {
      WordSumStep(s, i);
      Wrap(total, Word(data[i], 0));
      sum := (sum + Word(data[i], 0)) % TWO32;
    }
  }

  method Checksum(data: array<Byte>, len: nat) returns (ck: nat)
    requires len <= data.Length
    ensures ck == Returned(data[..len])
    ensures len <= LONGEST ==> ck == Swap(65535 - OnesSum(data[..len]))
  {
    hide Residue, OnesSum, Swap, WordSum;
    ghost var s := data[..len];
    var sum := AddWords(data, len);
    var folded := Fold(sum);
    if len <= LONGEST {
      WordSumBound(s);
      OnesSumIsFoldedSum(s);
      ModSmall(WordSum(s), TWO32);
    }
    ck := Swap(65535 - folded);
  }

  lemma Wrap(total: nat, w: nat)
    ensures (total % TWO32 + w) % TWO32 == (total + w) % TWO32
  {
    var q := (total % TWO32 + w) / TWO32;
    var r := (total % TWO32 + w) % TWO32;
    assert total == (total / TWO32) * TWO32 + total % TWO32;
    assert total + w == (total / TWO32 + q) * TWO32 + r;
    DivModUnique(total + w, TWO32, total / TWO32 + q, r);
  }

  /** The carry loop ends on the residue. */
  method Fold(start: nat) returns (sum: nat)
    ensures sum == Residue(start)
  {
    hide Residue;
    sum := start;
    while sum >= 65536
      invariant Residue(sum) == Residue(start)
      decreases sum
    {
      FoldStep(sum);
      sum := sum % 65536 + sum / 65536;
    }
    if sum > 0 {
      ResidueOf(sum, 0, sum);
    } else {
      AddZero(0);
    }
  }

  lemma FoldStep(n: nat)
    requires n >= 65536
    ensures var m := n % 65536 + n / 65536;
            1 <= m < n && Residue(m) == Residue(n)
  {
    var q := n / 65536;
    var m := n % 65536 + q;
    assert n == 65535 * q + m;
    var k := ResidueIs(m);
    ResidueOf(n, q + k, Residue(m));
  }

  // Storing the checksum

  ghost predicate Verifies(s: seq<Byte>) { OnesSum(s) == 65535 }

  /** The packet with the checksum field set. */
  function WithField(s: seq<Byte>, a: Byte, b: Byte): (t: seq<Byte>)
    requires |s| >= 4
    ensures |t| == |s|
  {
    s[2 := a][3 := b]
  }

  lemma FieldAdds(s: seq<Byte>, a: Byte, b: Byte)
    requires |s| >= 4
    ensures WordSum(WithField(s, a, b)) == WordSum(WithField(s, 0, 0)) + Word(a, b)
  {
    var t, z := WithField(s, a, b), WithField(s, 0, 0);
    assert t[2..][2..] == z[2..][2..];
    assert t[2..][0] == a && t[2..][1] == b && z[2..][0] == 0 && z[2..][1] == 0;
  }

  /** Which stored words make the packet verify: the computed complement, or all ones in place of zero. */
  lemma VerifiesIff(s: seq<Byte>, a: Byte, b: Byte)
    requires |s| >= 4
    ensures var c := 65535 - OnesSum(WithField(s, 0, 0));
            Verifies(WithField(s, a, b)) <==> Word(a, b) == c || (c == 0 && Word(a, b) == 65535)
  {
    hide OnesSum, WordSum, WithField;
    var n := WordSum(WithField(s, 0, 0));
    var w := Word(a, b);
    FieldAdds(s, a, b);
    OnesSumIsFoldedSum(WithField(s, 0, 0));
    OnesSumIsFoldedSum(WithField(s, a, b));
    AddResidues(w, n);
  }

  /** Fills in the checksum of an echo request, as the sender does before every send. */
  method StoreChecksum(pkt: array<Byte>, plen: nat)
    requires 8 <= plen <= pkt.Length && plen <= LONGEST
    modifies pkt
    ensures Verifies(pkt[..plen]) && Returned(pkt[..plen]) == 0
    ensures forall i :: 0 <= i < pkt.Length && i != 2 && i != 3 ==> pkt[i] == old(pkt[i])
  {
    hide OnesSum, WordSum, Residue;
    ghost var s := pkt[..plen];
    pkt[2] := 0;
    pkt[3] := 0;
    assert pkt[..plen] == WithField(s, 0, 0);
    var ck := Checksum(pkt, plen);
    pkt[2] := ck % 256;
    pkt[3] := ck / 256;
    assert pkt[..plen] == WithField(s, ck % 256, ck / 256);
    VerifiesIff(s, ck % 256, ck / 256);
    VerifiedReturnsZero(pkt[..plen]);
  }

  lemma VerifiedReturnsZero(s: seq<Byte>)
    requires |s| <= LONGEST
    ensures Verifies(s) <==> Returned(s) == 0
  {
    hide OnesSum, WordSum, Residue;
    OnesSumIsFoldedSum(s);
    WordSumBound(s);
    ModSmall(WordSum(s), TWO32);
  }
}
