/** The hashes of the names the image exports and of their version. */
module HashValues {
  import opened Bytes
  import opened SysvHash

  const PREFIX: Name := [95, 95, 118, 100, 115, 111, 95]
  const CLOCK_GETTIME: Name := PREFIX + [99, 108, 111, 99, 107, 95, 103, 101, 116, 116, 105, 109, 101]
  const GETTIMEOFDAY: Name := PREFIX + [103, 101, 116, 116, 105, 109, 101, 111, 102, 100, 97, 121]
  const CLOCK_GETRES: Name := PREFIX + [99, 108, 111, 99, 107, 95, 103, 101, 116, 114, 101, 115]
  const RT_SIGRETURN: Name := PREFIX + [114, 116, 95, 115, 105, 103, 114, 101, 116, 117, 114, 110]
  const VERSION: Name := [76, 73, 78, 85, 88, 95, 52, 46, 49, 53]

  /** One round in digits: sum of shifted hash and character is top nibble, 20 bits, and two nibbles. */
  lemma Round(h: nat, c: Byte, top: nat, high: nat, n: nat, d: nat)
    requires top < 16 && high < 0x10_0000 && n < 16 && d < 16
    requires h * 16 + c == top * TWO28 + high * 256 + n * 16 + d
    ensures HashStep(h, c) == high * 256 + Xor4(n, top) * 16 + d
  {
    hide Xor4, FoldTop;
    var low := high * 256 + n * 16 + d;
    InRange(h, c, top, low);
    DigitsFold(top, high, n, d);
  }

  lemma InRange(h: nat, c: Byte, top: nat, low: nat)
    requires top < 16 && low < TWO28 && h * 16 + c == top * TWO28 + low
    ensures var sum := (h * 16 % TWO32 + c) % TWO32; sum % TWO28 == low && sum / TWO28 == top
  {
    assert h * 16 < TWO32;
  }

  lemma DigitsFold(top: nat, high: nat, n: nat, d: nat)
    requires top < 16 && high < 0x10_0000 && n < 16 && d < 16
    ensures FoldTop(high * 256 + n * 16 + d, top) == high * 256 + Xor4(n, top) * 16 + d
  {
    hide Xor4;
    var low := high * 256 + n * 16 + d;
    assert low / 256 == high && low / 16 == high * 16 + n && low % 16 == d;
    if top == 0 {
      XorNone(n);
    }
  }

  lemma XorNone(n: nat)
    requires n < 16
    ensures Xor4(n, 0) == n
  {}

  lemma Take(h: nat, name: Name, i: nat, top: nat, high: nat, n: nat, d: nat)
    requires i < |name| && top < 16 && high < 0x10_0000 && n < 16 && d < 16
    requires h * 16 + name[i] == top * TWO28 + high * 256 + n * 16 + d
    ensures HashFrom(h, name[i..]) == HashFrom(high * 256 + Xor4(n, top) * 16 + d, name[i + 1..])
  {
    hide HashStep, Xor4;
    Round(h, name[i], top, high, n, d);
    assert name[i..][1..] == name[i + 1..];
  }

  lemma PrefixHash(n: Name)
    requires |n| >= 7 && n[..7] == PREFIX
    ensures Hash(n) == HashFrom(0x56cba2f, n[7..])
  {
    hide HashFrom;
    assert forall i :: 0 <= i < 7 ==> n[i] == PREFIX[i];
    assert n[0..] == n;
    Take(0x0, n, 0, 0, 0x0, 5, 15);
    Take(0x5f, n, 1, 0, 0x6, 4, 15);
    Take(0x64f, n, 2, 0, 0x65, 6, 6);
    Take(0x6566, n, 3, 0, 0x656, 12, 4);
    Take(0x656c4, n, 4, 0, 0x656c, 11, 3);
    Take(0x656cb3, n, 5, 0, 0x656cb, 9, 15);
    Take(0x656cb9f, n, 6, 6, 0x56cba, 4, 15);
  }

  lemma ClockGettimeHash()
    ensures Hash(CLOCK_GETTIME) == 0xd35ec75
  {
    hide HashFrom;
    var n := CLOCK_GETTIME;
    assert n[..7] == PREFIX;
    PrefixHash(n);
    Take(0x56cba2f, n, 7, 5, 0x6cba3, 5, 3);
    Take(0x6cba303, n, 8, 6, 0xcba30, 9, 12);
    Take(0xcba30fc, n, 9, 12, 0xba310, 2, 15);
    Take(0xba310ef, n, 10, 11, 0xa310f, 5, 3);
    Take(0xa310fe3, n, 11, 10, 0x310fe, 9, 11);
    Take(0x310fe3b, n, 12, 3, 0x10fe4, 0, 15);
    Take(0x10fe43f, n, 13, 1, 0xfe44, 5, 7);
    Take(0xfe4447, n, 14, 0, 0xfe444, 13, 5);
    Take(0xfe444d5, n, 15, 15, 0xe444d, 12, 4);
    Take(0xe444d34, n, 16, 14, 0x444d3, 11, 4);
    Take(0x444d354, n, 17, 4, 0x44d35, 10, 9);
    Take(0x44d35e9, n, 18, 4, 0x4d35e, 15, 13);
    Take(0x4d35ebd, n, 19, 4, 0xd35ec, 3, 5);
    Nothing(0xd35ec75, n);
  }

  lemma GettimeofdayHash()
    ensures Hash(GETTIMEOFDAY) == 0x315ca59
  {
    hide HashFrom;
    var n := GETTIMEOFDAY;
    assert n[..7] == PREFIX;
    PrefixHash(n);
    Take(0x56cba2f, n, 7, 5, 0x6cba3, 5, 7);
    Take(0x6cba307, n, 8, 6, 0xcba30, 13, 5);
    Take(0xcba30b5, n, 9, 12, 0xba30b, 12, 4);
    Take(0xba30b04, n, 10, 11, 0xa30b0, 11, 4);
    Take(0xa30b004, n, 11, 10, 0x30b00, 10, 9);
    Take(0x30b0009, n, 12, 3, 0xb000, 15, 13);
    Take(0xb000cd, n, 13, 0, 0xb000d, 3, 5);
    Take(0xb000d35, n, 14, 11, 0xd3, 11, 15);
    Take(0xd30f, n, 15, 0, 0xd31, 5, 6);
    Take(0xd3156, n, 16, 0, 0xd315, 12, 4);
    Take(0xd315c4, n, 17, 0, 0xd315c, 10, 1);
    Take(0xd315ca1, n, 18, 13, 0x315ca, 8, 9);
    Nothing(0x315ca59, n);
  }

  lemma ClockGetresHash()
    ensures Hash(CLOCK_GETRES) == 0x4d35c83
  {
    hide HashFrom;
    var n := CLOCK_GETRES;
    assert n[..7] == PREFIX;
    PrefixHash(n);
    Take(0x56cba2f, n, 7, 5, 0x6cba3, 5, 3);
    Take(0x6cba303, n, 8, 6, 0xcba30, 9, 12);
    Take(0xcba30fc, n, 9, 12, 0xba310, 2, 15);
    Take(0xba310ef, n, 10, 11, 0xa310f, 5, 3);
    Take(0xa310fe3, n, 11, 10, 0x310fe, 9, 11);
    Take(0x310fe3b, n, 12, 3, 0x10fe4, 0, 15);
    Take(0x10fe43f, n, 13, 1, 0xfe44, 5, 7);
    Take(0xfe4447, n, 14, 0, 0xfe444, 13, 5);
    Take(0xfe444d5, n, 15, 15, 0xe444d, 12, 4);
    Take(0xe444d34, n, 16, 14, 0x444d3, 11, 2);
    Take(0x444d352, n, 17, 4, 0x44d35, 8, 5);
    Take(0x44d35c5, n, 18, 4, 0x4d35c, 12, 3);
    Nothing(0x4d35c83, n);
  }

  lemma RtSigreturnHash()
    ensures Hash(RT_SIGRETURN) == 0xd7a6f4e
  {
    hide HashFrom;
    var n := RT_SIGRETURN;
    assert n[..7] == PREFIX;
    PrefixHash(n);
    Take(0x56cba2f, n, 7, 5, 0x6cba3, 6, 2);
    Take(0x6cba332, n, 8, 6, 0xcba33, 9, 4);
    Take(0xcba33f4, n, 9, 12, 0xba33f, 9, 15);
    Take(0xba33f5f, n, 10, 11, 0xa33f6, 6, 3);
    Take(0xa33f6d3, n, 11, 10, 0x33f6d, 9, 9);
    Take(0x33f6d39, n, 12, 3, 0x3f6d3, 15, 7);
    Take(0x3f6d3c7, n, 13, 3, 0xf6d3c, 14, 2);
    Take(0xf6d3cd2, n, 14, 15, 0x6d3cd, 8, 5);
    Take(0x6d3cd75, n, 15, 6, 0xd3cd7, 12, 4);
    Take(0xd3cd7a4, n, 16, 13, 0x3cd7a, 11, 5);
    Take(0x3cd7a65, n, 17, 3, 0xcd7a6, 12, 2);
    Take(0xcd7a6f2, n, 18, 12, 0xd7a6f, 8, 14);
    Nothing(0xd7a6f4e, n);
  }

  lemma VersionHash()
    ensures Hash(VERSION) == 0xae77f75
  {
    hide HashFrom;
    var n := VERSION;
    assert n[0..] == n;
    Take(0x0, n, 0, 0, 0x0, 4, 12);
    Take(0x4c, n, 1, 0, 0x5, 0, 9);
    Take(0x509, n, 2, 0, 0x50, 13, 14);
    Take(0x50de, n, 3, 0, 0x50e, 3, 5);
    Take(0x50e35, n, 4, 0, 0x50e3, 10, 8);
    Take(0x50e3a8, n, 5, 0, 0x50e3a, 13, 15);
    Take(0x50e3adf, n, 6, 5, 0xe3ae, 2, 4);
    Take(0xe3ae74, n, 7, 0, 0xe3ae7, 6, 14);
    Take(0xe3ae76e, n, 8, 14, 0x3ae77, 1, 1);
    Take(0x3ae77f1, n, 9, 3, 0xae77f, 4, 5);
    Nothing(0xae77f75, n);
  }

  lemma Nothing(h: nat, name: Name)
    ensures HashFrom(h, name[|name|..]) == h
  {}
}
