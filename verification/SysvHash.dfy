/** The System V hash table the vDSO image carries: the 32-bit name hash, bucket heads, and chains
    threaded through symbol indices (System V gABI, chapter 5, Hash Table). */
module SysvHash {
  import opened Bytes
  import Bits

  type Name = seq<Byte>

  const TWO28: nat := 0x1000_0000
  const TWO32: nat := 0x1_0000_0000

  function Xor4(a: nat, b: nat): (r: nat)
    requires a < 16 && b < 16
    ensures r < 16
  {
    ((a as bv4) ^ (b as bv4)) as nat
  }

  /** The top nibble folded into bits 4 to 7 of the rest. */
  function FoldTop(low: nat, top: nat): (r: nat)
    requires low < TWO28 && top < 16
    ensures r < TWO28
  {
    if top == 0 then low else low / 256 * 256 + Xor4(low / 16 % 16, top) * 16 + low % 16
  }

  /** One round: shift left by four and add with 32-bit wrap-around, fold the top nibble into bits
      4 to 7, clear it. */
  function HashStep(h: nat, c: Byte): (r: nat)
    ensures r < TWO28
  {
    var sum := (h * 16 % TWO32 + c) % TWO32;
    FoldTop(sum % TWO28, sum / TWO28)
  }

  function HashFrom(h: nat, name: Name): nat
    decreases |name|
  {
    if name == [] then h else HashFrom(HashStep(h, name[0]), name[1..])
  }

  function Hash(name: Name): nat { HashFrom(0, name) }

  // The hash of the gABI, on the bits of 32-bit words

  const TOP_NIBBLE: nat := 0xf000_0000

  /** Shift left by four and add; the top nibble `g` is folded in by exclusive or, then cleared. */
  function GabiStep(h: nat, c: Byte): (r: nat) {
    var s := (h * 16 + c) % TWO32;
    var g := Bits.And(s, TOP_NIBBLE);
    var x := if g != 0 then Bits.Xor(s, g / 0x100_0000) else s;
    Bits.And(x, TWO32 - 1 - g)
  }

  function Gabi(name: Name): (h: nat) {
    if name == [] then 0 else GabiStep(Gabi(name[..|name| - 1]), name[|name| - 1])
  }

  lemma Powers()
    ensures Bits.Pow2(4) == 16 && Bits.Pow2(8) == 256 && Bits.Pow2(28) == TWO28 && Bits.Pow2(32) == TWO32
  {
    assert Bits.Pow2(12) == 16 * Bits.Pow2(8);
    assert Bits.Pow2(16) == 16 * Bits.Pow2(12);
    assert Bits.Pow2(20) == 16 * Bits.Pow2(16);
    assert Bits.Pow2(24) == 16 * Bits.Pow2(20);
    assert Bits.Pow2(28) == 16 * Bits.Pow2(24);
    assert Bits.Pow2(32) == 16 * Bits.Pow2(28);
  }

  lemma XorNibbles(a: nat, b: nat)
    requires a < 16 && b < 16
    ensures Bits.Xor(a, b) == Xor4(a, b)
  {
  }

  /** Masking a word with the top nibble. */
  lemma TopMasked(low: nat, top: nat)
    requires low < TWO28 && top < 16
    ensures Bits.And(top * TWO28 + low, TOP_NIBBLE) == top * TWO28
  {
    hide Bits.And, Bits.Pow2;
    Powers();
    Bits.AndParts(top, low, 15, 0, 28);
    Bits.AndOnes(top, 4);
    Bits.AndZero(low);
  }

  /** Folding it into bits 4 to 7. */
  lemma DigitsFolded(top: nat, high: nat, n: nat, d: nat)
    requires top < 16 && high < 0x10_0000 && n < 16 && d < 16
    ensures Bits.Xor(top * TWO28 + (high * 256 + n * 16 + d), top * 16) == top * TWO28 + (high * 256 + Bits.Xor(n, top) * 16 + d)
    ensures Bits.Xor(n, top) < 16
  {
    hide Bits.Xor, Bits.Pow2;
    Powers();
    var upper := top * 0x10_0000 + high;
    Bits.XorParts(upper, n * 16 + d, 0, top * 16, 8);
    Bits.XorZero(upper);
    Bits.XorParts(n, d, top, 0, 4);
    Bits.XorZero(d);
    Bits.XorBelow(n, top, 4);
  }

  lemma Digits(low: nat)
    requires low < TWO28
    ensures low == low / 256 * 256 + low / 16 % 16 * 16 + low % 16 && low / 256 < 0x10_0000
  {}

  lemma TopFolded(low: nat, top: nat)
    requires low < TWO28 && top < 16
    ensures Bits.Xor(top * TWO28 + low, top * 16)
         == top * TWO28 + (low / 256 * 256 + Bits.Xor(low / 16 % 16, top) * 16 + low % 16)
    ensures low / 256 * 256 + Bits.Xor(low / 16 % 16, top) * 16 + low % 16 < TWO28
  {
    hide Bits.Xor;
    Digits(low);
    DigitsFolded(top, low / 256, low / 16 % 16, low % 16);
  }

  /** And clearing it. */
  lemma TopCleared(low: nat, top: nat)
    requires low < TWO28 && top < 16
    ensures Bits.And(top * TWO28 + low, TWO32 - 1 - top * TWO28) == low
  {
    hide Bits.And, Bits.Pow2;
    Powers();
    assert TWO32 - 1 - top * TWO28 == (15 - top) * TWO28 + (TWO28 - 1);
    Bits.AndParts(top, low, 15 - top, TWO28 - 1, 28);
    Bits.AndRest(top, 4);
    Bits.AndOnes(low, 28);
  }

  /** Mask, fold and clear on a word of top nibble and low part. */
  lemma WordIsGabi(low: nat, top: nat)
    requires low < TWO28 && top < 16
    ensures var s, g := top * TWO28 + low, top * TWO28;
            && Bits.And(s, TOP_NIBBLE) == g
            && Bits.And(if g != 0 then Bits.Xor(s, top * 16) else s, TWO32 - 1 - g) == FoldTop(low, top)
  {
    hide Bits.And, Bits.Xor, Xor4;
    TopMasked(low, top);
    TopFolded(low, top);
    XorNibbles(low / 16 % 16, top);
    TopCleared(FoldTop(low, top), top);
  }

  lemma Nibbles(s: nat)
    requires s < TWO32
    ensures s / TWO28 < 16 && s % TWO28 < TWO28 && s == s / TWO28 * TWO28 + s % TWO28
    ensures s / TWO28 * TWO28 / 0x100_0000 == s / TWO28 * 16
  {}

  lemma SumWraps(h: nat, c: Byte)
    ensures (h * 16 % TWO32 + c) % TWO32 == (h * 16 + c) % TWO32 < TWO32
  {}

  /** One round of the script is one round of the gABI. */
  lemma StepIsGabi(h: nat, c: Byte)
    ensures HashStep(h, c) == GabiStep(h, c)
  {
    hide Bits.And, Bits.Xor, FoldTop;
    SumWraps(h, c);
    var s := (h * 16 + c) % TWO32;
    Nibbles(s);
    WordIsGabi(s % TWO28, s / TWO28);
  }

  lemma {:induction false} HashFromSnoc(h: nat, name: Name, c: Byte)
    ensures HashFrom(h, name + [c]) == HashStep(HashFrom(h, name), c)
    decreases |name|
  {
    hide HashStep;
    if name == [] {
      assert name + [c] == [c];
    } else {
      assert (name + [c])[1..] == name[1..] + [c];
      HashFromSnoc(HashStep(h, name[0]), name[1..], c);
    }
  }

  lemma {:induction false} HashBelow(h: nat, name: Name)
    requires h < TWO28
    ensures HashFrom(h, name) < TWO28
    decreases |name|
  {
    if name != [] {
      HashBelow(HashStep(h, name[0]), name[1..]);
    }
  }

  lemma HashFits(name: Name)
    ensures Hash(name) < TWO32
  {
    HashBelow(0, name);
  }

  lemma {:induction false} HashIsGabi(name: Name)
    ensures Hash(name) == Gabi(name)
  {
    hide HashStep, GabiStep;
    if name != [] {
      var init, c := name[..|name| - 1], name[|name| - 1];
      assert name == init + [c];
      HashFromSnoc(0, init, c);
      HashIsGabi(init);
      StepIsGabi(Gabi(init), c);
    }
  }

  method ElfHash(name: Name) returns (h: nat)
    ensures h == Hash(name) == Gabi(name)
    ensures h < TWO28
  {
    hide HashStep, Gabi;
    HashIsGabi(name);
    h := 0;
    for i := 0 to |name|
      invariant h < TWO28
      invariant HashFrom(h, name[i..]) == Hash(name)
    {
      assert name[i..][1..] == name[i + 1..];
      h := HashStep(h, name[i]);
    }
  }

  /** Class of each symbol index: the bucket of its name. Index 0 is the undefined symbol, in no
      bucket. */
  function Classes(names: seq<Name>, nbucket: nat): (c: seq<int>)
    requires nbucket > 0
    ensures |c| == |names| + 1
    ensures c[0] == -1
    ensures forall j :: 1 <= j < |c| ==> c[j] == Hash(names[j - 1]) % nbucket && 0 <= c[j] < nbucket
  {
    [-1] + seq(|names|, i requires 0 <= i < |names| => Hash(names[i]) % nbucket)
  }

  /** `r` is the first index at or after `from` that lies in bucket `b`, or 0 when there is none. */
  ghost predicate IsFirst(c: seq<int>, b: int, from: nat, r: nat) {
    if r == 0 then forall j :: from <= j < |c| ==> c[j] != b
    else from <= r < |c| && c[r] == b && forall j :: from <= j < r ==> c[j] != b
  }

  function First(c: seq<int>, b: int, from: nat): (r: nat)
    requires 1 <= from
    ensures IsFirst(c, b, from, r)
    decreases |c| - from
  {
    if from >= |c| then 0 else if c[from] == b then from else First(c, b, from + 1)
  }

  lemma FirstUnique(c: seq<int>, b: int, from: nat, r: nat)
    requires 1 <= from && IsFirst(c, b, from, r)
    ensures r == First(c, b, from)
  {
    var f := First(c, b, from);
    if r != 0 && f != 0 {
      assert !(r < f) && !(f < r);
    }
  }

  function Buckets(names: seq<Name>, nbucket: nat): (s: seq<nat>)
    requires nbucket > 0
    ensures |s| == nbucket
  {
    var c := Classes(names, nbucket);
    seq(nbucket, b requires 0 <= b < nbucket => First(c, b, 1))
  }

  function Chains(names: seq<Name>, nbucket: nat): (s: seq<nat>)
    requires nbucket > 0
    ensures |s| == |names| + 1
  {
    var c := Classes(names, nbucket);
    seq(|c|, i requires 0 <= i < |c| => First(c, c[i], i + 1))
  }

  /** The table for the first `k` symbols: bucket heads and chain links are the first members of
      their class, and entries past `k` are still zero. */
  ghost predicate TableFor(c: seq<int>, k: nat, buckets: seq<nat>, chains: seq<nat>)
    requires k < |c|
  {
    && |chains| == |c|
    && (forall b :: 0 <= b < |buckets| ==> IsFirst(c[..k + 1], b, 1, buckets[b]))
    && (forall i :: 0 <= i < |chains| ==> IsFirst(c[..k + 1], c[i], i + 1, chains[i]))
  }

  /** What one more symbol does to a first-member entry. */
  lemma FirstExtend(c: seq<int>, k: nat, b: int, from: nat, r: nat)
    requires k + 1 < |c| && 1 <= from && IsFirst(c[..k + 1], b, from, r)
    ensures IsFirst(c[..k + 2], b, from, if r == 0 && c[k + 1] == b && from <= k + 1 then k + 1 else r)
  {
    assert c[..k + 2] == c[..k + 1] + [c[k + 1]];
  }

  lemma InsertHead(c: seq<int>, k: nat, buckets: seq<nat>, chains: seq<nat>)
    requires k + 1 < |c| && TableFor(c, k, buckets, chains)
    requires c[0] == -1 && 0 <= c[k + 1] < |buckets| && buckets[c[k + 1]] == 0
    ensures TableFor(c, k + 1, buckets[c[k + 1] := k + 1], chains)
  {
    hide IsFirst;
    var buckets' := buckets[c[k + 1] := k + 1];
    forall b | 0 <= b < |buckets|
      ensures IsFirst(c[..k + 2], b, 1, buckets'[b])
    {
      FirstExtend(c, k, b, 1, buckets[b]);
    }
    forall i | 0 <= i < |chains|
      ensures IsFirst(c[..k + 2], c[i], i + 1, chains[i])
    {
      FirstExtend(c, k, c[i], i + 1, chains[i]);
      if i <= k && c[i] == c[k + 1] {
        NoMemberYet(c, k, buckets, i);
      }
    }
  }

  lemma NoMemberYet(c: seq<int>, k: nat, buckets: seq<nat>, i: nat)
    requires k + 1 < |c| && i <= k && c[i] == c[k + 1] && 0 <= c[i] < |buckets|
    requires IsFirst(c[..k + 1], c[i], 1, buckets[c[i]]) && buckets[c[i]] == 0
    ensures i == 0
  {}

  lemma InsertTail(c: seq<int>, k: nat, buckets: seq<nat>, chains: seq<nat>, cur: nat)
    requires k + 1 < |c| && TableFor(c, k, buckets, chains)
    requires 0 <= c[k + 1] < |buckets| && buckets[c[k + 1]] != 0
    requires 1 <= cur <= k && c[cur] == c[k + 1] && chains[cur] == 0
    ensures TableFor(c, k + 1, buckets, chains[cur := k + 1])
  {
    hide IsFirst;
    forall b | 0 <= b < |buckets|
      ensures IsFirst(c[..k + 2], b, 1, buckets[b])
    {
      FirstExtend(c, k, b, 1, buckets[b]);
    }
    var chains' := chains[cur := k + 1];
    forall i | 0 <= i < |chains|
      ensures IsFirst(c[..k + 2], c[i], i + 1, chains'[i])
    {
      FirstExtend(c, k, c[i], i + 1, chains[i]);
      if i <= k && i != cur && c[i] == c[cur] {
        OnlyTailEnds(c, k, chains, i, cur);
      }
    }
  }

  /** Among the members of one class only the last has no successor. */
  lemma OnlyTailEnds(c: seq<int>, k: nat, chains: seq<nat>, i: nat, cur: nat)
    requires k < |c| == |chains| && i <= k && cur <= k && i != cur && c[i] == c[cur]
    requires IsFirst(c[..k + 1], c[i], i + 1, chains[i])
    requires IsFirst(c[..k + 1], c[cur], cur + 1, chains[cur]) && chains[cur] == 0
    ensures chains[i] != 0
  {
    assert c[..k + 1][i] == c[i] && c[..k + 1][cur] == c[cur];
  }

  /** The last member of the chain `head` lies on. Links only go up, so the walk ends. */
  method ChainEnd(ghost c: seq<int>, ghost k: nat, ghost buckets: seq<nat>, chains: array<nat>, head: nat)
    returns (cur: nat)
    requires k < |c| && TableFor(c, k, buckets, chains[..]) && 1 <= head <= k
    ensures head <= cur <= k && c[cur] == c[head] && chains[cur] == 0
  {
    hide *;
    TableLength(c, k, buckets, chains[..]);
    cur := head;
    while chains[cur] != 0
      invariant head <= cur <= k && c[cur] == c[head]
      decreases k - cur
    {
      LinkInClass(c, k, buckets, chains[..], cur);
      cur := chains[cur];
    }
  }

  lemma TableLength(c: seq<int>, k: nat, buckets: seq<nat>, chains: seq<nat>)
    requires k < |c| && TableFor(c, k, buckets, chains)
    ensures |chains| == |c|
  {}

  /** Inserts every name: an empty bucket takes the symbol, a full one has its chain walked to the
      end first. The result is the complete table. */
  method BuildHash(names: seq<Name>, nbucket: nat) returns (bs: seq<nat>, cs: seq<nat>)
    requires nbucket > 0
    ensures bs == Buckets(names, nbucket)
    ensures cs == Chains(names, nbucket)
  {
    hide *;
    ghost var c := Classes(names, nbucket);
    var buckets := new nat[nbucket](_ => 0);
    var chains := new nat[|names| + 1](_ => 0);
    EmptyTable(c, buckets[..], chains[..]);
    for i := 0 to |names|
      invariant TableFor(c, i, buckets[..], chains[..])
    {
      var hash := ElfHash(names[i]);
      var h := hash % nbucket;
      assert c[i + 1] == h;
      if buckets[h] == 0 {
        InsertHead(c, i, buckets[..], chains[..]);
        buckets[h] := i + 1;
      } else {
        HeadInClass(c, i, buckets[..], chains[..], h);
        var cur := ChainEnd(c, i, buckets[..], chains, buckets[h]);
        InsertTail(c, i, buckets[..], chains[..], cur);
        chains[cur] := i + 1;
      }
    }
    bs, cs := buckets[..], chains[..];
    CompleteTable(names, nbucket, bs, cs);
  }

  lemma EmptyTable(c: seq<int>, buckets: seq<nat>, chains: seq<nat>)
    requires |c| > 0 && |chains| == |c| && c[0] == -1
    requires forall b :: 0 <= b < |buckets| ==> buckets[b] == 0
    requires forall i :: 0 <= i < |chains| ==> chains[i] == 0
    ensures TableFor(c, 0, buckets, chains)
  {}

  lemma HeadInClass(c: seq<int>, k: nat, buckets: seq<nat>, chains: seq<nat>, b: nat)
    requires k < |c| && b < |buckets| && TableFor(c, k, buckets, chains) && buckets[b] != 0
    ensures 1 <= buckets[b] <= k && c[buckets[b]] == b
  {
    assert IsFirst(c[..k + 1], b, 1, buckets[b]);
  }

  lemma LinkInClass(c: seq<int>, k: nat, buckets: seq<nat>, chains: seq<nat>, i: nat)
    requires k < |c| && TableFor(c, k, buckets, chains) && i <= k && chains[i] != 0
    ensures i < chains[i] <= k && c[chains[i]] == c[i]
  {
    assert IsFirst(c[..k + 1], c[i], i + 1, chains[i]);
  }

  lemma CompleteTable(names: seq<Name>, nbucket: nat, bs: seq<nat>, cs: seq<nat>)
    requires nbucket > 0 && |bs| == nbucket
    requires TableFor(Classes(names, nbucket), |names|, bs, cs)
    ensures bs == Buckets(names, nbucket)
    ensures cs == Chains(names, nbucket)
  {
    var c := Classes(names, nbucket);
    assert c[..|names| + 1] == c;
    forall b | 0 <= b < nbucket ensures bs[b] == First(c, b, 1) { FirstUnique(c, b, 1, bs[b]); }
    forall i | 0 <= i < |c| ensures cs[i] == First(c, c[i], i + 1) { FirstUnique(c, c[i], i + 1, cs[i]); }
  }

  /** The members of bucket `b` from index `from` on, in order. */
  function Members(c: seq<int>, b: int, from: nat): (m: seq<nat>)
    decreases |c| - from
  {
    if from >= |c| then []
    else if c[from] == b then [from] + Members(c, b, from + 1)
    else Members(c, b, from + 1)
  }

  /** What being listed means: exactly the indices of the class, each once, in increasing order. */
  lemma {:induction false} MembersAreTheClass(c: seq<int>, b: int, from: nat)
    ensures forall j :: j in Members(c, b, from) <==> from <= j < |c| && c[j] == b
    ensures forall x, y :: 0 <= x < y < |Members(c, b, from)| ==> Members(c, b, from)[x] < Members(c, b, from)[y]
    decreases |c| - from
  {
    if from < |c| {
      MembersAreTheClass(c, b, from + 1);
      var rest := Members(c, b, from + 1);
      forall x | 0 <= x < |rest| ensures from < rest[x] { assert rest[x] in rest; }
    }
  }

  /** What a walk standing at `cur` has still to visit. */
  ghost function Ahead(c: seq<int>, b: int, cur: nat): seq<nat> {
    if cur == 0 then [] else [cur] + Members(c, b, cur + 1)
  }

  lemma {:induction false} MembersFromFirst(c: seq<int>, b: int, from: nat)
    requires 1 <= from
    ensures Members(c, b, from) == Ahead(c, b, First(c, b, from))
    decreases |c| - from
  {
    if from < |c| && c[from] != b {
      MembersFromFirst(c, b, from + 1);
    }
  }

  lemma WalkStep(c: seq<int>, b: int, visited: seq<nat>, cur: nat, next: nat)
    requires cur != 0 && IsFirst(c, b, cur + 1, next)
    ensures visited + Ahead(c, b, cur) == (visited + [cur]) + Ahead(c, b, next)
    ensures next != 0 ==> cur < next < |c| && c[next] == b
  {
    FirstUnique(c, b, cur + 1, next);
    MembersFromFirst(c, b, cur + 1);
  }

  /** A walk from the bucket head along the chain: it ends, and it visits exactly the symbols whose
      hash falls in the bucket, in increasing index order. */
  method WalkBucket(names: seq<Name>, nbucket: nat, bs: seq<nat>, cs: seq<nat>, b: nat) returns (visited: seq<nat>)
    requires nbucket > 0 && b < nbucket
    requires bs == Buckets(names, nbucket) && cs == Chains(names, nbucket)
    ensures forall j :: j in visited <==> 1 <= j <= |names| && Hash(names[j - 1]) % nbucket == b
    ensures forall x, y :: 0 <= x < y < |visited| ==> visited[x] < visited[y]
  {
    hide *;
    ghost var c := Classes(names, nbucket);
    var cur := bs[b];
    visited := [];
    WalkStart(names, nbucket, b);
    while cur != 0
      invariant cur == 0 || (1 <= cur < |c| && c[cur] == b)
      invariant Members(c, b, 1) == visited + Ahead(c, b, cur)
      decreases if cur == 0 then 0 else |c| - cur
    {
      ChainEntry(names, nbucket, cur);
      WalkStep(c, b, visited, cur, cs[cur]);
      visited := visited + [cur];
      cur := cs[cur];
    }
    WalkOver(c, b);
    VisitedIsBucket(names, nbucket, b, visited);
  }

  lemma WalkStart(names: seq<Name>, nbucket: nat, b: nat)
    requires b < nbucket
    ensures var c, head := Classes(names, nbucket), Buckets(names, nbucket)[b];
            && Members(c, b, 1) == [] + Ahead(c, b, head)
            && (head != 0 ==> head < |c| && c[head] == b)
  {
    var c := Classes(names, nbucket);
    BucketEntry(names, nbucket, b);
    FirstUnique(c, b, 1, Buckets(names, nbucket)[b]);
    MembersFromFirst(c, b, 1);
  }

  lemma WalkOver(c: seq<int>, b: int)
    ensures Ahead(c, b, 0) == []
  {}

  lemma VisitedIsBucket(names: seq<Name>, nbucket: nat, b: nat, visited: seq<nat>)
    requires b < nbucket && visited == Members(Classes(names, nbucket), b, 1)
    ensures forall j :: j in visited <==> 1 <= j <= |names| && Hash(names[j - 1]) % nbucket == b
    ensures forall x, y :: 0 <= x < y < |visited| ==> visited[x] < visited[y]
  {
    hide Hash, Members;
    MembersAreTheClass(Classes(names, nbucket), b, 1);
  }

  /** Looking a name up through its bucket gives the first symbol of that name, or 0 when no symbol
      has it: nothing is hidden in another bucket. */
  method Lookup(names: seq<Name>, nbucket: nat, bs: seq<nat>, cs: seq<nat>, name: Name) returns (index: nat)
    requires nbucket > 0
    requires bs == Buckets(names, nbucket) && cs == Chains(names, nbucket)
    ensures index == 0 <==> name !in names
    ensures index != 0 ==> index <= |names| && names[index - 1] == name && name !in names[..index - 1]
  {
    hide *;
    ghost var c := Classes(names, nbucket);
    var hash := ElfHash(name);
    var b := hash % nbucket;
    index := bs[b];
    BucketEntry(names, nbucket, b);
    SkipForeign(names, nbucket, name, 1, index);
    while index != 0 && names[index - 1] != name
      invariant index <= |names| && (index != 0 ==> c[index] == b)
      invariant name !in names[..if index == 0 then |names| else index - 1]
      decreases if index == 0 then 0 else |c| - index
    {
      ChainEntry(names, nbucket, index);
      SkipForeign(names, nbucket, name, index + 1, cs[index]);
      ghost var next := if cs[index] == 0 then |names| else cs[index] - 1;
      assert names[..next] == names[..index - 1] + [names[index - 1]] + names[index..next];
      index := cs[index];
    }
  }

  lemma BucketEntry(names: seq<Name>, nbucket: nat, b: nat)
    requires b < nbucket
    ensures IsFirst(Classes(names, nbucket), b, 1, Buckets(names, nbucket)[b])
  {}

  lemma ChainEntry(names: seq<Name>, nbucket: nat, i: nat)
    requires nbucket > 0 && i <= |names|
    ensures IsFirst(Classes(names, nbucket), Classes(names, nbucket)[i], i + 1, Chains(names, nbucket)[i])
  {}

  /** No symbol between one member of the name's class and the next has that name. */
  lemma SkipForeign(names: seq<Name>, nbucket: nat, name: Name, from: nat, r: nat)
    requires nbucket > 0 && 1 <= from <= |names| + 1
    requires IsFirst(Classes(names, nbucket), Hash(name) % nbucket, from, r)
    ensures r == 0 ==> name !in names[from - 1..]
    ensures r != 0 ==> from <= r <= |names| && name !in names[from - 1..r - 1]
    ensures r != 0 ==> Classes(names, nbucket)[r] == Hash(name) % nbucket
  {
    var c := Classes(names, nbucket);
    var end := if r == 0 then |names| else r - 1;
    forall j | from - 1 <= j < end ensures names[j] != name {
      assert c[j + 1] != Hash(name) % nbucket;
    }
  }
}
