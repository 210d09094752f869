/** How the fault decoder reads a 64-bit address of the rv64-qemu target: Sv39 canonicality, its class, and
    the ELF addresses it may stand for. */
module AddressDecode {
  import opened Options
  import opened Bytes

  const TWO64: int := 0x1_0000_0000_0000_0000

  type U64 = x: int | 0 <= x < TWO64

  const WINDOW: int := 0x2000_0000
  const USER_TOP: int := 0x40_0000_0000
  const PHYS_BASE: int := 0x8020_0000
  const VIRT_BASE: int := 0xffff_ffff_8020_0000
  const DIRECT_MAP: int := 0xffff_ffc0_0000_0000
  const DRAM: int := 0x8000_0000
  const TWO39: int := 0x80_0000_0000
  const TWO38: int := 0x40_0000_0000

  // Canonical addresses; masks of low bits are written as remainders

  /** The low 39 bits with the sign bit carried upwards. */
  function Extended(low: int): (r: U64)
    requires 0 <= low < TWO39
    ensures r % TWO39 == low
  {
    if low < TWO38 then low else low + (TWO64 - TWO39)
  }

  function SignExtend(addr: U64): (r: U64) { Extended(addr % TWO39) }

  predicate IsCanonical(addr: U64) { SignExtend(addr) == addr }

  /** Bits 63 to 39 all equal bit 38: section 4.4.1 of the RISC-V Privileged Architecture, version 20211203. */
  predicate UpperBitsAgree(addr: U64) { addr / TWO38 == 0 || addr / TWO38 == 0x3ff_ffff }

  lemma CanonicalIff(addr: U64)
    ensures IsCanonical(addr) <==> UpperBitsAgree(addr)
    ensures IsCanonical(addr) <==> addr < USER_TOP || addr >= DIRECT_MAP
  {
    var q, low := addr / TWO39, addr % TWO39;
    assert addr == q * TWO39 + low;
  }

  /** Sign extension gives a canonical address with the same low 39 bits, and changes nothing the second time. */
  lemma SignExtendIdempotent(addr: U64)
    ensures SignExtend(SignExtend(addr)) == SignExtend(addr) && IsCanonical(SignExtend(addr))
    ensures SignExtend(addr) % TWO39 == addr % TWO39
  {
    hide Extended;
    assert SignExtend(addr) % TWO39 == addr % TWO39;
  }

  // Classes

  datatype Region = Firmware | Dram | NoRegion

  datatype Class =
    | HighKernelAlias
    | LowKernelAddress
    | DirectMap(phys: U64, region: Region)
    | UserAddress
    | SuspiciousNonCanonical
    | UnknownHighRuntime
    | OtherAddress

  predicate InWindow(addr: int, base: int) { base <= addr < base + WINDOW }

  function Classify(addr: U64): (c: Class) {
    if InWindow(addr, VIRT_BASE) then HighKernelAlias
    else if InWindow(addr, PHYS_BASE) then LowKernelAddress
    else if addr >= DIRECT_MAP then
      var phys := addr - DIRECT_MAP;
      DirectMap(phys, if DRAM <= phys < PHYS_BASE then Firmware else if phys >= DRAM then Dram else NoRegion)
    else if addr < USER_TOP then UserAddress
    else if !IsCanonical(addr) then SuspiciousNonCanonical
    else if addr >= TWO64 / 2 then UnknownHighRuntime
    else OtherAddress
  }

  /** The class of every address: suspicious exactly when not canonical; below and above, the two kernel windows,
      and around them user space and the direct map. The two catch-all classes are never reached. */
  lemma ClassifyIs(addr: U64)
    ensures Classify(addr) == SuspiciousNonCanonical <==> !IsCanonical(addr)
    ensures Classify(addr) == LowKernelAddress <==> 0x8020_0000 <= addr < 0xa020_0000
    ensures Classify(addr) == HighKernelAlias <==> 0xffff_ffff_8020_0000 <= addr < 0xffff_ffff_a020_0000
    ensures Classify(addr) == UserAddress <==> IsCanonical(addr) && !BitThirtyEight(addr) && !(0x8020_0000 <= addr < 0xa020_0000)
    ensures Classify(addr).DirectMap? <==>
              IsCanonical(addr) && BitThirtyEight(addr) && !(0xffff_ffff_8020_0000 <= addr < 0xffff_ffff_a020_0000)
    ensures Classify(addr) != UnknownHighRuntime && Classify(addr) != OtherAddress
  {
    hide IsCanonical, BitThirtyEight;
    CanonicalIff(addr);
    BitIs(addr);
  }

  predicate BitThirtyEight(addr: U64) { addr / TWO38 % 2 == 1 }

  lemma BitIs(addr: U64)
    ensures addr < USER_TOP ==> !BitThirtyEight(addr)
    ensures addr >= DIRECT_MAP ==> BitThirtyEight(addr)
  {
    if addr >= DIRECT_MAP {
      assert addr / TWO38 == 0x3ff_ffff;
    }
  }

  /** The high aliases are the low kernel addresses seen from the other window. */
  lemma AliasesMatch(addr: U64)
    ensures Classify(addr) == HighKernelAlias <==> exists low: U64 :: InWindow(low, PHYS_BASE) && ToHigh(low) == addr
    ensures forall low: U64 :: InWindow(low, PHYS_BASE) ==> Classify(low) == LowKernelAddress && Classify(ToHigh(low)) == HighKernelAlias
  {
    if InWindow(addr, VIRT_BASE) {
      assert ToHigh(ToLow(addr)) == addr;
    }
  }

  /** Where a direct-map address points: its distance from the base, the firmware gap at the start of memory,
      and memory behind it. */
  lemma DirectMapIs(addr: U64)
    requires Classify(addr).DirectMap?
    ensures var c := Classify(addr);
            && 0xffff_ffc0_0000_0000 + c.phys == addr
            && (c.region == Firmware <==> 0x8000_0000 <= c.phys < 0x8020_0000)
            && (c.region == Dram <==> 0x8020_0000 <= c.phys)
            && (c.region == NoRegion <==> c.phys < 0x8000_0000)
  {}

  // Candidates

  datatype LinkMode = LowLinked | HighLinked

  datatype Label = Raw | LowElf | HighElf | Low32 | CanonicalLike | HighAliasLike

  datatype Candidate = Candidate(tag: Label, address: U64)

  function Push(cs: seq<Candidate>, tag: Label, address: U64): (r: seq<Candidate>) {
    if Candidate(tag, address) in cs then cs else cs + [Candidate(tag, address)]
  }

  /** The same place in the other window; neither sum leaves 64 bits. */
  function ToLow(addr: U64): (r: U64)
    requires InWindow(addr, VIRT_BASE)
    ensures InWindow(r, PHYS_BASE)
  {
    PHYS_BASE + (addr - VIRT_BASE)
  }

  function ToHigh(addr: U64): (r: U64)
    requires InWindow(addr, PHYS_BASE)
    ensures InWindow(r, VIRT_BASE)
  {
    VIRT_BASE + (addr - PHYS_BASE)
  }

  function AliasOf(addr: U64): (r: U64)
    ensures InWindow(r, VIRT_BASE)
  {
    VIRT_BASE + addr % WINDOW
  }

  function PushLow(cs: seq<Candidate>, addr: U64): (r: seq<Candidate>) {
    if InWindow(addr, VIRT_BASE) then Push(cs, LowElf, ToLow(addr)) else cs
  }

  function PushHigh(cs: seq<Candidate>, addr: U64): (r: seq<Candidate>) {
    if InWindow(addr, PHYS_BASE) then Push(cs, HighElf, ToHigh(addr)) else cs
  }

  function Candidates(addr: U64, mode: LinkMode): (cs: seq<Candidate>) {
    var raw := Push([], Raw, addr);
    var linked := if mode == LowLinked then PushHigh(PushLow(raw, addr), addr) else PushLow(PushHigh(raw, addr), addr);
    if IsCanonical(addr) then linked
    else Push(Push(Push(linked, Low32, addr % 0x1_0000_0000), CanonicalLike, SignExtend(addr)), HighAliasLike, AliasOf(addr))
  }

  /** The windows are apart and canonical. */
  lemma WindowsApart(addr: U64)
    ensures !(InWindow(addr, VIRT_BASE) && InWindow(addr, PHYS_BASE))
    ensures InWindow(addr, VIRT_BASE) || InWindow(addr, PHYS_BASE) ==> IsCanonical(addr)
  {
    hide IsCanonical;
    CanonicalIff(addr);
  }

  /** Moving a kernel address to the other window and back gives the address again. */
  lemma TranslationInverse(addr: U64)
    ensures InWindow(addr, VIRT_BASE) ==> ToHigh(ToLow(addr)) == addr
    ensures InWindow(addr, PHYS_BASE) ==> ToLow(ToHigh(addr)) == addr
  {}

  predicate NoRepeats(cs: seq<Candidate>) { forall i, j :: 0 <= i < j < |cs| ==> cs[i] != cs[j] }

  lemma PushKeeps(cs: seq<Candidate>, tag: Label, address: U64)
    requires NoRepeats(cs)
    ensures NoRepeats(Push(cs, tag, address)) && Candidate(tag, address) in Push(cs, tag, address)
    ensures cs <= Push(cs, tag, address)
  {}

  /** The list is the same under either link mode, begins with the raw address and repeats nothing. */
  lemma CandidatesIgnoreMode(addr: U64)
    ensures Candidates(addr, LowLinked) == Candidates(addr, HighLinked)
    ensures var cs := Candidates(addr, LowLinked); cs != [] && cs[0] == Candidate(Raw, addr) && NoRepeats(cs)
  {
    hide IsCanonical, SignExtend, InWindow, ToLow, ToHigh;
    WindowsApart(addr);
    hide Push;
    var raw := Push([], Raw, addr);
    PushKeeps([], Raw, addr);
    FirstPush(addr);
    var linked := PushHigh(PushLow(raw, addr), addr);
    if InWindow(addr, VIRT_BASE) {
      PushKeeps(raw, LowElf, ToLow(addr));
    } else if InWindow(addr, PHYS_BASE) {
      PushKeeps(raw, HighElf, ToHigh(addr));
    }
    assert linked == PushLow(PushHigh(raw, addr), addr) && NoRepeats(linked) && raw <= linked;
    PushKeeps(linked, Low32, addr % 0x1_0000_0000);
    var a := Push(linked, Low32, addr % 0x1_0000_0000);
    PushKeeps(a, CanonicalLike, SignExtend(addr));
    PushKeeps(Push(a, CanonicalLike, SignExtend(addr)), HighAliasLike, AliasOf(addr));
  }

  /** The order of the list: at most one candidate of each kind, kinds as declared, the two ELF ones exclusive. */
  function Rank(tag: Label): (n: nat) {
    match tag
    case Raw => 0
    case LowElf => 1
    case HighElf => 2
    case Low32 => 3
    case CanonicalLike => 4
    case HighAliasLike => 5
  }

  lemma CandidatesInOrder(addr: U64, mode: LinkMode)
    ensures var cs := Candidates(addr, mode); forall i, j :: 0 <= i < j < |cs| ==> Rank(cs[i].tag) < Rank(cs[j].tag)
  {
    hide IsCanonical, SignExtend, InWindow, ToLow, ToHigh, AliasOf;
    WindowsApart(addr);
  }

  lemma FirstPush(addr: U64)
    ensures Push([], Raw, addr) == [Candidate(Raw, addr)]
  {}

  /** What each kind of candidate stands for. */
  predicate Stands(c: Candidate, addr: U64) {
    match c.tag
    case Raw => c.address == addr
    case LowElf => InWindow(c.address, PHYS_BASE) && ToHigh(c.address) == addr
    case HighElf => InWindow(c.address, VIRT_BASE) && ToLow(c.address) == addr
    case Low32 => !IsCanonical(addr) && c.address < 0x1_0000_0000 && (addr - c.address) % 0x1_0000_0000 == 0
    case CanonicalLike => !IsCanonical(addr) && IsCanonical(c.address) && c.address % TWO39 == addr % TWO39
    case HighAliasLike => !IsCanonical(addr) && InWindow(c.address, VIRT_BASE) && (c.address - VIRT_BASE - addr) % WINDOW == 0
  }

  /** The list holds exactly the addresses that stand for the raw one. */
  lemma CandidatesAreExact(addr: U64, mode: LinkMode, c: Candidate)
    ensures c in Candidates(addr, mode) <==> Stands(c, addr)
  {
    hide IsCanonical, SignExtend, InWindow, ToLow, ToHigh, Stands, AliasOf;
    WindowsApart(addr);
    StandsIs(c, addr);
  }

  /** Each description has one solution. */
  lemma StandsIs(c: Candidate, addr: U64)
    ensures Stands(c, addr) <==>
              || c == Candidate(Raw, addr)
              || (InWindow(addr, VIRT_BASE) && c == Candidate(LowElf, ToLow(addr)))
              || (InWindow(addr, PHYS_BASE) && c == Candidate(HighElf, ToHigh(addr)))
              || (!IsCanonical(addr) && c in [Candidate(Low32, addr % 0x1_0000_0000), Candidate(CanonicalLike, SignExtend(addr)), Candidate(HighAliasLike, AliasOf(addr))])
  {
    match c.tag
    case Raw =>
    case LowElf =>
    case HighElf =>
    case Low32 => SameRemainder(addr, c.address, 0x1_0000_0000);
    case CanonicalLike => OneCanonical(c.address, addr);
    case HighAliasLike => SameRemainder(addr, c.address - VIRT_BASE, WINDOW);
  }

  lemma SameRemainder(a: int, r: int, m: int)
    requires m > 0
    ensures 0 <= r < m ==> ((a - r) % m == 0 <==> r == a % m) && ((r - a) % m == 0 <==> r == a % m)
  {
    if 0 <= r < m {
      if (a - r) % m == 0 {
        assert a == (a - r) / m * m + r;
        DivModUnique(a, m, (a - r) / m, r);
      }
      if (r - a) % m == 0 {
        var q := (r - a) / m;
        assert a == -q * m + r;
        DivModUnique(a, m, -q, r);
      }
      if r == a % m {
        var q := a / m;
        assert a - r == q * m && r - a == -q * m;
        DivModUnique(a - r, m, q, 0);
        DivModUnique(r - a, m, -q, 0);
      }
    }
  }

  /** Sign extension is the only canonical address with those low bits. */
  lemma OneCanonical(x: U64, addr: U64)
    ensures IsCanonical(x) && x % TWO39 == addr % TWO39 <==> x == SignExtend(addr)
  {
    hide Extended;
    SignExtendIdempotent(addr);
  }

  // Choosing one

  datatype Symbol = Symbol(name: string, address: U64)

  function FindSymbol(symbols: seq<Symbol>, name: string): (s: Option<Symbol>) {
    if symbols == [] then None
    else if symbols[0].name == name then Some(symbols[0])
    else FindSymbol(symbols[1..], name)
  }

  function DetectLinkMode(symbols: seq<Symbol>): (m: Option<LinkMode>) {
    var start := FindSymbol(symbols, "__kernel_start");
    var s := if start.Some? then start else FindSymbol(symbols, "rust_entry");
    if s.None? then None
    else if InWindow(s.value.address, PHYS_BASE) then Some(LowLinked)
    else if InWindow(s.value.address, VIRT_BASE) then Some(HighLinked)
    else None
  }

  /** The link mode is where the kernel start, or else the entry point, lies. */
  lemma LinkModeIs(symbols: seq<Symbol>, i: nat)
    requires i < |symbols| && forall j :: 0 <= j < i ==> symbols[j].name != symbols[i].name
    requires symbols[i].name == "__kernel_start" || (symbols[i].name == "rust_entry" && forall j :: 0 <= j < |symbols| ==> symbols[j].name != "__kernel_start")
    ensures DetectLinkMode(symbols) == Some(LowLinked) <==> 0x8020_0000 <= symbols[i].address < 0xa020_0000
    ensures DetectLinkMode(symbols) == Some(HighLinked) <==> 0xffff_ffff_8020_0000 <= symbols[i].address < 0xffff_ffff_a020_0000
  {
    hide FindSymbol;
    FoundFirst(symbols, i);
    NotFound(symbols, "__kernel_start");
  }

  lemma {:induction false} FoundFirst(symbols: seq<Symbol>, i: nat)
    requires i < |symbols| && forall j :: 0 <= j < i ==> symbols[j].name != symbols[i].name
    ensures FindSymbol(symbols, symbols[i].name) == Some(symbols[i])
  {
    if i > 0 {
      FoundFirst(symbols[1..], i - 1);
    }
  }

  lemma {:induction false} NotFound(symbols: seq<Symbol>, name: string)
    ensures (forall j :: 0 <= j < |symbols| ==> symbols[j].name != name) ==> FindSymbol(symbols, name) == None
  {
    if symbols != [] {
      NotFound(symbols[1..], name);
    }
  }

  /** Without evidence the kernel counts as linked low. */
  function Layout(symbols: seq<Symbol>): (m: LinkMode) {
    var m := DetectLinkMode(symbols);
    if m.Some? then m.value else LowLinked
  }

  function First(cs: seq<Candidate>, p: U64 -> bool): (k: nat)
    ensures k <= |cs| && (k < |cs| ==> p(cs[k].address)) && forall i :: 0 <= i < k ==> !p(cs[i].address)
  {
    if cs == [] || p(cs[0].address) then 0 else 1 + First(cs[1..], p)
  }

  /** The first candidate in a text section, else the first in any section, else the first. */
  function Select(cs: seq<Candidate>, text: U64 -> bool, known: U64 -> bool): (c: Option<Candidate>) {
    var t, k := First(cs, text), First(cs, known);
    if t < |cs| then Some(cs[t]) else if k < |cs| then Some(cs[k]) else if cs != [] then Some(cs[0]) else None
  }

  function Chosen(addr: U64, symbols: seq<Symbol>, text: U64 -> bool, known: U64 -> bool): (c: Option<Candidate>) {
    Select(Candidates(addr, Layout(symbols)), text, known)
  }

  /** The first candidate of the best kind there is: code, else in a known section, else the first of all. */
  ghost predicate FirstOfItsKind(cs: seq<Candidate>, j: nat, text: U64 -> bool, known: U64 -> bool) {
    && j < |cs|
    && if exists i :: 0 <= i < |cs| && text(cs[i].address) then text(cs[j].address) && forall i :: 0 <= i < j ==> !text(cs[i].address)
       else if exists i :: 0 <= i < |cs| && known(cs[i].address) then known(cs[j].address) && forall i :: 0 <= i < j ==> !known(cs[i].address)
       else j == 0
  }

  /** The address chosen does not depend on what the link mode was taken to be; something is always chosen,
      code whenever a candidate is code, and the raw address unless another candidate is in a better place. */
  lemma ChoiceIgnoresLinkMode(addr: U64, a: seq<Symbol>, b: seq<Symbol>, text: U64 -> bool, known: U64 -> bool)
    ensures Chosen(addr, a, text, known) == Chosen(addr, b, text, known)
    ensures var c, cs := Chosen(addr, a, text, known), Candidates(addr, LowLinked);
            && c.Some? && (exists j :: 0 <= j < |cs| && c.value == cs[j] && FirstOfItsKind(cs, j, text, known))
            && (text(c.value.address) <==> exists i :: 0 <= i < |cs| && text(cs[i].address))
            && (text(addr) ==> c.value == Candidate(Raw, addr))
            && ((forall i :: 0 <= i < |cs| ==> !text(cs[i].address) && !known(cs[i].address)) ==> c.value == Candidate(Raw, addr))
  {
    hide Candidates, Layout;
    CandidatesIgnoreMode(addr);
    EitherMode(addr, Layout(a));
    EitherMode(addr, Layout(b));
    FirstChosen(Candidates(addr, LowLinked), text, known);
  }

  lemma FirstChosen(cs: seq<Candidate>, text: U64 -> bool, known: U64 -> bool)
    requires cs != []
    ensures var c := Select(cs, text, known);
            c.Some? && exists j :: 0 <= j < |cs| && c.value == cs[j] && FirstOfItsKind(cs, j, text, known)
  {
    var t, k := First(cs, text), First(cs, known);
    assert FirstOfItsKind(cs, if t < |cs| then t else if k < |cs| then k else 0, text, known);
  }

  lemma EitherMode(addr: U64, m: LinkMode)
    ensures Candidates(addr, m) == Candidates(addr, LowLinked)
  {
    hide Candidates;
    CandidatesIgnoreMode(addr);
    match m
    case LowLinked =>
    case HighLinked =>
  }
}
