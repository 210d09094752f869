/** The ET_DYN image the vDSO build script assembles around a text section: what every byte of it
    is, and the builder that fills its tables and appends its parts. */
module VdsoImage {
  import opened Options
  import opened Bytes
  import opened Layout
  import opened SysvHash

  const PAGE_SIZE: nat := 0x1000
  const TWO64: nat := 0x1_0000_0000_0000_0000

  datatype Symbol = Symbol(name: Name, address: nat, size: nat)

  datatype Input = Input(names: seq<Name>, version: Name, nbucket: nat, text: seq<Byte>, symbols: seq<Symbol>)

  function Align8(value: nat): (r: nat)
    ensures value <= r < value + 8 && r % 8 == 0
  {
    (value + 7) / 8 * 8
  }

  function AlignPage(value: nat): (r: nat)
    ensures value <= r < value + PAGE_SIZE && r % PAGE_SIZE == 0
  {
    (value + 4095) / PAGE_SIZE * PAGE_SIZE
  }

  // Layout

  function NChain(v: Input): nat { |v.names| + 1 }

  function StringParts(v: Input): (parts: seq<seq<Byte>>)
    ensures |parts| == |v.names| + 2
  {
    [[0]] + seq(|v.names|, i requires 0 <= i < |v.names| => v.names[i] + [0]) + [v.version + [0]]
  }

  function DynStr(v: Input): seq<Byte> { Join(StringParts(v)) }

  function NameOff(v: Input, i: nat): nat
    requires i < |v.names|
  {
    Start(StringParts(v), i + 1)
  }

  function VersionOff(v: Input): nat { Start(StringParts(v), |v.names| + 1) }

  /** The layout reckons with lengths alone: every name and the version with their NULs, and a first NUL. */
  function NameBytes(names: seq<Name>): (n: nat) {
    if names == [] then 0 else NameBytes(names[..|names| - 1]) + |names[|names| - 1]| + 1
  }

  function DynStrSize(v: Input): (n: nat) { 1 + NameBytes(v.names) + |v.version| + 1 }

  lemma {:induction false} NamesStart(v: Input, k: nat)
    requires k <= |v.names|
    ensures Start(StringParts(v), k + 1) == 1 + NameBytes(v.names[..k])
  {
    if k > 0 {
      NamesStart(v, k - 1);
      assert v.names[..k][..k - 1] == v.names[..k - 1];
    }
  }

  /** The string table built byte by byte has the size the layout reckons with. */
  lemma DynStrSizeIs(v: Input)
    ensures |DynStr(v)| == DynStrSize(v)
  {
    hide Join, StringParts, NameBytes;
    NamesStart(v, |v.names|);
    assert v.names[..|v.names|] == v.names;
    JoinLength(StringParts(v));
    VersionPart(v);
  }

  lemma VersionPart(v: Input)
    ensures StringParts(v)[|v.names| + 1] == v.version + [0]
  {}

  const HASH_OFF: nat := 176
  function DynSymOff(v: Input): nat { HASH_OFF + (2 + v.nbucket + NChain(v)) * 4 }
  function DynStrOff(v: Input): nat { DynSymOff(v) + NChain(v) * 24 }
  function VerSymOff(v: Input): nat { DynStrOff(v) + DynStrSize(v) }
  function VerDefOff(v: Input): nat { VerSymOff(v) + NChain(v) * 2 }
  function TextOff(v: Input): nat { Align8(VerDefOff(v) + 28) }
  function DynamicOff(v: Input): nat { TextOff(v) + |v.text| }
  function ShStrTabOff(v: Input): nat { DynamicOff(v) + 144 }
  function ShOff(v: Input): nat { Align8(ShStrTabOff(v) + 17) }
  function Total(v: Input): nat { ShOff(v) + 192 }
  function Padded(v: Input): nat { AlignPage(Total(v)) }

  function FindSymbol(symbols: seq<Symbol>, name: Name): (r: Option<Symbol>)
    ensures r.Some? ==> r.value in symbols && r.value.name == name
    ensures r.None? ==> forall s :: s in symbols ==> s.name != name
  {
    if symbols == [] then None
    else if symbols[0].name == name then Some(symbols[0])
    else FindSymbol(symbols[1..], name)
  }

  /** What the build script's types and C string tables ask of their input. */
  ghost predicate Valid(v: Input) {
    && 0 < v.nbucket < TWO32
    && (forall n :: n in v.names ==> NulFree(n))
    && NulFree(v.version)
    && |DynStr(v)| < TWO32
    && Padded(v) < TWO64
    && (forall s :: s in v.symbols ==> s.address < TWO64 && s.size < TWO64)
  }

  ghost predicate SymbolOk(v: Input, i: nat)
    requires i < |v.names|
  {
    FindSymbol(v.symbols, v.names[i]).Some? && TextOff(v) + FindSymbol(v.symbols, v.names[i]).value.address < TWO64
  }

  /** Every exported name has a symbol whose address stays a 64-bit number once placed. */
  ghost predicate Buildable(v: Input) {
    forall i :: 0 <= i < |v.names| ==> SymbolOk(v, i)
  }

  // Parts

  ghost function HashWords(v: Input): seq<nat>
    requires v.nbucket > 0
  {
    [v.nbucket, NChain(v)] + Buckets(v.names, v.nbucket) + Chains(v.names, v.nbucket)
  }

  ghost function Words(s: seq<nat>): seq<seq<Byte>> {
    seq(|s|, i requires 0 <= i < |s| => Le(s[i], 4))
  }

  function SymFields(nameOff: nat, value: nat, size: nat): seq<seq<Byte>> {
    [Le(nameOff, 4), [0x12], [0], Le(1, 2), Le(value, 8), Le(size, 8)]
  }

  ghost function SymRow(v: Input, i: nat): (r: seq<Byte>)
    requires i <= |v.names| && (i == 0 || SymbolOk(v, i - 1))
  {
    if i == 0 then Zeros(24)
    else
      var s := FindSymbol(v.symbols, v.names[i - 1]).value;
      Join(SymFields(NameOff(v, i - 1), TextOff(v) + s.address, s.size))
  }

  ghost function SymRows(v: Input): seq<seq<Byte>>
    requires Buildable(v)
  {
    seq(NChain(v), i requires 0 <= i < NChain(v) => SymRow(v, i))
  }

  function VerRow(i: nat): (r: seq<Byte>)
    ensures |r| == 2
  {
    if i == 0 then Le(0, 2) else Le(2, 2)
  }

  ghost function VerRows(v: Input): seq<seq<Byte>> {
    seq(NChain(v), i requires 0 <= i < NChain(v) => VerRow(i))
  }

  function VerDefFields(versionOff: nat, hash: nat): seq<seq<Byte>> {
    [Le(1, 2), Le(0, 2), Le(2, 2), Le(1, 2), Le(hash, 4), Le(20, 4), Le(0, 4), Le(versionOff, 4), Le(0, 4)]
  }

  function DynamicFields(dynsym: nat, dynstr: nat, hash: nat, strsz: nat, versym: nat, verdef: nat): seq<seq<Byte>> {
    [Le(6, 8), Le(dynsym, 8), Le(5, 8), Le(dynstr, 8), Le(4, 8), Le(hash, 8),
     Le(10, 8), Le(strsz, 8), Le(11, 8), Le(24, 8), Le(0x6fff_fff0, 8), Le(versym, 8),
     Le(0x6fff_fffc, 8), Le(verdef, 8), Le(0x6fff_fffd, 8), Le(1, 8), Le(0, 8), Le(0, 8)]
  }

  function HeaderFields(shoff: nat): seq<seq<Byte>> {
    [[0x7f, 0x45, 0x4c, 0x46, 2, 1, 1, 3], Zeros(8), Le(3, 2), Le(243, 2), Le(1, 4), Le(0, 8), Le(64, 8),
     Le(shoff, 8), Le(0, 4), Le(64, 2), Le(56, 2), Le(2, 2), Le(64, 2), Le(3, 2), Le(2, 2)]
  }

  function ProgramFields(kind: nat, flags: nat, offset: nat, size: nat, alignment: nat): seq<seq<Byte>> {
    [Le(kind, 4), Le(flags, 4), Le(offset, 8), Le(offset, 8), Le(offset, 8), Le(size, 8), Le(size, 8), Le(alignment, 8)]
  }

  function ProgramRows(padded: nat, dynamicOff: nat): seq<seq<Byte>> {
    [Join(ProgramFields(1, 5, 0, padded, PAGE_SIZE)), Join(ProgramFields(2, 4, dynamicOff, 144, 8))]
  }

  /** "\0.text\0.shstrtab\0" */
  const SHSTRTAB: seq<Byte> := [0, 46, 116, 101, 120, 116, 0, 46, 115, 104, 115, 116, 114, 116, 97, 98, 0]

  function SectionFields(name: nat, kind: nat, flags: nat, offset: nat, size: nat, alignment: nat): seq<seq<Byte>> {
    [Le(name, 4), Le(kind, 4), Le(flags, 8), Le(offset, 8), Le(offset, 8), Le(size, 8), Le(0, 4), Le(0, 4),
     Le(alignment, 8), Le(0, 8)]
  }

  function SectionRows(textOff: nat, textSize: nat, shstrtabOff: nat): seq<seq<Byte>> {
    [Zeros(64), Join(SectionFields(1, 1, 6, textOff, textSize, 8)), Join(SectionFields(7, 3, 0, shstrtabOff, 17, 1))]
  }

  ghost function Parts(v: Input): seq<seq<Byte>>
    requires v.nbucket > 0 && Buildable(v)
  {
    [Join(HeaderFields(ShOff(v))),
     Join(ProgramRows(Padded(v), DynamicOff(v))),
     Join(Words(HashWords(v))),
     Join(SymRows(v)),
     DynStr(v),
     Join(VerRows(v)),
     Join(VerDefFields(VersionOff(v), Hash(v.version))),
     Zeros(TextOff(v) - (VerDefOff(v) + 28)),
     v.text,
     Join(DynamicFields(DynSymOff(v), DynStrOff(v), HASH_OFF, |DynStr(v)|, VerSymOff(v), VerDefOff(v))),
     SHSTRTAB,
     Zeros(ShOff(v) - (ShStrTabOff(v) + 17)),
     Join(SectionRows(TextOff(v), |v.text|, ShStrTabOff(v))),
     Zeros(Padded(v) - Total(v))]
  }

  /** The whole image. */
  ghost function Image(v: Input): seq<Byte>
    requires v.nbucket > 0 && Buildable(v)
  {
    Join(Parts(v))
  }
}
