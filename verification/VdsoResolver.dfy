/** The guest probe's side: it walks the mapped image from its base address, as a loader does, to
    resolve a versioned symbol and to find the text section. A read outside the image is a fault. */
module VdsoResolver {
  import opened Options
  import opened Bytes
  import opened Layout
  import opened SysvHash
  import opened VdsoImage
  import opened VdsoFields

  const PT_LOAD := 1
  const PT_DYNAMIC := 2
  const DT_HASH := 4
  const DT_STRTAB := 5
  const DT_SYMTAB := 6
  const DT_VERSYM := 0x6fff_fff0
  const DT_VERDEF := 0x6fff_fffc

  datatype Resolved =
    | Fault
    | Missing
    | Found(address: nat, value: nat, loadBias: nat, loadOffset: nat, loadVaddr: nat)

  datatype Segments = NoSegments | Segments(dynamic: nat, loadBias: nat, loadOffset: nat, loadVaddr: nat)

  datatype Tables = Tables(strings: nat, symbols: nat, hash: nat, versions: nat, definitions: nat)

  /** 64-bit address arithmetic. */
  function Addr(x: int): (a: nat)
    ensures a < TWO64
  {
    x % TWO64
  }

  lemma AddrOf(x: int)
    requires 0 <= x < TWO64
    ensures Addr(x) == x
  {}

  /** Offset in the image of the 64-bit address `p`. */
  function Rel(p: int, base: nat): (off: nat) { Addr(p - base) }

  lemma RelOf(base: nat, off: nat)
    requires off < TWO64
    ensures Rel(base + off, base) == off
  {}

  /** The image is a built one, mapped whole below the end of the address space. */
  ghost predicate Mapped(img: seq<Byte>, v: Input, base: nat) {
    Built(img, v) && base + |img| <= TWO64
  }

  /** Compares a C string with the one at `right`; `s` is what may lie there. */
  method StringEqual(img: seq<Byte>, left: Name, right: nat, ghost s: Name) returns (r: Option<bool>)
    requires NulFree(left)
    ensures NulFree(s) && HoldsString(img, right, s) ==> r == Some(left == s)
  {
    hide HoldsString;
    ghost var there := NulFree(s) && HoldsString(img, right, s);
    var i := 0;
    while i < |left|
      invariant i <= |left|
      invariant there ==> i <= |s| && left[..i] == s[..i]
    {
      if there {
        StringByte(img, right, s, i);
      }
      if right + i >= |img| {
        return None;
      }
      if img[right + i] == 0 || img[right + i] != left[i] {
        return Some(false);
      }
      i := i + 1;
    }
    if there {
      StringByte(img, right, s, i);
    }
    if right + i >= |img| {
      return None;
    }
    assert left[..i] == left;
    return Some(img[right + i] == 0);
  }

  lemma StringByte(img: seq<Byte>, right: nat, s: Name, i: nat)
    requires HoldsString(img, right, s) && i <= |s|
    ensures right + i < |img| && img[right + i] == (s + [0])[i]
  {
    assert img[right..right + |s| + 1][i] == (s + [0])[i];
  }

  lemma SegmentFacts(img: seq<Byte>, v: Input)
    requires Built(img, v)
    ensures Read(img, 32, 8) == 64 && Read(img, 54, 2) == 56 && Read(img, 56, 2) == 2
    ensures Read(img, 64, 4) == 1 && Read(img, 72, 8) == 0 && Read(img, 80, 8) == 0
    ensures Read(img, 120, 4) == 2 && Read(img, 128, 8) == DynamicOff(v)
    ensures 0 < DynamicOff(v) < |img|
  {
    hide *;
    PartsInImage(img, v);
    BuiltIsValid(img, v);
    OffsetsFit(v);
    Ordered(v);
    HeaderReads(img, ShOff(v));
    SegmentReads(img, Padded(v), DynamicOff(v));
  }

  lemma Ordered(v: Input)
    requires Valid(v)
    ensures 0 < HASH_OFF < DynSymOff(v) < DynStrOff(v) < VerSymOff(v) < VerDefOff(v) < TextOff(v) <= DynamicOff(v)
    ensures DynamicOff(v) < ShStrTabOff(v) < ShOff(v) < Padded(v) < TWO64
    ensures VersionOff(v) < TWO32 < TWO64 && NChain(v) < TWO32
  {
    OffsetsFit(v);
  }

  /** First loop: the bias comes from the first loadable segment, the dynamic table from the last
      dynamic one. A fault is None. */
  method FindSegments(img: seq<Byte>, base: nat, ghost v: Input) returns (r: Option<Segments>)
    ensures Mapped(img, v, base) ==> r == Some(Segments(base + DynamicOff(v), base, 0, 0))
  {
    hide Built, Read, DynamicOff, Addr;
    ghost var good := Mapped(img, v, base);
    if good {
      SegmentFacts(img, v);
      AddrOf(base);
      AddrOf(base + DynamicOff(v));
      AddrOf(120);
      AddrOf(176);
    }
    var phoff, phentsize, phnum := Read(img, 32, 8), Read(img, 54, 2), Read(img, 56, 2);
    if phoff < 0 || phentsize < 0 || phnum < 0 {
      return None;
    }
    var program: nat, dynamic: nat, haveLoadBias := phoff, 0, false;
    var loadBias: nat, loadOffset: nat, loadVaddr: nat := 0, 0, 0;
    for index := 0 to phnum
      invariant good ==> program == 64 + 56 * index && haveLoadBias == (index >= 1)
      invariant good && index >= 1 ==> loadBias == base && loadOffset == 0 && loadVaddr == 0
      invariant good ==> dynamic == if index >= 2 then base + DynamicOff(v) else 0
    {
      var kind := Read(img, program, 4);
      var offset := Read(img, program + 8, 8);
      if kind == PT_LOAD && !haveLoadBias {
        var vaddr := Read(img, program + 16, 8);
        if vaddr < 0 {
          return None;
        }
        loadBias, loadOffset, loadVaddr, haveLoadBias := Addr(base + offset - vaddr), offset, vaddr, true;
      } else if kind == PT_DYNAMIC {
        if offset < 0 {
          return None;
        }
        dynamic := Addr(base + offset);
      } else if kind < 0 {
        return None;
      }
      program := Addr(program + phentsize);
    }
    if dynamic == 0 || !haveLoadBias {
      return Some(NoSegments);
    }
    return Some(Segments(dynamic, loadBias, loadOffset, loadVaddr));
  }

  lemma DynamicFacts(img: seq<Byte>, v: Input, k: nat)
    requires Built(img, v) && k < 9
    ensures DynamicOff(v) + 16 * k + 16 <= |img|
    ensures Read(img, DynamicOff(v) + 16 * k, 8) == DynTag(k)
    ensures Read(img, DynamicOff(v) + 16 * k + 8, 8) == DynValue(v, k)
    ensures DynValue(v, k) < |img|
  {
    hide *;
    PartsInImage(img, v);
    BuiltIsValid(img, v);
    Ordered(v);
    DynamicReads(img, v, k);
    DynRoom(v, k);
  }

  lemma DynRoom(v: Input, k: nat)
    requires Valid(v) && k < 9
    ensures DynamicOff(v) + 16 * k + 16 <= Padded(v)
    ensures DynValue(v, k) < Padded(v)
  {
    hide DynStr, Valid, DynStrSize;
    DynStrSizeIs(v);
  }

  /** Second loop: up to the null tag, the last entry of each tag gives its table. */
  method ScanDynamic(img: seq<Byte>, base: nat, dynamic: nat, loadBias: nat, ghost v: Input) returns (r: Option<Tables>)
    ensures Mapped(img, v, base) && dynamic == base + DynamicOff(v) && loadBias == base ==>
              r == Some(Tables(base + DynStrOff(v), base + DynSymOff(v), base + HASH_OFF, base + VerSymOff(v), base + VerDefOff(v)))
  {
    hide Built, Read, DynamicOff, DynSymOff, DynStrOff, VerSymOff, VerDefOff, DynTag, DynValue, DynStr, TablesAfter, SetTable;
    hide Addr, Rel;
    ghost var good := Mapped(img, v, base) && dynamic == base + DynamicOff(v) && loadBias == base;
    var entry := Rel(dynamic, base);
    var t := Tables(0, 0, 0, 0, 0);
    ghost var k := 0;
    if good {
      DynamicFacts(img, v, 0);
      RelOf(base, DynamicOff(v));
      TablesStart(v, base);
    }
    while true
      invariant good ==> k <= 8 && entry == DynamicOff(v) + 16 * k
      invariant good ==> t == TablesAfter(v, base, k)
      decreases |img| - entry
    {
      if good {
        DynamicFacts(img, v, k);
        TablesStep(v, base, k, |img|);
      }
      var tag, value := Read(img, entry, 8), Read(img, entry + 8, 8);
      if tag == 0 {
        if good {
          TablesEnd(v, base, k);
        }
        return Some(t);
      }
      if tag < 0 || value < 0 {
        return None;
      }
      t := SetTable(t, tag, Addr(loadBias + value));
      entry, k := entry + 16, k + 1;
    }
  }

  function SetTable(t: Tables, tag: nat, address: nat): Tables {
    if tag == DT_STRTAB then t.(strings := address)
    else if tag == DT_SYMTAB then t.(symbols := address)
    else if tag == DT_HASH then t.(hash := address)
    else if tag == DT_VERSYM then t.(versions := address)
    else if tag == DT_VERDEF then t.(definitions := address)
    else t
  }

  /** The tables known after `k` dynamic entries of a built image. */
  ghost function TablesAfter(v: Input, base: nat, k: nat): Tables {
    Tables(if k >= 2 then base + DynStrOff(v) else 0, if k >= 1 then base + DynSymOff(v) else 0,
           if k >= 3 then base + HASH_OFF else 0, if k >= 6 then base + VerSymOff(v) else 0,
           if k >= 7 then base + VerDefOff(v) else 0)
  }

  lemma TablesStart(v: Input, base: nat)
    ensures TablesAfter(v, base, 0) == Tables(0, 0, 0, 0, 0)
  {}

  lemma TablesStep(v: Input, base: nat, k: nat, size: nat)
    requires k <= 8 && base + size <= TWO64 && DynValue(v, k) < size
    ensures DynTag(k) != 0 ==>
              k < 8 && SetTable(TablesAfter(v, base, k), DynTag(k), Addr(base + DynValue(v, k))) == TablesAfter(v, base, k + 1)
  {
    hide DynStrOff, DynSymOff, VerSymOff, VerDefOff, DynStr;
  }

  lemma TablesEnd(v: Input, base: nat, k: nat)
    requires k <= 8 && DynTag(k) == 0
    ensures TablesAfter(v, base, k)
         == Tables(base + DynStrOff(v), base + DynSymOff(v), base + HASH_OFF, base + VerSymOff(v), base + VerDefOff(v))
  {}

  lemma VersionFacts(img: seq<Byte>, v: Input)
    requires Built(img, v)
    ensures Read(img, VerDefOff(v) + 2, 2) == 0 && Read(img, VerDefOff(v) + 4, 2) == 2
    ensures Read(img, VerDefOff(v) + 12, 4) == 20 && Read(img, VerDefOff(v) + 20, 4) == VersionOff(v)
    ensures HoldsString(img, DynStrOff(v) + VersionOff(v), v.version) && NulFree(v.version)
    ensures DynStrOff(v) + VersionOff(v) < |img| && VerDefOff(v) < |img|
  {
    hide *;
    PartsInImage(img, v);
    BuiltIsValid(img, v);
    Ordered(v);
    HashFits(v.version);
    VerDefReads(img, VerDefOff(v), VersionOff(v), Hash(v.version));
    StringsHeld(img, v);
    VersionIsString(v);
    StringInside(img, DynStrOff(v) + VersionOff(v), v.version);
  }

  lemma VersionIsString(v: Input)
    requires Valid(v)
    ensures NulFree(v.version) && forall n :: n in v.names ==> NulFree(n)
  {}

  lemma StringInside(img: seq<Byte>, off: nat, s: Name)
    requires HoldsString(img, off, s)
    ensures off < |img|
  {}

  /** Walks the version definitions for the symbol's version index and compares the name of the one
      found. */
  method VersionMatches(img: seq<Byte>, base: nat, definitions: nat, symbolVersion: nat, version: Name, strings: nat, ghost v: Input)
    returns (r: Option<bool>)
    requires NulFree(version)
    ensures && Mapped(img, v, base) && definitions == base + VerDefOff(v) && strings == base + DynStrOff(v)
            && symbolVersion == 2 ==>
              r == Some(version == v.version)
  {
    hide Built, Read, VerDefOff, DynStrOff, VersionOff, HoldsString, NulFree, Rel;
    ghost var good := && Mapped(img, v, base) && definitions == base + VerDefOff(v) && strings == base + DynStrOff(v)
                      && symbolVersion == 2;
    var definition := Rel(definitions, base);
    if good {
      VersionFacts(img, v);
      RelOf(base, VerDefOff(v));
      RelOf(base, DynStrOff(v) + VersionOff(v));
    }
    while true
      invariant good ==> definition == VerDefOff(v)
      decreases |img| - definition
    {
      var flags, index := Read(img, definition + 2, 2), Read(img, definition + 4, 2);
      if flags < 0 || index < 0 {
        return None;
      }
      if flags % 2 == 0 && index % 0x8000 == symbolVersion % 0x8000 {
        var aux := Read(img, definition + 12, 4);
        if aux < 0 {
          return None;
        }
        var name := Read(img, definition + aux, 4);
        if name < 0 {
          return None;
        }
        assert good ==> strings + name == base + (DynStrOff(v) + VersionOff(v));
        r := StringEqual(img, version, Rel(strings + name, base), v.version);
        return;
      }
      var next := Read(img, definition + 16, 4);
      if next < 0 {
        return None;
      }
      if next == 0 {
        return Some(false);
      }
      definition := definition + next;
    }
  }

  /** What resolving `name` at `version` in the image of `v` mapped at `base` has to give. */
  ghost function Expected(v: Input, base: nat, name: Name, version: Name): Resolved {
    if version == v.version && name in v.names && FindSymbol(v.symbols, name).Some? then
      var value := TextOff(v) + FindSymbol(v.symbols, name).value.address;
      Found(Addr(base + value), value, base, 0, 0)
    else Missing
  }

  lemma SymbolFacts(img: seq<Byte>, v: Input, i: nat)
    requires Built(img, v) && 1 <= i <= |v.names|
    ensures FindSymbol(v.symbols, v.names[i - 1]).Some?
    ensures Read(img, DynSymOff(v) + 24 * i, 4) == NameOff(v, i - 1)
    ensures Read(img, DynSymOff(v) + 24 * i + 6, 2) == 1
    ensures Read(img, DynSymOff(v) + 24 * i + 8, 8) == TextOff(v) + FindSymbol(v.symbols, v.names[i - 1]).value.address
    ensures HoldsString(img, DynStrOff(v) + NameOff(v, i - 1), v.names[i - 1]) && NulFree(v.names[i - 1])
    ensures DynStrOff(v) + NameOff(v, i - 1) < |img|
    ensures Read(img, VerSymOff(v) + 2 * i, 2) == 2
    ensures DynSymOff(v) + 24 * i < |img| && VerSymOff(v) + 2 * i < |img|
  {
    hide *;
    PartsInImage(img, v);
    BuiltIsValid(img, v);
    SymbolPlaced(v, i - 1);
    SymbolReads(img, v, i);
    VersionReads(img, v, i);
    StringsHeld(img, v);
    VersionIsString(v);
    StringInside(img, DynStrOff(v) + NameOff(v, i - 1), v.names[i - 1]);
    TablesInside(v, i);
  }

  lemma TablesInside(v: Input, i: nat)
    requires Valid(v) && i <= |v.names|
    ensures DynSymOff(v) + 24 * i < Padded(v) && VerSymOff(v) + 2 * i < Padded(v)
  {
    hide DynStr;
  }

  lemma TableFacts(img: seq<Byte>, v: Input)
    requires Built(img, v)
    ensures Read(img, HASH_OFF + 4, 4) == |v.names| + 1
    ensures 0 < HASH_OFF < DynSymOff(v) < DynStrOff(v) < VerSymOff(v) < VerDefOff(v) < |img| < TWO64
    ensures HASH_OFF + 4 < |img|
  {
    hide *;
    PartsInImage(img, v);
    BuiltIsValid(img, v);
    Ordered(v);
    Counts(v);
    CountWords(v);
    HashReads(img, v, 1);
  }

  lemma Counts(v: Input)
    requires DynSymOff(v) < Padded(v)
    ensures NChain(v) == |v.names| + 1 && HASH_OFF + 4 < Padded(v)
  {}

  /** The versioned lookup: on a built image it gives the placed address for every exported name at
      the image's version, and nothing for any other name or version. */
  method FindVersionedSymbol(img: seq<Byte>, base: nat, name: Name, version: Name, ghost v: Input) returns (r: Resolved)
    requires NulFree(name) && NulFree(version)
    ensures Mapped(img, v, base) ==> r == Expected(v, base, name, version)
  {
    hide Built, Read, DynamicOff, DynSymOff, DynStrOff, VerSymOff, VerDefOff, HoldsString, NulFree, Rel;
    var segments := FindSegments(img, base, v);
    if segments.None? {
      return Fault;
    }
    if segments.value.NoSegments? {
      return Missing;
    }
    var seg := segments.value;
    var tables := ScanDynamic(img, base, seg.dynamic, seg.loadBias, v);
    if tables.None? {
      return Fault;
    }
    var t := tables.value;
    if Mapped(img, v, base) {
      TableFacts(img, v);
    }
    if t.strings == 0 || t.symbols == 0 || t.hash == 0 || t.versions == 0 || t.definitions == 0 {
      return Missing;
    }
    r := ScanSymbols(img, base, seg, t, name, version, v);
  }

  method ScanSymbols(img: seq<Byte>, base: nat, seg: Segments, t: Tables, name: Name, version: Name, ghost v: Input)
    returns (r: Resolved)
    requires NulFree(name) && NulFree(version) && seg.Segments?
    ensures && Mapped(img, v, base) && seg == Segments(base + DynamicOff(v), base, 0, 0)
            && t == Tables(base + DynStrOff(v), base + DynSymOff(v), base + HASH_OFF, base + VerSymOff(v), base + VerDefOff(v)) ==>
              r == Expected(v, base, name, version)
  {
    hide Built, Read, DynamicOff, DynSymOff, DynStrOff, VerSymOff, VerDefOff, HoldsString, NulFree, Rel, NameOff, TextOff;
    hide FindSymbol, Addr;
    ghost var good := && Mapped(img, v, base) && seg == Segments(base + DynamicOff(v), base, 0, 0)
                      && t == Tables(base + DynStrOff(v), base + DynSymOff(v), base + HASH_OFF, base + VerSymOff(v), base + VerDefOff(v));
    if good {
      TableFacts(img, v);
      RelOf(base, HASH_OFF + 4);
    }
    assert good ==> t.hash + 4 == base + (HASH_OFF + 4);
    var nchain := Read(img, Rel(t.hash + 4, base), 4);
    if nchain < 0 {
      return Fault;
    }
    var index := 1;
    while index < nchain
      invariant 1 <= index
      invariant good ==> index <= |v.names| + 1 && (version == v.version ==> name !in v.names[..index - 1])
    {
      ghost var i := index - 1;
      if good {
        SymbolFacts(img, v, index);
        RelOf(base, DynSymOff(v) + 24 * index);
        RelOf(base, VerSymOff(v) + 2 * index);
        RelOf(base, DynStrOff(v) + NameOff(v, i));
        assert v.names[..index] == v.names[..i] + [v.names[i]];
      }
      assert good ==> t.symbols + 24 * index == base + (DynSymOff(v) + 24 * index);
      assert good ==> t.versions + 2 * index == base + (VerSymOff(v) + 2 * index);
      var symbol := Rel(t.symbols + 24 * index, base);
      var nameOff, shndx := Read(img, symbol, 4), Read(img, symbol + 6, 2);
      if nameOff < 0 || shndx < 0 {
        return Fault;
      }
      if shndx != 0 {
        assert good ==> t.strings + nameOff == base + (DynStrOff(v) + NameOff(v, i));
        var same := StringEqual(img, name, Rel(t.strings + nameOff, base), if good then v.names[i] else []);
        if same.None? {
          return Fault;
        }
        if same.value {
          var symbolVersion := Read(img, Rel(t.versions + 2 * index, base), 2);
          if symbolVersion < 0 {
            return Fault;
          }
          var matches := VersionMatches(img, base, t.definitions, symbolVersion, version, t.strings, v);
          if matches.None? {
            return Fault;
          }
          if matches.value {
            var value := Read(img, symbol + 8, 8);
            if value < 0 {
              return Fault;
            }
            return Found(Addr(seg.loadBias + value), value, seg.loadBias, seg.loadOffset, seg.loadVaddr);
          }
        }
      }
      index := index + 1;
    }
    assert good ==> v.names[..|v.names|] == v.names;
    return Missing;
  }

  datatype TextSection = TextFault | NoText | Text(offset: nat, vaddr: nat)

  const DOT_TEXT: Name := [46, 116, 101, 120, 116]
  const DOT_SHSTRTAB: Name := [46, 115, 104, 115, 116, 114, 116, 97, 98]

  lemma SectionFacts(img: seq<Byte>, v: Input)
    requires Built(img, v)
    ensures Read(img, 40, 8) == ShOff(v) && Read(img, 58, 2) == 64 && Read(img, 60, 2) == 3 && Read(img, 62, 2) == 2
    ensures 0 < ShOff(v)
    ensures Read(img, ShOff(v) + 4, 4) == 0
    ensures Read(img, ShOff(v) + 64, 4) == 1 && Read(img, ShOff(v) + 68, 4) == 1
    ensures Read(img, ShOff(v) + 80, 8) == TextOff(v) && Read(img, ShOff(v) + 88, 8) == TextOff(v)
    ensures Read(img, ShOff(v) + 132, 4) == 3 && Read(img, ShOff(v) + 152, 8) == ShStrTabOff(v)
    ensures HoldsString(img, ShStrTabOff(v) + 1, DOT_TEXT)
  {
    hide *;
    PartsInImage(img, v);
    BuiltIsValid(img, v);
    Ordered(v);
    HeaderReads(img, ShOff(v));
    TextFits(v);
    SectionTableReads(img, ShOff(v), TextOff(v), |v.text|, ShStrTabOff(v));
    TextName(img, ShStrTabOff(v));
  }

  lemma TextName(img: seq<Byte>, off: nat)
    requires Holds(img, off, SHSTRTAB)
    ensures HoldsString(img, off + 1, DOT_TEXT) && HoldsString(img, off + 7, DOT_SHSTRTAB)
  {
    HoldsWithin(img, off, SHSTRTAB, 1, DOT_TEXT + [0]);
    HoldsWithin(img, off, SHSTRTAB, 7, DOT_SHSTRTAB + [0]);
  }

  /** The text section of a built image starts at the layout's text offset, in file and memory. */
  method FindTextSection(img: seq<Byte>, ghost v: Input) returns (r: TextSection)
    ensures Built(img, v) ==> r == Text(TextOff(v), TextOff(v))
  {
    hide Built, Read, ShOff, ShStrTabOff, TextOff, HoldsString;
    ghost var good := Built(img, v);
    if good {
      SectionFacts(img, v);
    }
    var shoff, shentsize, shnum, shstrndx := Read(img, 40, 8), Read(img, 58, 2), Read(img, 60, 2), Read(img, 62, 2);
    if shoff < 0 || shentsize < 0 || shnum < 0 || shstrndx < 0 {
      return TextFault;
    }
    if shoff == 0 || shentsize != 64 || shnum == 0 || shstrndx >= shnum {
      return NoText;
    }
    var strings := shoff + 64 * shstrndx;
    var stringsKind := Read(img, strings + 4, 4);
    if stringsKind < 0 {
      return TextFault;
    }
    if stringsKind != 3 {
      return NoText;
    }
    var names := Read(img, strings + 24, 8);
    if names < 0 {
      return TextFault;
    }
    for index := 0 to shnum
      invariant good ==> index <= 1
    {
      var section := shoff + 64 * index;
      var name, kind := Read(img, section, 4), Read(img, section + 4, 4);
      if name < 0 || kind < 0 {
        return TextFault;
      }
      if kind == 1 {
        var same := StringEqual(img, DOT_TEXT, names + name, DOT_TEXT);
        if same.None? {
          return TextFault;
        }
        if same.value {
          var offset, addr := Read(img, section + 24, 8), Read(img, section + 16, 8);
          if offset < 0 || addr < 0 {
            return TextFault;
          }
          return Text(offset, addr);
        }
      }
    }
    return NoText;
  }
}
