/** Where everything a loader looks at lies in the built image. */
module VdsoFields {
  import opened Options
  import opened Bytes
  import opened Layout
  import opened SysvHash
  import opened VdsoImage

  /** The image of a valid, buildable input. */
  ghost predicate Built(img: seq<Byte>, v: Input) {
    Valid(v) && Buildable(v) && img == Image(v)
  }

  lemma StartZero(parts: seq<seq<Byte>>)
    ensures Start(parts, 0) == 0
  {}

  lemma StartStep(parts: seq<seq<Byte>>, k: nat)
    requires k < |parts|
    ensures Start(parts, k + 1) == Start(parts, k) + |parts[k]|
  {}

  /** Field offsets of the ELF header. */
  lemma HeaderStarts(shoff: nat)
    ensures var p := HeaderFields(shoff);
            && Start(p, 0) == 0 && Start(p, 1) == 8 && Start(p, 2) == 16 && Start(p, 3) == 18 && Start(p, 4) == 20 && Start(p, 5) == 24
            && Start(p, 6) == 32 && Start(p, 7) == 40 && Start(p, 8) == 48 && Start(p, 9) == 52
            && Start(p, 10) == 54 && Start(p, 11) == 56
            && Start(p, 12) == 58 && Start(p, 13) == 60 && Start(p, 14) == 62 && |Join(p)| == 64
  {
    hide Join, Start, Le;
    var p := HeaderFields(shoff);
    StartZero(p);
    StartStep(p, 0);
    StartStep(p, 1);
    StartStep(p, 2);
    StartStep(p, 3);
    StartStep(p, 4);
    StartStep(p, 5);
    StartStep(p, 6);
    StartStep(p, 7);
    StartStep(p, 8);
    StartStep(p, 9);
    StartStep(p, 10);
    StartStep(p, 11);
    StartStep(p, 12);
    StartStep(p, 13);
    StartStep(p, 14);
    JoinLength(p);
  }

  lemma ProgramStarts(kind: nat, flags: nat, offset: nat, size: nat, alignment: nat)
    ensures var p := ProgramFields(kind, flags, offset, size, alignment);
            && Start(p, 0) == 0 && Start(p, 1) == 4 && Start(p, 2) == 8 && Start(p, 3) == 16 && Start(p, 4) == 24
            && Start(p, 5) == 32 && Start(p, 6) == 40 && Start(p, 7) == 48 && |Join(p)| == 56
  {
    hide Join, Start, Le;
    var p := ProgramFields(kind, flags, offset, size, alignment);
    StartZero(p);
    StartStep(p, 0);
    StartStep(p, 1);
    StartStep(p, 2);
    StartStep(p, 3);
    StartStep(p, 4);
    StartStep(p, 5);
    StartStep(p, 6);
    StartStep(p, 7);
    JoinLength(p);
  }

  lemma SymStarts(nameOff: nat, value: nat, size: nat)
    ensures var p := SymFields(nameOff, value, size);
            && Start(p, 0) == 0 && Start(p, 1) == 4 && Start(p, 2) == 5 && Start(p, 3) == 6 && Start(p, 4) == 8
            && Start(p, 5) == 16 && |Join(p)| == 24
  {
    hide Join, Start, Le;
    var p := SymFields(nameOff, value, size);
    StartZero(p);
    StartStep(p, 0);
    StartStep(p, 1);
    StartStep(p, 2);
    StartStep(p, 3);
    StartStep(p, 4);
    StartStep(p, 5);
    JoinLength(p);
  }

  lemma VerDefStarts(versionOff: nat, hash: nat)
    ensures var p := VerDefFields(versionOff, hash);
            && Start(p, 0) == 0 && Start(p, 1) == 2 && Start(p, 2) == 4 && Start(p, 3) == 6 && Start(p, 4) == 8
            && Start(p, 5) == 12 && Start(p, 6) == 16 && Start(p, 7) == 20 && Start(p, 8) == 24 && |Join(p)| == 28
  {
    hide Join, Start, Le;
    var p := VerDefFields(versionOff, hash);
    StartZero(p);
    StartStep(p, 0);
    StartStep(p, 1);
    StartStep(p, 2);
    StartStep(p, 3);
    StartStep(p, 4);
    StartStep(p, 5);
    StartStep(p, 6);
    StartStep(p, 7);
    StartStep(p, 8);
    JoinLength(p);
  }

  lemma SectionStarts(name: nat, kind: nat, flags: nat, offset: nat, size: nat, alignment: nat)
    ensures var p := SectionFields(name, kind, flags, offset, size, alignment);
            && Start(p, 0) == 0 && Start(p, 1) == 4 && Start(p, 2) == 8 && Start(p, 3) == 16 && Start(p, 4) == 24
            && Start(p, 5) == 32 && Start(p, 6) == 40 && Start(p, 7) == 44 && Start(p, 8) == 48 && Start(p, 9) == 56
            && |Join(p)| == 64
  {
    hide Join, Start, Le;
    var p := SectionFields(name, kind, flags, offset, size, alignment);
    StartZero(p);
    StartStep(p, 0);
    StartStep(p, 1);
    StartStep(p, 2);
    StartStep(p, 3);
    StartStep(p, 4);
    StartStep(p, 5);
    StartStep(p, 6);
    StartStep(p, 7);
    StartStep(p, 8);
    StartStep(p, 9);
    JoinLength(p);
  }

  lemma DynamicStarts(a: nat, b: nat, c: nat, d: nat, e: nat, f: nat, k: nat)
    requires k <= 18
    ensures var p := DynamicFields(a, b, c, d, e, f);
            |p| == 18 && Start(p, k) == 8 * k && |Join(p)| == 144
  {
    hide Join, Start, Le;
    var p := DynamicFields(a, b, c, d, e, f);
    UniformStart(p, 8, k);
    UniformStart(p, 8, 18);
    JoinLength(p);
  }

  /** The two program headers and the three section headers are equal rows. */
  lemma RowStarts(padded: nat, dynamicOff: nat, textOff: nat, textSize: nat, shstrtabOff: nat)
    ensures var p := ProgramRows(padded, dynamicOff);
            |p| == 2 && Start(p, 0) == 0 && Start(p, 1) == 56 && |Join(p)| == 112
    ensures var p := SectionRows(textOff, textSize, shstrtabOff);
            |p| == 3 && Start(p, 0) == 0 && Start(p, 1) == 64 && Start(p, 2) == 128 && |Join(p)| == 192
  {
    hide Join, Start, ProgramFields, SectionFields;
    ProgramStarts(1, 5, 0, padded, PAGE_SIZE);
    ProgramStarts(2, 4, dynamicOff, 144, 8);
    var p := ProgramRows(padded, dynamicOff);
    UniformStart(p, 56, 0);
    UniformStart(p, 56, 1);
    UniformStart(p, 56, 2);
    JoinLength(p);
    SectionStarts(1, 1, 6, textOff, textSize, 8);
    SectionStarts(7, 3, 0, shstrtabOff, 17, 1);
    var q := SectionRows(textOff, textSize, shstrtabOff);
    UniformStart(q, 64, 0);
    UniformStart(q, 64, 1);
    UniformStart(q, 64, 2);
    UniformStart(q, 64, 3);
    JoinLength(q);
  }

  lemma TableSizes(v: Input)
    requires v.nbucket > 0 && Buildable(v)
    ensures |Join(Words(HashWords(v)))| == (2 + v.nbucket + NChain(v)) * 4
    ensures |Join(SymRows(v))| == NChain(v) * 24
    ensures |Join(VerRows(v))| == NChain(v) * 2
  {
    hide Join, Start, Buckets, Chains, Le, SymRow, Buildable;
    var words := Words(HashWords(v));
    JoinLength(words);
    UniformStart(words, 4, |words|);
    RowWidths(v);
    var rows := SymRows(v);
    JoinLength(rows);
    UniformStart(rows, 24, |rows|);
    var vers := VerRows(v);
    JoinLength(vers);
    UniformStart(vers, 2, |vers|);
  }

  lemma RowWidths(v: Input)
    requires Buildable(v)
    ensures forall i :: 0 <= i < |SymRows(v)| ==> |SymRows(v)[i]| == 24
  {
    hide SymFields, Join, NameOff, TextOff;
    forall i | 0 <= i < |SymRows(v)| ensures |SymRows(v)[i]| == 24 {
      if i > 0 {
        assert SymbolOk(v, i - 1);
        var s := FindSymbol(v.symbols, v.names[i - 1]).value;
        SymStarts(NameOff(v, i - 1), TextOff(v) + s.address, s.size);
      }
    }
  }

  lemma PartSizes(v: Input)
    requires v.nbucket > 0 && Buildable(v)
    ensures var p := Parts(v);
            && |p| == 14
            && |p[0]| == 64 && |p[1]| == 112 && |p[2]| == (2 + v.nbucket + NChain(v)) * 4
            && |p[3]| == NChain(v) * 24 && |p[4]| == |DynStr(v)| && |p[5]| == NChain(v) * 2 && |p[6]| == 28
            && |p[7]| == TextOff(v) - (VerDefOff(v) + 28) && |p[8]| == |v.text| && |p[9]| == 144 && |p[10]| == 17
            && |p[11]| == ShOff(v) - (ShStrTabOff(v) + 17) && |p[12]| == 192 && |p[13]| == Padded(v) - Total(v)
  {
    hide Join, HeaderFields, ProgramRows, VerDefFields, DynamicFields, SectionRows, HashWords, SymRows, VerRows;
    hide DynStr, Words, Buildable, VersionOff, Hash, Padded, ShOff, TextOff, VerDefOff, DynSymOff, DynStrOff, VerSymOff;
    hide Start;
    HeaderStarts(ShOff(v));
    RowStarts(Padded(v), DynamicOff(v), TextOff(v), |v.text|, ShStrTabOff(v));
    VerDefStarts(VersionOff(v), Hash(v.version));
    DynamicStarts(DynSymOff(v), DynStrOff(v), HASH_OFF, |DynStr(v)|, VerSymOff(v), VerDefOff(v), 0);
    TableSizes(v);
  }

  lemma PartStarts(v: Input)
    requires v.nbucket > 0 && Buildable(v)
    ensures var p := Parts(v);
            && |p| == 14
            && Start(p, 0) == 0 && Start(p, 1) == 64 && Start(p, 2) == HASH_OFF && Start(p, 3) == DynSymOff(v)
            && Start(p, 4) == DynStrOff(v) && Start(p, 5) == VerSymOff(v) && Start(p, 6) == VerDefOff(v)
            && Start(p, 8) == TextOff(v) && Start(p, 9) == DynamicOff(v) && Start(p, 10) == ShStrTabOff(v)
            && Start(p, 12) == ShOff(v) && Start(p, 13) == Total(v) && Start(p, 14) == Padded(v)
  {
    hide Parts, Start, DynStr, Buildable, DynStrSize;
    PartSizes(v);
    DynStrSizeIs(v);
    var p := Parts(v);
    StartZero(p);
    StartStep(p, 0);
    StartStep(p, 1);
    StartStep(p, 2);
    StartStep(p, 3);
    StartStep(p, 4);
    StartStep(p, 5);
    StartStep(p, 6);
    StartStep(p, 7);
    StartStep(p, 8);
    StartStep(p, 9);
    StartStep(p, 10);
    StartStep(p, 11);
    StartStep(p, 12);
    StartStep(p, 13);
  }

  /** The tables lie at the offsets the layout names, and the image has the padded size. */
  lemma PartsInImage(img: seq<Byte>, v: Input)
    requires Built(img, v)
    ensures |img| == Padded(v)
    ensures Holds(img, 0, Join(HeaderFields(ShOff(v))))
    ensures Holds(img, 64, Join(ProgramRows(Padded(v), DynamicOff(v))))
    ensures Holds(img, HASH_OFF, Join(Words(HashWords(v))))
    ensures Holds(img, DynSymOff(v), Join(SymRows(v)))
    ensures Holds(img, DynStrOff(v), DynStr(v))
    ensures Holds(img, VerSymOff(v), Join(VerRows(v)))
    ensures Holds(img, VerDefOff(v), Join(VerDefFields(VersionOff(v), Hash(v.version))))
    ensures Holds(img, TextOff(v), v.text)
    ensures Holds(img, DynamicOff(v),
                  Join(DynamicFields(DynSymOff(v), DynStrOff(v), HASH_OFF, |DynStr(v)|, VerSymOff(v), VerDefOff(v))))
    ensures Holds(img, ShStrTabOff(v), SHSTRTAB)
    ensures Holds(img, ShOff(v), Join(SectionRows(TextOff(v), |v.text|, ShStrTabOff(v))))
  {
    hide Join, Start, Holds, HeaderFields, ProgramRows, VerDefFields, DynamicFields, SectionRows;
    hide HashWords, SymRows, VerRows, DynStr, Words, Buildable, VersionOff, Hash, Padded, ShOff, DynamicOff;
    hide TextOff, ShStrTabOff, VerSymOff, VerDefOff, DynSymOff, DynStrOff;
    var p := Parts(v);
    PartStarts(v);
    JoinLength(p);
    JoinHolds(p, 0);
    JoinHolds(p, 1);
    JoinHolds(p, 2);
    JoinHolds(p, 3);
    JoinHolds(p, 4);
    JoinHolds(p, 5);
    JoinHolds(p, 6);
    JoinHolds(p, 8);
    JoinHolds(p, 9);
    JoinHolds(p, 10);
    JoinHolds(p, 12);
  }

  lemma FieldRead(img: seq<Byte>, off: nat, fields: seq<seq<Byte>>, k: nat, value: nat, width: nat)
    requires Holds(img, off, Join(fields)) && k < |fields| && fields[k] == Le(value, width) && value < Pow256(width)
    ensures Read(img, off + Start(fields, k), width) == value
  {
    hide Join, Start, Le, Holds, Pow256, Read;
    JoinHolds(fields, k);
    HoldsWithin(img, off, Join(fields), Start(fields, k), fields[k]);
    ReadHeld(img, off + Start(fields, k), value, width);
  }

  /** A 64-bit little-endian ELF file for GNU/Linux. */
  ghost predicate Identified(img: seq<Byte>) { Holds(img, 0, [0x7f, 0x45, 0x4c, 0x46, 2, 1, 1, 3]) && Holds(img, 8, Zeros(8)) }

  lemma IdentHeld(img: seq<Byte>, shoff: nat)
    requires Holds(img, 0, Join(HeaderFields(shoff)))
    ensures Identified(img)
  {
    hide Join, Start, Le, Holds;
    HeaderStarts(shoff);
    var p := HeaderFields(shoff);
    JoinHolds(p, 0);
    HoldsWithin(img, 0, Join(p), 0, p[0]);
    JoinHolds(p, 1);
    HoldsWithin(img, 0, Join(p), 8, p[1]);
  }

  /** Every field of the ELF header: identification, a shared RISC-V object, and where its tables are. */
  lemma HeaderReads(img: seq<Byte>, shoff: nat)
    requires Holds(img, 0, Join(HeaderFields(shoff))) && shoff < TWO64
    ensures Identified(img)
    ensures Read(img, 16, 2) == 3 && Read(img, 18, 2) == 243 && Read(img, 20, 4) == 1 && Read(img, 24, 8) == 0
    ensures Read(img, 32, 8) == 64 && Read(img, 40, 8) == shoff && Read(img, 48, 4) == 0 && Read(img, 52, 2) == 64
    ensures Read(img, 54, 2) == 56 && Read(img, 56, 2) == 2
    ensures Read(img, 58, 2) == 64 && Read(img, 60, 2) == 3 && Read(img, 62, 2) == 2
  {
    hide Join, Start, Le, Holds, Read, Pow256, Identified;
    HeaderStarts(shoff);
    Pow256Values();
    var p := HeaderFields(shoff);
    IdentHeld(img, shoff);
    FieldRead(img, 0, p, 2, 3, 2);
    FieldRead(img, 0, p, 3, 243, 2);
    FieldRead(img, 0, p, 4, 1, 4);
    FieldRead(img, 0, p, 5, 0, 8);
    FieldRead(img, 0, p, 6, 64, 8);
    FieldRead(img, 0, p, 7, shoff, 8);
    FieldRead(img, 0, p, 8, 0, 4);
    FieldRead(img, 0, p, 9, 64, 2);
    FieldRead(img, 0, p, 10, 56, 2);
    FieldRead(img, 0, p, 11, 2, 2);
    FieldRead(img, 0, p, 12, 64, 2);
    FieldRead(img, 0, p, 13, 3, 2);
    FieldRead(img, 0, p, 14, 2, 2);
  }

  lemma ProgramReads(img: seq<Byte>, off: nat, kind: nat, flags: nat, offset: nat, size: nat, alignment: nat)
    requires Holds(img, off, Join(ProgramFields(kind, flags, offset, size, alignment)))
    requires kind < TWO32 && flags < TWO32 && offset < TWO64 && size < TWO64 && alignment < TWO64
    ensures Read(img, off, 4) == kind && Read(img, off + 4, 4) == flags
    ensures Read(img, off + 8, 8) == offset && Read(img, off + 16, 8) == offset && Read(img, off + 24, 8) == offset
    ensures Read(img, off + 32, 8) == size && Read(img, off + 40, 8) == size && Read(img, off + 48, 8) == alignment
  {
    hide Join, Start, Le, Holds, Read, Pow256;
    ProgramStarts(kind, flags, offset, size, alignment);
    Pow256Values();
    var p := ProgramFields(kind, flags, offset, size, alignment);
    FieldRead(img, off, p, 0, kind, 4);
    FieldRead(img, off, p, 1, flags, 4);
    FieldRead(img, off, p, 2, offset, 8);
    FieldRead(img, off, p, 3, offset, 8);
    FieldRead(img, off, p, 4, offset, 8);
    FieldRead(img, off, p, 5, size, 8);
    FieldRead(img, off, p, 6, size, 8);
    FieldRead(img, off, p, 7, alignment, 8);
  }

  /** The loadable segment maps the whole image at its base, readable and executable; the dynamic segment is the
      dynamic table. */
  lemma SegmentReads(img: seq<Byte>, padded: nat, dynamicOff: nat)
    requires Holds(img, 64, Join(ProgramRows(padded, dynamicOff))) && dynamicOff < TWO64 && padded < TWO64
    ensures Read(img, 64, 4) == 1 && Read(img, 68, 4) == 5 && Read(img, 72, 8) == 0 && Read(img, 80, 8) == 0 && Read(img, 88, 8) == 0
    ensures Read(img, 96, 8) == padded && Read(img, 104, 8) == padded && Read(img, 112, 8) == PAGE_SIZE
    ensures Read(img, 120, 4) == 2 && Read(img, 124, 4) == 4
    ensures Read(img, 128, 8) == dynamicOff && Read(img, 136, 8) == dynamicOff && Read(img, 144, 8) == dynamicOff
    ensures Read(img, 152, 8) == 144 && Read(img, 160, 8) == 144 && Read(img, 168, 8) == 8
  {
    hide Join, Start, Holds, Read, ProgramFields;
    RowStarts(padded, dynamicOff, 0, 0, 0);
    var p := ProgramRows(padded, dynamicOff);
    JoinHolds(p, 0);
    JoinHolds(p, 1);
    HoldsWithin(img, 64, Join(p), 0, p[0]);
    HoldsWithin(img, 64, Join(p), 56, p[1]);
    ProgramReads(img, 64, 1, 5, 0, padded, PAGE_SIZE);
    ProgramReads(img, 120, 2, 4, dynamicOff, 144, 8);
  }

  lemma SectionReads(img: seq<Byte>, off: nat, name: nat, kind: nat, flags: nat, offset: nat, size: nat, alignment: nat)
    requires Holds(img, off, Join(SectionFields(name, kind, flags, offset, size, alignment)))
    requires name < TWO32 && kind < TWO32 && flags < TWO64 && offset < TWO64 && size < TWO64 && alignment < TWO64
    ensures Read(img, off, 4) == name && Read(img, off + 4, 4) == kind && Read(img, off + 8, 8) == flags
    ensures Read(img, off + 16, 8) == offset && Read(img, off + 24, 8) == offset && Read(img, off + 32, 8) == size
    ensures Read(img, off + 40, 4) == 0 && Read(img, off + 44, 4) == 0
    ensures Read(img, off + 48, 8) == alignment && Read(img, off + 56, 8) == 0
  {
    hide Join, Start, Le, Holds, Read, Pow256;
    SectionStarts(name, kind, flags, offset, size, alignment);
    Pow256Values();
    var p := SectionFields(name, kind, flags, offset, size, alignment);
    FieldRead(img, off, p, 0, name, 4);
    FieldRead(img, off, p, 1, kind, 4);
    FieldRead(img, off, p, 2, flags, 8);
    FieldRead(img, off, p, 3, offset, 8);
    FieldRead(img, off, p, 4, offset, 8);
    FieldRead(img, off, p, 5, size, 8);
    FieldRead(img, off, p, 6, 0, 4);
    FieldRead(img, off, p, 7, 0, 4);
    FieldRead(img, off, p, 8, alignment, 8);
    FieldRead(img, off, p, 9, 0, 8);
  }

  /** Section 0 is empty; section 1 is the text, allocated and executable, aligned to eight; section 2 holds the
      section names. */
  lemma SectionTableReads(img: seq<Byte>, shoff: nat, textOff: nat, textSize: nat, shstrtabOff: nat)
    requires Holds(img, shoff, Join(SectionRows(textOff, textSize, shstrtabOff)))
    requires textOff < TWO64 && shstrtabOff < TWO64 && textSize < TWO64
    ensures Holds(img, shoff, Zeros(64)) && Read(img, shoff + 4, 4) == 0
    ensures Read(img, shoff + 64, 4) == 1 && Read(img, shoff + 68, 4) == 1 && Read(img, shoff + 72, 8) == 6
    ensures Read(img, shoff + 80, 8) == textOff && Read(img, shoff + 88, 8) == textOff
    ensures Read(img, shoff + 96, 8) == textSize && Read(img, shoff + 112, 8) == 8
    ensures Read(img, shoff + 128, 4) == 7 && Read(img, shoff + 132, 4) == 3 && Read(img, shoff + 136, 8) == 0
    ensures Read(img, shoff + 144, 8) == shstrtabOff && Read(img, shoff + 152, 8) == shstrtabOff
    ensures Read(img, shoff + 160, 8) == 17 && Read(img, shoff + 176, 8) == 1
  {
    hide Join, Start, Holds, SectionFields;
    RowStarts(0, 0, textOff, textSize, shstrtabOff);
    var p := SectionRows(textOff, textSize, shstrtabOff);
    JoinHolds(p, 0);
    JoinHolds(p, 1);
    JoinHolds(p, 2);
    HoldsWithin(img, shoff, Join(p), 0, p[0]);
    HoldsWithin(img, shoff, Join(p), 64, p[1]);
    HoldsWithin(img, shoff, Join(p), 128, p[2]);
    ZeroRead(img, shoff, 64, 4);
    hide Read;
    SectionReads(img, shoff + 64, 1, 1, 6, textOff, textSize, 8);
    SectionReads(img, shoff + 128, 7, 3, 0, shstrtabOff, 17, 1);
  }

  lemma ZeroRead(img: seq<Byte>, off: nat, n: nat, at: nat)
    requires Holds(img, off, Zeros(n)) && at + 4 <= n
    ensures Read(img, off + at, 4) == 0
  {
    var s := img[off + at..off + at + 4];
    forall i | 0 <= i < 4 ensures s[i] == 0 {
      assert img[off..off + n][at + i] == Zeros(n)[at + i];
    }
    assert FromLe(s[3..]) == s[3] + 256 * FromLe(s[3..][1..]);
    assert s[3..] == s[2..][1..] && s[2..] == s[1..][1..];
    assert FromLe(s[2..]) == 0;
    assert FromLe(s[1..]) == 0;
  }

  ghost function DynTag(k: nat): nat
    requires k < 9
  {
    [6, 5, 4, 10, 11, 0x6fff_fff0, 0x6fff_fffc, 0x6fff_fffd, 0][k]
  }

  ghost function DynValue(v: Input, k: nat): nat
    requires k < 9
  {
    [DynSymOff(v), DynStrOff(v), HASH_OFF, |DynStr(v)|, 24, VerSymOff(v), VerDefOff(v), 1, 0][k]
  }

  lemma DynamicReads(img: seq<Byte>, v: Input, k: nat)
    requires Built(img, v) && k < 9
    ensures Read(img, DynamicOff(v) + 16 * k, 8) == DynTag(k)
    ensures Read(img, DynamicOff(v) + 16 * k + 8, 8) == DynValue(v, k)
  {
    hide *;
    PartsInImage(img, v);
    BuiltIsValid(img, v);
    OffsetsFit(v);
    DynamicTableReads(img, DynamicOff(v), v, k);
  }

  lemma DynamicTableReads(img: seq<Byte>, off: nat, v: Input, k: nat)
    requires k < 9
    requires Holds(img, off,
                   Join(DynamicFields(DynSymOff(v), DynStrOff(v), HASH_OFF, |DynStr(v)|, VerSymOff(v), VerDefOff(v))))
    requires DynSymOff(v) < TWO64 && DynStrOff(v) < TWO64 && |DynStr(v)| < TWO64 && VerSymOff(v) < TWO64 && VerDefOff(v) < TWO64
    ensures Read(img, off + 16 * k, 8) == DynTag(k)
    ensures Read(img, off + 16 * k + 8, 8) == DynValue(v, k)
  {
    hide Join, Start, Le, Holds, Read, Pow256, DynStr, DynSymOff, DynStrOff, VerSymOff, VerDefOff;
    DynamicStarts(DynSymOff(v), DynStrOff(v), HASH_OFF, |DynStr(v)|, VerSymOff(v), VerDefOff(v), 2 * k);
    DynamicStarts(DynSymOff(v), DynStrOff(v), HASH_OFF, |DynStr(v)|, VerSymOff(v), VerDefOff(v), 2 * k + 1);
    Pow256Values();
    var p := DynamicFields(DynSymOff(v), DynStrOff(v), HASH_OFF, |DynStr(v)|, VerSymOff(v), VerDefOff(v));
    FieldRead(img, off, p, 2 * k, DynTag(k), 8);
    FieldRead(img, off, p, 2 * k + 1, DynValue(v, k), 8);
  }

  lemma BuiltIsValid(img: seq<Byte>, v: Input)
    requires Built(img, v)
    ensures Valid(v) && Buildable(v) && v.nbucket > 0 && |DynStr(v)| < TWO64
  {
    hide Image, DynStr;
  }

  lemma SymbolPlaced(v: Input, i: nat)
    requires Buildable(v) && i < |v.names|
    ensures FindSymbol(v.symbols, v.names[i]).Some?
    ensures TextOff(v) + FindSymbol(v.symbols, v.names[i]).value.address < TWO64
  {
    hide TextOff, FindSymbol;
    assert SymbolOk(v, i);
  }

  lemma {:induction false} StartMonotone(parts: seq<seq<Byte>>, j: nat, k: nat)
    requires j <= k <= |parts| && forall i :: 0 <= i < |parts| ==> |parts[i]| > 0
    ensures Start(parts, j) + (k - j) <= Start(parts, k)
    decreases k
  {
    if j < k {
      StartMonotone(parts, j, k - 1);
    }
  }

  lemma StringBounds(v: Input, k: nat)
    requires k <= |v.names| + 1
    ensures Start(StringParts(v), k) < |DynStr(v)|
    ensures |v.names| + 2 <= |DynStr(v)|
  {
    hide Join, Start;
    var parts := StringParts(v);
    JoinLength(parts);
    StartMonotone(parts, 0, |parts|);
    StartMonotone(parts, k, |parts|);
    StartZero(parts);
  }

  lemma TextFits(v: Input)
    requires Valid(v)
    ensures |v.text| < TWO64
  {
    hide DynStr, DynStrSize;
  }

  lemma OffsetsFit(v: Input)
    requires Valid(v)
    ensures 176 < DynSymOff(v) < DynStrOff(v) < VerSymOff(v) < VerDefOff(v) < TextOff(v) <= DynamicOff(v)
    ensures DynamicOff(v) < ShStrTabOff(v) < ShOff(v) < Padded(v) < TWO64
    ensures NChain(v) < TWO32 && VersionOff(v) < TWO32
    ensures forall i :: 0 <= i < |v.names| ==> NameOff(v, i) < TWO32
  {
    hide DynStr, Start, DynStrSize;
    DynStrSizeIs(v);
    StringBounds(v, |v.names| + 1);
    forall i | 0 <= i < |v.names| ensures NameOff(v, i) < TWO32 {
      StringBounds(v, i + 1);
    }
  }

  /** Symbol `i` names its string, is defined, and points at its place in the text. */
  lemma SymbolReads(img: seq<Byte>, v: Input, i: nat)
    requires Built(img, v) && 1 <= i <= |v.names| && FindSymbol(v.symbols, v.names[i - 1]).Some?
    ensures Read(img, DynSymOff(v) + 24 * i, 4) == NameOff(v, i - 1)
    ensures Read(img, DynSymOff(v) + 24 * i + 4, 1) == 0x12 && Read(img, DynSymOff(v) + 24 * i + 5, 1) == 0
    ensures Read(img, DynSymOff(v) + 24 * i + 6, 2) == 1
    ensures Read(img, DynSymOff(v) + 24 * i + 16, 8) == FindSymbol(v.symbols, v.names[i - 1]).value.size
    ensures Read(img, DynSymOff(v) + 24 * i + 8, 8) == TextOff(v) + FindSymbol(v.symbols, v.names[i - 1]).value.address
  {
    hide *;
    BuiltIsValid(img, v);
    OffsetsFit(v);
    SymbolPlaced(v, i - 1);
    SymbolRowHeld(img, v, i);
    var s := FindSymbol(v.symbols, v.names[i - 1]).value;
    SizesFit(v, s);
    SymRowReads(img, DynSymOff(v) + 24 * i, NameOff(v, i - 1), TextOff(v) + s.address, s.size);
  }

  lemma SymRowReads(img: seq<Byte>, off: nat, nameOff: nat, value: nat, size: nat)
    requires Holds(img, off, Join(SymFields(nameOff, value, size))) && nameOff < TWO32 && value < TWO64 && size < TWO64
    ensures Read(img, off, 4) == nameOff && Read(img, off + 6, 2) == 1 && Read(img, off + 8, 8) == value
    ensures Read(img, off + 4, 1) == 0x12 && Read(img, off + 5, 1) == 0 && Read(img, off + 16, 8) == size
  {
    hide Join, Start, Le, Holds, Read, Pow256;
    SymStarts(nameOff, value, size);
    Pow256Values();
    var p := SymFields(nameOff, value, size);
    LeOne(0x12);
    LeOne(0);
    FieldRead(img, off, p, 0, nameOff, 4);
    FieldRead(img, off, p, 1, 0x12, 1);
    FieldRead(img, off, p, 2, 0, 1);
    FieldRead(img, off, p, 5, size, 8);
    FieldRead(img, off, p, 3, 1, 2);
    FieldRead(img, off, p, 4, value, 8);
  }

  lemma LeOne(b: Byte)
    ensures Le(b, 1) == [b]
  {}

  lemma SizesFit(v: Input, s: Symbol)
    requires Valid(v) && s in v.symbols
    ensures s.size < TWO64
  {}

  lemma SymbolRowHeld(img: seq<Byte>, v: Input, i: nat)
    requires Built(img, v) && 1 <= i <= |v.names| && FindSymbol(v.symbols, v.names[i - 1]).Some?
    ensures var s := FindSymbol(v.symbols, v.names[i - 1]).value;
            Holds(img, DynSymOff(v) + 24 * i, Join(SymFields(NameOff(v, i - 1), TextOff(v) + s.address, s.size)))
  {
    hide *;
    PartsInImage(img, v);
    BuiltIsValid(img, v);
    SymTableHolds(img, DynSymOff(v), v, i);
  }

  lemma SymTableHolds(img: seq<Byte>, off: nat, v: Input, i: nat)
    requires Buildable(v) && 1 <= i <= |v.names| && Holds(img, off, Join(SymRows(v)))
    requires FindSymbol(v.symbols, v.names[i - 1]).Some?
    ensures var s := FindSymbol(v.symbols, v.names[i - 1]).value;
            Holds(img, off + 24 * i, Join(SymFields(NameOff(v, i - 1), TextOff(v) + s.address, s.size)))
  {
    hide Join, Start, Holds, SymFields, NameOff, TextOff, FindSymbol;
    RowWidths(v);
    var rows := SymRows(v);
    UniformStart(rows, 24, i);
    JoinHolds(rows, i);
    HoldsWithin(img, off, Join(rows), 24 * i, rows[i]);
  }

  lemma VersionReads(img: seq<Byte>, v: Input, i: nat)
    requires Built(img, v) && 1 <= i <= |v.names|
    ensures Read(img, VerSymOff(v) + 2 * i, 2) == 2
  {
    hide *;
    PartsInImage(img, v);
    VersionTableReads(img, VerSymOff(v), v, i);
  }

  lemma VersionTableReads(img: seq<Byte>, off: nat, v: Input, i: nat)
    requires 1 <= i <= |v.names| && Holds(img, off, Join(VerRows(v)))
    ensures Read(img, off + 2 * i, 2) == 2
  {
    hide Join, Start, Holds, Read, Le, Pow256;
    Pow256Values();
    var rows := VerRows(v);
    UniformStart(rows, 2, i);
    FieldRead(img, off, rows, i, 2, 2);
  }

  /** Every field of the single version definition: structure version 1, not a base definition, index 2, one
      name, its hash, last in its list, and the version string. */
  lemma VerDefReads(img: seq<Byte>, off: nat, versionOff: nat, hash: nat)
    requires Holds(img, off, Join(VerDefFields(versionOff, hash))) && versionOff < TWO32 && hash < TWO32
    ensures Read(img, off, 2) == 1 && Read(img, off + 2, 2) == 0 && Read(img, off + 4, 2) == 2 && Read(img, off + 6, 2) == 1
    ensures Read(img, off + 8, 4) == hash && Read(img, off + 12, 4) == 20 && Read(img, off + 16, 4) == 0
    ensures Read(img, off + 20, 4) == versionOff && Read(img, off + 24, 4) == 0
  {
    hide Join, Start, Le, Holds, Read, Pow256;
    VerDefStarts(versionOff, hash);
    Pow256Values();
    var p := VerDefFields(versionOff, hash);
    FieldRead(img, off, p, 0, 1, 2);
    FieldRead(img, off, p, 1, 0, 2);
    FieldRead(img, off, p, 2, 2, 2);
    FieldRead(img, off, p, 3, 1, 2);
    FieldRead(img, off, p, 4, hash, 4);
    FieldRead(img, off, p, 5, 20, 4);
    FieldRead(img, off, p, 6, 0, 4);
    FieldRead(img, off, p, 7, versionOff, 4);
    FieldRead(img, off, p, 8, 0, 4);
  }

  /** Every word of the hash table: bucket count, symbol count, bucket heads, chain links. */
  lemma HashReads(img: seq<Byte>, v: Input, k: nat)
    requires Built(img, v) && v.nbucket > 0 && k < 2 + v.nbucket + NChain(v)
    ensures Read(img, HASH_OFF + 4 * k, 4) == HashWord(v, k)
  {
    hide *;
    PartsInImage(img, v);
    BuiltIsValid(img, v);
    OffsetsFit(v);
    HashWordFits(v, k);
    HashTableReads(img, HASH_OFF, v, k);
  }

  ghost function HashWord(v: Input, k: nat): (w: nat)
    requires v.nbucket > 0 && k < 2 + v.nbucket + NChain(v)
  {
    if k == 0 then v.nbucket
    else if k == 1 then NChain(v)
    else if k < 2 + v.nbucket then Buckets(v.names, v.nbucket)[k - 2]
    else Chains(v.names, v.nbucket)[k - 2 - v.nbucket]
  }

  lemma HashWordFits(v: Input, k: nat)
    requires Valid(v) && NChain(v) < TWO32 && k < 2 + v.nbucket + NChain(v)
    ensures HashWord(v, k) < TWO32 && |HashWords(v)| == 2 + v.nbucket + NChain(v) && HashWords(v)[k] == HashWord(v, k)
  {
    hide Hash, First, DynStr, Padded;
    if 2 <= k < 2 + v.nbucket {
      BucketEntry(v.names, v.nbucket, k - 2);
    } else if 2 <= k {
      ChainEntry(v.names, v.nbucket, k - 2 - v.nbucket);
    }
  }

  lemma HashTableReads(img: seq<Byte>, off: nat, v: Input, k: nat)
    requires v.nbucket > 0 && Holds(img, off, Join(Words(HashWords(v))))
    requires k < |HashWords(v)| && HashWords(v)[k] < TWO32
    ensures Read(img, off + 4 * k, 4) == HashWords(v)[k]
  {
    hide Join, Start, Holds, Read, Le, HashWords, Pow256;
    Pow256Values();
    var words := Words(HashWords(v));
    UniformStart(words, 4, k);
    FieldRead(img, off, words, k, HashWords(v)[k], 4);
  }

  /** The same walk on the bytes of the image: bucket count, head and links all read from it. It ends, and it
      visits exactly the exported symbols whose name hashes into the bucket, in increasing order. */
  method WalkImage(img: seq<Byte>, b: nat, ghost v: Input) returns (visited: seq<nat>)
    requires Built(img, v) && b < v.nbucket
    ensures forall j :: j in visited <==> 1 <= j <= |v.names| && Hash(v.names[j - 1]) % v.nbucket == b
    ensures forall x, y :: 0 <= x < y < |visited| ==> visited[x] < visited[y]
  {
    hide *;
    ghost var c := Classes(v.names, v.nbucket);
    CountWords(v);
    HashReads(img, v, 0);
    var nbucket := Read(img, HASH_OFF, 4);
    HeadWord(v, b);
    HashReads(img, v, 2 + b);
    var cur := Read(img, HASH_OFF + 4 * (2 + b), 4);
    visited := [];
    WalkStart(v.names, v.nbucket, b);
    while cur != 0
      invariant 0 <= cur && (cur == 0 || (cur < |c| && c[cur] == b))
      invariant Members(c, b, 1) == visited + Ahead(c, b, cur)
      decreases if cur == 0 then 0 else |c| - cur
    {
      ChainEntry(v.names, v.nbucket, cur);
      LinkWord(v, cur);
      HashReads(img, v, 2 + v.nbucket + cur);
      var next := Read(img, HASH_OFF + 4 * (2 + nbucket + cur), 4);
      WalkStep(c, b, visited, cur, next);
      visited := visited + [cur];
      cur := next;
    }
    WalkOver(c, b);
    VisitedIsBucket(v.names, v.nbucket, b, visited);
  }

  lemma CountWords(v: Input)
    requires v.nbucket > 0
    ensures HashWord(v, 0) == v.nbucket && HashWord(v, 1) == NChain(v) == |v.names| + 1
  {}

  lemma HeadWord(v: Input, b: nat)
    requires b < v.nbucket
    ensures HashWord(v, 2 + b) == Buckets(v.names, v.nbucket)[b]
  {}

  lemma LinkWord(v: Input, i: nat)
    requires v.nbucket > 0 && i < NChain(v)
    ensures HashWord(v, 2 + v.nbucket + i) == Chains(v.names, v.nbucket)[i]
  {}

  /** The strings of the string table. */
  lemma StringsHeld(img: seq<Byte>, v: Input)
    requires Built(img, v)
    ensures forall i :: 0 <= i < |v.names| ==> HoldsString(img, DynStrOff(v) + NameOff(v, i), v.names[i])
    ensures HoldsString(img, DynStrOff(v) + VersionOff(v), v.version)
  {
    hide *;
    PartsInImage(img, v);
    StringTableHolds(img, DynStrOff(v), v);
  }

  lemma StringTableHolds(img: seq<Byte>, off: nat, v: Input)
    requires Holds(img, off, DynStr(v))
    ensures forall i :: 0 <= i < |v.names| ==> HoldsString(img, off + NameOff(v, i), v.names[i])
    ensures HoldsString(img, off + VersionOff(v), v.version)
  {
    hide Join, Start, Holds;
    var parts := StringParts(v);
    forall i | 0 <= i < |v.names| ensures HoldsString(img, off + NameOff(v, i), v.names[i]) {
      JoinHolds(parts, i + 1);
      HoldsWithin(img, off, Join(parts), Start(parts, i + 1), parts[i + 1]);
    }
    JoinHolds(parts, |v.names| + 1);
    HoldsWithin(img, off, Join(parts), Start(parts, |v.names| + 1), parts[|v.names| + 1]);
  }
}
