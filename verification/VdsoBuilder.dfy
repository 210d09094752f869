/** The build script's assembly of the image: tables filled in loops, then appended part by part. */
module VdsoBuilder {
  import opened Options
  import opened Bytes
  import opened Layout
  import opened SysvHash
  import opened VdsoImage
  import opened VdsoFields

  method BuildDynStr(v: Input) returns (dynstr: seq<Byte>, offsets: seq<nat>, versionOffset: nat)
    ensures dynstr == DynStr(v)
    ensures |offsets| == |v.names| && forall i :: 0 <= i < |v.names| ==> offsets[i] == NameOff(v, i)
    ensures versionOffset == VersionOff(v)
  {
    hide Join, Start;
    ghost var parts := StringParts(v);
    dynstr, offsets := [0], [];
    FirstPart(parts);
    for i := 0 to |v.names|
      invariant dynstr == Join(parts[..i + 1]) && |dynstr| == Start(parts, i + 1)
      invariant |offsets| == i && forall j :: 0 <= j < i ==> offsets[j] == NameOff(v, j)
    {
      offsets := offsets + [|dynstr|];
      AppendPart(parts, i + 1);
      dynstr := dynstr + v.names[i];
      dynstr := dynstr + [0];
      assert Join(parts[..i + 1]) + v.names[i] + [0] == Join(parts[..i + 1]) + (v.names[i] + [0]);
    }
    versionOffset := |dynstr|;
    AppendPart(parts, |v.names| + 1);
    dynstr := dynstr + v.version;
    dynstr := dynstr + [0];
    assert parts[..|v.names| + 2] == parts;
    assert Join(parts[..|v.names| + 1]) + v.version + [0] == Join(parts[..|v.names| + 1]) + (v.version + [0]);
  }

  lemma FirstPart(parts: seq<seq<Byte>>)
    requires |parts| > 0
    ensures Join(parts[..1]) == parts[0] && Start(parts, 1) == |parts[0]|
  {
    assert parts[..1][..0] == [];
  }

  lemma AppendPart(parts: seq<seq<Byte>>, k: nat)
    requires k < |parts|
    ensures Join(parts[..k + 1]) == Join(parts[..k]) + parts[k]
    ensures Start(parts, k + 1) == Start(parts, k) + |parts[k]|
  {
    assert parts[..k + 1][..k] == parts[..k];
  }

  /** The symbol table: one row of 24 bytes per exported name, its six fields stored in place. A name
      without a symbol, or an address beyond 64 bits, stops the build. */
  method BuildDynSym(v: Input, offsets: seq<nat>) returns (r: Option<seq<Byte>>)
    requires |offsets| == |v.names| && forall i :: 0 <= i < |v.names| ==> offsets[i] == NameOff(v, i)
    ensures r.Some? <==> Buildable(v)
    ensures r.Some? ==> r.value == Join(SymRows(v))
  {
    hide Join, SymFields, NameOff, TextOff, FindSymbol, Splice;
    var n := |v.names|;
    var dynsym := Zeros((n + 1) * 24);
    SymStart(v);
    for i := 0 to n
      invariant forall j :: 0 <= j < i ==> SymbolOk(v, j)
      invariant dynsym == Join(RowsUpTo(v, i)) + Zeros((n - i) * 24)
    {
      var base := 24 + i * 24;
      var s := FindSymbol(v.symbols, v.names[i]);
      if s.None? || TextOff(v) + s.value.address >= TWO64 {
        assert !SymbolOk(v, i);
        return None;
      }
      SymSize(v, i);
      ghost var was := dynsym;
      dynsym := Splice(dynsym, base, Le(offsets[i], 4));
      dynsym := Splice(dynsym, base + 4, [0x12]);
      dynsym := Splice(dynsym, base + 5, [0]);
      dynsym := Splice(dynsym, base + 6, Le(1, 2));
      dynsym := Splice(dynsym, base + 8, Le(TextOff(v) + s.value.address, 8));
      dynsym := Splice(dynsym, base + 16, Le(s.value.size, 8));
      RowSpliced(was, base, offsets[i], TextOff(v) + s.value.address, s.value.size);
      SymStep(v, i);
    }
    SymEnd(v);
    return Some(dynsym);
  }

  /** The null row and the first `i` symbol rows. */
  ghost function RowsUpTo(v: Input, i: nat): (rows: seq<seq<Byte>>)
    requires i <= |v.names| && forall j :: 0 <= j < i ==> SymbolOk(v, j)
  {
    seq(i + 1, j requires 0 <= j <= i => SymRow(v, j))
  }

  lemma SymStart(v: Input)
    ensures Zeros((|v.names| + 1) * 24) == Join(RowsUpTo(v, 0)) + Zeros(|v.names| * 24)
  {
    hide SymbolOk, Join;
    assert RowsUpTo(v, 0) == [] + [Zeros(24)];
    JoinSnoc([], Zeros(24));
    EmptyJoin();
  }

  lemma EmptyJoin()
    ensures Join([]) == []
  {}

  lemma SymSize(v: Input, i: nat)
    requires i < |v.names| && forall j :: 0 <= j < i ==> SymbolOk(v, j)
    ensures |Join(RowsUpTo(v, i))| == 24 + i * 24
  {
    hide Join, SymFields, NameOff, TextOff, FindSymbol, Start, SymbolOk;
    var rows := RowsUpTo(v, i);
    forall k | 0 <= k < |rows| ensures |rows[k]| == 24 {
      if k > 0 {
        RowSize(v, k - 1);
      }
    }
    JoinLength(rows);
    UniformStart(rows, 24, |rows|);
  }

  lemma RowSize(v: Input, i: nat)
    requires i < |v.names| && SymbolOk(v, i)
    ensures |SymRow(v, i + 1)| == 24
  {
    hide Join, SymFields, NameOff, TextOff;
    var s := FindSymbol(v.symbols, v.names[i]).value;
    SymStarts(NameOff(v, i), TextOff(v) + s.address, s.size);
  }

  lemma RowSpliced(was: seq<Byte>, base: nat, nameOff: nat, value: nat, size: nat)
    requires base + 24 <= |was|
    ensures |Join(SymFields(nameOff, value, size))| == 24
    ensures Splice(Splice(Splice(Splice(Splice(Splice(was, base, Le(nameOff, 4)), base + 4, [0x12]), base + 5, [0]),
                                        base + 6, Le(1, 2)), base + 8, Le(value, 8)), base + 16, Le(size, 8))
         == Splice(was, base, Join(SymFields(nameOff, value, size)))
  {
    var a, b, c, d, e: seq<Byte>, f := Le(nameOff, 4), [0x12], [0], Le(1, 2), Le(value, 8), Le(size, 8);
    SymRowBytes(nameOff, value, size);
    hide Splice, Le, Join, SymFields;
    SpliceJoin(was, base, a, b);
    SpliceJoin(was, base, a + b, c);
    SpliceJoin(was, base, a + b + c, d);
    SpliceJoin(was, base, a + b + c + d, e);
    SpliceJoin(was, base, a + b + c + d + e, f);
  }

  lemma SymRowBytes(nameOff: nat, value: nat, size: nat)
    ensures Join(SymFields(nameOff, value, size)) == Le(nameOff, 4) + [0x12] + [0] + Le(1, 2) + Le(value, 8) + Le(size, 8)
  {
    hide Le;
    var p := SymFields(nameOff, value, size);
    FirstPart(p);
    hide Join;
    AppendPart(p, 1);
    AppendPart(p, 2);
    AppendPart(p, 3);
    AppendPart(p, 4);
    AppendPart(p, 5);
    assert p[..6] == p;
  }

  lemma SymStep(v: Input, i: nat)
    requires i < |v.names| && forall j :: 0 <= j <= i ==> SymbolOk(v, j)
    ensures |Join(RowsUpTo(v, i))| == 24 + i * 24 && |SymRow(v, i + 1)| == 24
    ensures Splice(Join(RowsUpTo(v, i)) + Zeros((|v.names| - i) * 24), 24 + i * 24, SymRow(v, i + 1))
         == Join(RowsUpTo(v, i + 1)) + Zeros((|v.names| - i - 1) * 24)
  {
    hide Join, SymRow, SymbolOk, Splice, Zeros;
    SymSize(v, i);
    RowSize(v, i);
    var done := Join(RowsUpTo(v, i));
    assert RowsUpTo(v, i + 1) == RowsUpTo(v, i) + [SymRow(v, i + 1)];
    JoinSnoc(RowsUpTo(v, i), SymRow(v, i + 1));
    FillZeros(done, SymRow(v, i + 1), (|v.names| - i) * 24);
  }

  lemma FillZeros(done: seq<Byte>, row: seq<Byte>, n: nat)
    requires |row| <= n
    ensures Splice(done + Zeros(n), |done|, row) == done + row + Zeros(n - |row|)
  {}

  lemma SymEnd(v: Input)
    requires forall j :: 0 <= j < |v.names| ==> SymbolOk(v, j)
    ensures Buildable(v)
    ensures Join(RowsUpTo(v, |v.names|)) + Zeros(0) == Join(SymRows(v))
  {
    hide Join, SymRow, SymbolOk;
    assert RowsUpTo(v, |v.names|) == SymRows(v);
    assert Zeros(0) == [];
  }

  /** Numbers appended one by one as 32-bit words. */
  method AppendWords(bytes: seq<Byte>, words: seq<nat>, ghost before: seq<nat>) returns (r: seq<Byte>)
    requires bytes == Join(Words(before))
    ensures r == Join(Words(before + words))
  {
    hide Join, Le;
    r := bytes;
    assert before + words[..0] == before;
    for i := 0 to |words|
      invariant r == Join(Words(before + words[..i]))
    {
      r := r + Le(words[i], 4);
      ghost var now := before + words[..i];
      assert before + words[..i + 1] == now + [words[i]];
      assert Words(now + [words[i]]) == Words(now) + [Le(words[i], 4)];
      JoinSnoc(Words(now), Le(words[i], 4));
    }
    assert words[..|words|] == words;
  }

  method BuildHashBytes(v: Input) returns (bytes: seq<Byte>)
    requires v.nbucket > 0
    ensures bytes == Join(Words(HashWords(v)))
  {
    hide Join, Buckets, Chains, Words;
    var buckets, chains := BuildHash(v.names, v.nbucket);
    EmptyWords();
    assert [] + [v.nbucket, NChain(v)] == [v.nbucket, NChain(v)];
    bytes := AppendWords([], [v.nbucket, NChain(v)], []);
    bytes := AppendWords(bytes, buckets, [v.nbucket, NChain(v)]);
    bytes := AppendWords(bytes, chains, [v.nbucket, NChain(v)] + buckets);
  }

  lemma EmptyWords()
    ensures Join(Words([])) == []
  {
    assert Words([]) == [];
    EmptyJoin();
  }

  method BuildVerSym(v: Input) returns (versym: seq<Byte>)
    ensures versym == Join(VerRows(v))
  {
    hide Join, Splice, VerRow, Le;
    var n := |v.names|;
    versym := Zeros((n + 1) * 2);
    VerStart(n);
    for index := 1 to n + 1
      invariant versym == Join(seq(index, i requires 0 <= i < index => VerRow(i))) + Zeros((n + 1 - index) * 2)
    {
      VerStep(n, index);
      versym := Splice(versym, index * 2, Le(2, 2));
    }
    assert Zeros(0) == [];
    assert seq(n + 1, i requires 0 <= i < n + 1 => VerRow(i)) == VerRows(v);
  }

  lemma VerStart(n: nat)
    ensures Zeros((n + 1) * 2) == Join(seq(1, i requires 0 <= i < 1 => VerRow(i))) + Zeros(n * 2)
  {
    hide Join;
    assert Le(0, 2) == Zeros(2) by {
      assert Le(0, 1) == [0] + Le(0, 0);
    }
    assert seq(1, i requires 0 <= i < 1 => VerRow(i)) == [] + [Zeros(2)];
    JoinSnoc([], Zeros(2));
    EmptyJoin();
  }

  lemma VerStep(n: nat, index: nat)
    requires 1 <= index <= n
    ensures var done := Join(seq(index, i requires 0 <= i < index => VerRow(i)));
            && |done| == index * 2
            && Splice(done + Zeros((n + 1 - index) * 2), index * 2, Le(2, 2))
            == Join(seq(index + 1, i requires 0 <= i < index + 1 => VerRow(i))) + Zeros((n - index) * 2)
  {
    hide Join, Start, Le, Splice;
    var rows := seq(index, i requires 0 <= i < index => VerRow(i));
    var more := seq(index + 1, i requires 0 <= i < index + 1 => VerRow(i));
    JoinLength(rows);
    UniformStart(rows, 2, index);
    assert more == rows + [Le(2, 2)];
    JoinSnoc(rows, Le(2, 2));
    FillZeros(Join(rows), Le(2, 2), (n + 1 - index) * 2);
  }

  /** One version definition with its auxiliary entry, fields stored in a zeroed block. */
  method BuildVerDef(hash: nat, versionOffset: nat) returns (verdef: seq<Byte>)
    ensures verdef == Join(VerDefFields(versionOffset, hash))
  {
    hide Le, Splice, Join, VerDefFields, Zeros;
    verdef := Zeros(28);
    assert [] + Zeros(28) == Zeros(28);
    FillZeros([], Le(1, 2), 28);
    verdef := Splice(verdef, 0, Le(1, 2));
    ghost var d1 := [] + Le(1, 2);
    SkipZeros(d1, 26, 2);
    ghost var d2 := d1 + Zeros(2);
    FillZeros(d2, Le(2, 2), 24);
    verdef := Splice(verdef, 4, Le(2, 2));
    ghost var d3 := d2 + Le(2, 2);
    FillZeros(d3, Le(1, 2), 22);
    verdef := Splice(verdef, 6, Le(1, 2));
    ghost var d4 := d3 + Le(1, 2);
    FillZeros(d4, Le(hash, 4), 20);
    verdef := Splice(verdef, 8, Le(hash, 4));
    ghost var d5 := d4 + Le(hash, 4);
    FillZeros(d5, Le(20, 4), 16);
    verdef := Splice(verdef, 12, Le(20, 4));
    ghost var d6 := d5 + Le(20, 4);
    SkipZeros(d6, 12, 4);
    ghost var d7 := d6 + Zeros(4);
    FillZeros(d7, Le(versionOffset, 4), 8);
    verdef := Splice(verdef, 20, Le(versionOffset, 4));
    VerDefBytes(versionOffset, hash);
  }

  lemma SkipZeros(done: seq<Byte>, n: nat, k: nat)
    requires k <= n
    ensures done + Zeros(n) == (done + Zeros(k)) + Zeros(n - k)
  {}

  lemma VerDefBytes(versionOff: nat, hash: nat)
    ensures Join(VerDefFields(versionOff, hash))
         == [] + Le(1, 2) + Zeros(2) + Le(2, 2) + Le(1, 2) + Le(hash, 4) + Le(20, 4) + Zeros(4) + Le(versionOff, 4) + Zeros(4)
  {
    LeZero(2);
    LeZero(4);
    hide Le, Zeros;
    var p := VerDefFields(versionOff, hash);
    FirstPart(p);
    hide Join;
    AppendPart(p, 1);
    AppendPart(p, 2);
    AppendPart(p, 3);
    AppendPart(p, 4);
    AppendPart(p, 5);
    AppendPart(p, 6);
    AppendPart(p, 7);
    AppendPart(p, 8);
    assert p[..9] == p;
  }

  lemma {:induction false} LeZero(n: nat)
    ensures Le(0, n) == Zeros(n)
  {
    if n > 0 {
      LeZero(n - 1);
    }
  }

  /** The image, or None when a required symbol is missing. The script's layout assertions are the
      assert statements below. */
  method BuildVdsoElf(v: Input) returns (r: Option<seq<Byte>>)
    requires Valid(v)
    ensures r.Some? <==> Buildable(v)
    ensures r.Some? ==> Built(r.value, v)
  {
    hide Join, Start, Parts, Words, HashWords, SymRows, VerRows, DynStr, Buildable, Hash, HeaderFields, ProgramRows;
    hide VerDefFields, DynamicFields, SectionRows, NameOff, VersionOff, Valid, Padded, Total, ShOff, ShStrTabOff, DynamicOff;
    hide TextOff, VerDefOff, VerSymOff, DynStrOff, DynSymOff;
    Ordering(v);
    var dynstr, offsets, versionOffset := BuildDynStr(v);
    assert DynStrOff(v) + |dynstr| == VerSymOff(v);
    var dynsym := BuildDynSym(v, offsets);
    if dynsym.None? {
      return None;
    }
    PartStarts(v);
    PartSizes(v);
    ghost var p := Parts(v);
    PartList(v);
    var hashBytes := BuildHashBytes(v);
    var versym := BuildVerSym(v);
    var versionHash := ElfHash(v.version);
    var verdef := BuildVerDef(versionHash, versionOffset);
    assert HASH_OFF + |hashBytes| == DynSymOff(v);
    assert DynSymOff(v) + |dynsym.value| == DynStrOff(v);
    assert VerSymOff(v) + |versym| == VerDefOff(v);
    assert VerDefOff(v) + |verdef| <= TextOff(v);
    assert TextOff(v) % 8 == 0;
    FirstPart(p);
    var out := Join(HeaderFields(ShOff(v)));
    AppendPart(p, 1);
    out := out + Join(ProgramRows(Padded(v), DynamicOff(v)));
    AppendPart(p, 2);
    out := out + hashBytes;
    AppendPart(p, 3);
    out := out + dynsym.value;
    AppendPart(p, 4);
    out := out + dynstr;
    AppendPart(p, 5);
    out := out + versym;
    AppendPart(p, 6);
    out := out + verdef;
    AppendPart(p, 7);
    out := out + Zeros(TextOff(v) - |out|);
    AppendPart(p, 8);
    out := out + v.text;
    AppendPart(p, 9);
    out := out + Join(DynamicFields(DynSymOff(v), DynStrOff(v), HASH_OFF, |dynstr|, VerSymOff(v), VerDefOff(v)));
    AppendPart(p, 10);
    out := out + SHSTRTAB;
    AppendPart(p, 11);
    out := out + Zeros(ShOff(v) - |out|);
    AppendPart(p, 12);
    out := out + Join(SectionRows(TextOff(v), |v.text|, ShStrTabOff(v)));
    assert |out| == Total(v);
    AppendPart(p, 13);
    out := PadTo(out, Padded(v));
    assert p[..14] == p;
    return Some(out);
  }

  method PadTo(bytes: seq<Byte>, size: nat) returns (out: seq<Byte>)
    requires |bytes| <= size
    ensures out == bytes + Zeros(size - |bytes|)
  {
    out := bytes;
    while |out| < size
      invariant |bytes| <= |out| <= size && out == bytes + Zeros(|out| - |bytes|)
    {
      out := out + [0];
    }
  }

  lemma Ordering(v: Input)
    requires Valid(v)
    ensures v.nbucket > 0
    ensures HASH_OFF + (2 + v.nbucket + NChain(v)) * 4 == DynSymOff(v) && DynSymOff(v) + NChain(v) * 24 == DynStrOff(v)
    ensures DynStrOff(v) + |DynStr(v)| == VerSymOff(v) && VerSymOff(v) + NChain(v) * 2 == VerDefOff(v)
    ensures VerDefOff(v) + 28 <= TextOff(v) && TextOff(v) % 8 == 0
    ensures ShStrTabOff(v) + 17 <= ShOff(v) && Total(v) <= Padded(v)
  {
    hide DynStr, DynStrSize;
    DynStrSizeIs(v);
  }

  lemma PartList(v: Input)
    requires v.nbucket > 0 && Buildable(v)
    ensures var p := Parts(v);
            && |p| == 14
            && p[0] == Join(HeaderFields(ShOff(v)))
            && p[1] == Join(ProgramRows(Padded(v), DynamicOff(v)))
            && p[2] == Join(Words(HashWords(v)))
            && p[3] == Join(SymRows(v))
            && p[4] == DynStr(v)
            && p[5] == Join(VerRows(v))
            && p[6] == Join(VerDefFields(VersionOff(v), Hash(v.version)))
            && VerDefOff(v) + 28 <= TextOff(v) && p[7] == Zeros(TextOff(v) - (VerDefOff(v) + 28))
            && p[8] == v.text
            && p[9] == Join(DynamicFields(DynSymOff(v), DynStrOff(v), HASH_OFF, |DynStr(v)|, VerSymOff(v), VerDefOff(v)))
            && p[10] == SHSTRTAB
            && ShStrTabOff(v) + 17 <= ShOff(v) && p[11] == Zeros(ShOff(v) - (ShStrTabOff(v) + 17))
            && p[12] == Join(SectionRows(TextOff(v), |v.text|, ShStrTabOff(v)))
            && Total(v) <= Padded(v) && p[13] == Zeros(Padded(v) - Total(v))
  {
    hide Join, Words, HashWords, SymRows, VerRows, DynStr, Buildable, Hash, HeaderFields, ProgramRows, VerDefFields;
    hide DynamicFields, SectionRows, VersionOff, DynSymOff, DynStrOff, VerSymOff;
  }
}
