/** The trap reports the riscv64 kernel writes to its console, line by line. */
module TrapRender {
  import opened Options
  import opened Splits
  import opened TrapText
  import opened TrapParser

  type Pair = (string, nat)

  /** A key of a key=value token. */
  predicate PlainKey(k: string) {
    Free(k, Separator) && '=' !in k
  }

  predicate PlainPairs(pairs: seq<Pair>) {
    forall i :: 0 <= i < |pairs| ==> PlainKey(pairs[i].0) && pairs[i].1 < TWO64
  }

  function Token(p: Pair): string { p.0 + "=" + Word(p.1) }

  /** key=0x... tokens with single spaces between. */
  function KvLine(pairs: seq<Pair>): string {
    if pairs == [] then ""
    else if |pairs| == 1 then Token(pairs[0])
    else Token(pairs[0]) + " " + KvLine(pairs[1..])
  }

  function Indent(s: string): string { "  " + s }

  function Lookup(pairs: seq<Pair>, key: string): Option<nat> {
    if pairs == [] then None else if pairs[0].0 == key then Some(pairs[0].1) else Lookup(pairs[1..], key)
  }

  lemma WordPlain(v: nat)
    ensures Free(Word(v), Separator) && Free(Word(v), WhiteSpace)
    ensures ':' !in Word(v) && '=' !in Word(v) && '_' !in Word(v) && 'k' !in Word(v) && 'n' !in Word(v)
    ensures HexChar(Word(v)[17])
  {
    var w := Word(v);
    assert w[17] == Hex(v, 16)[15];
    forall i | 0 <= i < |w| ensures !Separator(w[i]) && !WhiteSpace(w[i]) && w[i] !in [':', '=', '_', 'k', 'n'] {
      assert HexChar(w[i]) || w[i] == 'x';
    }
  }

  lemma TokenFree(p: Pair)
    requires PlainKey(p.0)
    ensures Free(Token(p), Separator)
  {
    hide Word;
    WordPlain(p.1);
  }

  /** One token found or passed over. */
  lemma TokenStep(p: Pair, tokens: seq<string>, key: string)
    requires PlainKey(p.0) && p.1 < TWO64
    ensures FindKey([Token(p)] + tokens, key) == if p.0 == key then Some(p.1) else FindKey(tokens, key)
  {
    hide Word, ParseU64, SplitOnce;
    assert Token(p) == p.0 + ['='] + Word(p.1);
    SplitOnceAt(p.0, '=', Word(p.1));
    WordParses(p.1);
    assert ([Token(p)] + tokens)[1..] == tokens;
  }

  lemma {:induction false} KvFind(pairs: seq<Pair>, key: string)
    requires PlainPairs(pairs) && pairs != []
    ensures FindKey(SplitBy(KvLine(pairs), Separator), key) == Lookup(pairs, key)
  {
    hide Token, FindKey, SplitBy, Separator;
    var p := pairs[0];
    TokenFree(p);
    if |pairs| == 1 {
      SplitWhole(Token(p), Separator);
      TokenStep(p, [], key);
      assert [Token(p)] + [] == [Token(p)];
      NoTokens(key);
    } else {
      KvFind(pairs[1..], key);
      SpaceSeparates();
      SplitToken(Token(p), ' ', KvLine(pairs[1..]), Separator);
      TokenStep(p, SplitBy(KvLine(pairs[1..]), Separator), key);
    }
  }

  lemma NoTokens(key: string)
    ensures FindKey([], key) == None
  {}

  lemma SpaceSeparates()
    ensures Separator(' ')
  {}

  lemma KvValue(pairs: seq<Pair>, key: string)
    requires PlainPairs(pairs) && pairs != []
    ensures ValueAfterKey(KvLine(pairs), key) == Lookup(pairs, key)
  {
    KvFind(pairs, key);
  }

  lemma IndentedValue(s: string, key: string)
    ensures ValueAfterKey(Indent(s), key) == ValueAfterKey(s, key)
  {
    hide SplitBy;
    SplitToken("", ' ', " " + s, Separator);
    SplitToken("", ' ', s, Separator);
    assert "" + [' '] + (" " + s) == Indent(s);
    assert "" + [' '] + s == " " + s;
    var tokens := SplitBy(s, Separator);
    assert SplitBy(Indent(s), Separator) == [""] + ([""] + tokens);
    EmptyToken(tokens, key);
    EmptyToken([""] + tokens, key);
  }

  lemma EmptyToken(tokens: seq<string>, key: string)
    ensures FindKey([""] + tokens, key) == FindKey(tokens, key)
  {
    assert SplitOnce("", '=') == None;
    assert ([""] + tokens)[1..] == tokens;
  }

  // Indented lines

  lemma {:induction false} KvEnds(pairs: seq<Pair>)
    requires PlainPairs(pairs) && pairs != [] && pairs[0].0 != "" && !WhiteSpace(pairs[0].0[0])
    ensures KvLine(pairs) != "" && !WhiteSpace(KvLine(pairs)[0])
    ensures !WhiteSpace(KvLine(pairs)[|KvLine(pairs)| - 1])
  {
    LastIsDigit(pairs);
  }

  lemma {:induction false} LastIsDigit(pairs: seq<Pair>)
    requires pairs != []
    ensures KvLine(pairs) != "" && HexChar(KvLine(pairs)[|KvLine(pairs)| - 1])
  {
    if |pairs| > 1 {
      LastIsDigit(pairs[1..]);
    }
  }

  lemma TrimIndent(s: string)
    requires s != "" && !WhiteSpace(s[0]) && !WhiteSpace(s[|s| - 1])
    ensures Trim(Indent(s)) == s && InBlock(Indent(s))
  {
    assert Indent(s)[1..] == " " + s;
    assert (" " + s)[1..] == s;
    assert TrimLeft(" " + s) == s;
    assert TrimLeft(Indent(s)) == s;
  }

  // Trap frame

  ghost predicate GoodFrame(f: Frame) {
    && |f.x| == 32 && (forall i :: 0 <= i < 32 ==> f.x[i] < TWO64)
    && f.scause < TWO64 && f.sepc < TWO64 && f.stval < TWO64 && f.sstatus < TWO64
  }

  /** Registers 4r to 4r+3. */
  function RegRow(f: Frame, r: nat): seq<Pair>
    requires |f.x| == 32 && r < 8
  {
    [(RegKey(4 * r), f.x[4 * r]), (RegKey(4 * r + 1), f.x[4 * r + 1]),
     (RegKey(4 * r + 2), f.x[4 * r + 2]), (RegKey(4 * r + 3), f.x[4 * r + 3])]
  }

  function ControlRow(f: Frame): seq<Pair> {
    [("scause", f.scause), ("sepc", f.sepc), ("stval", f.stval), ("sstatus", f.sstatus)]
  }

  /** The rows of a frame from register row `r` on. */
  function FrameRows(f: Frame, r: nat): (rows: seq<seq<Pair>>)
    requires |f.x| == 32 && r <= 8
    decreases 8 - r
  {
    if r == 8 then [ControlRow(f)] else [RegRow(f, r)] + FrameRows(f, r + 1)
  }

  function KvBlock(rows: seq<seq<Pair>>): (lines: seq<string>)
    ensures |lines| == |rows|
  {
    seq(|rows|, i requires 0 <= i < |rows| => Indent(KvLine(rows[i])))
  }

  /** Rows of plain, visible key=value tokens. */
  ghost predicate GoodRows(rows: seq<seq<Pair>>) {
    forall i :: 0 <= i < |rows| ==> GoodRow(rows[i])
  }

  ghost predicate GoodRow(row: seq<Pair>) {
    PlainPairs(row) && row != [] && row[0].0 != "" && !WhiteSpace(row[0].0[0])
  }

  function RowsLookup(rows: seq<seq<Pair>>, key: string): Option<nat> {
    if rows == [] then None
    else if Lookup(rows[0], key).Some? then Lookup(rows[0], key)
    else RowsLookup(rows[1..], key)
  }

  lemma {:induction false} BlockLookup(rows: seq<seq<Pair>>, key: string)
    requires GoodRows(rows)
    ensures FirstValue(KvBlock(rows), key) == RowsLookup(rows, key)
  {
    hide ValueAfterKey, Lookup, KvLine, Indent;
    if rows != [] {
      BlockLookup(rows[1..], key);
      assert GoodRow(rows[0]);
      KvValue(rows[0], key);
      IndentedValue(KvLine(rows[0]), key);
      assert KvBlock(rows)[1..] == KvBlock(rows[1..]);
    }
  }

  lemma RowInBlock(row: seq<Pair>)
    requires GoodRow(row)
    ensures InBlock(Indent(KvLine(row)))
  {
    KvEnds(row);
    TrimIndent(KvLine(row));
  }

  lemma BlockIsBlock(rows: seq<seq<Pair>>)
    requires GoodRows(rows)
    ensures forall i :: 0 <= i < |rows| ==> InBlock(KvBlock(rows)[i])
  {
    hide InBlock, Indent, KvLine, GoodRow;
    forall i | 0 <= i < |rows| ensures InBlock(KvBlock(rows)[i]) {
      RowInBlock(rows[i]);
    }
  }

  lemma RegKeyInjective(i: nat, j: nat)
    requires i < 32 && j < 32
    ensures RegKey(i) == RegKey(j) <==> i == j
    ensures RegKey(i) !in ["scause", "sepc", "stval", "sstatus", "fp", "ra"]
    ensures PlainKey(RegKey(i))
  {}

  lemma FourLookup(a: Pair, b: Pair, c: Pair, d: Pair, key: string)
    ensures Lookup([a, b, c, d], key)
         == if a.0 == key then Some(a.1) else if b.0 == key then Some(b.1)
            else if c.0 == key then Some(c.1) else if d.0 == key then Some(d.1) else None
  {
    assert [a, b, c, d][1..] == [b, c, d];
    assert [b, c, d][1..] == [c, d];
    assert [c, d][1..] == [d];
    assert Lookup([d], key) == if d.0 == key then Some(d.1) else Lookup([d][1..], key);
    assert Lookup([c, d], key) == if c.0 == key then Some(c.1) else Lookup([d], key);
    assert Lookup([b, c, d], key) == if b.0 == key then Some(b.1) else Lookup([c, d], key);
  }

  lemma RegRowLookup(f: Frame, r: nat, i: nat)
    requires |f.x| == 32 && r < 8 && i < 32
    ensures Lookup(RegRow(f, r), RegKey(i)) == if 4 * r <= i < 4 * r + 4 then Some(f.x[i]) else None
  {
    hide RegKey, Lookup;
    RegKeyInjective(4 * r, i);
    RegKeyInjective(4 * r + 1, i);
    RegKeyInjective(4 * r + 2, i);
    RegKeyInjective(4 * r + 3, i);
    var row := RegRow(f, r);
    FourLookup(row[0], row[1], row[2], row[3], RegKey(i));
  }

  lemma RegRowHasNo(f: Frame, r: nat, key: string)
    requires |f.x| == 32 && r < 8 && key in ["scause", "sepc", "stval", "sstatus"]
    ensures Lookup(RegRow(f, r), key) == None
  {
    hide RegKey, Lookup;
    RegKeyInjective(4 * r, 0);
    RegKeyInjective(4 * r + 1, 0);
    RegKeyInjective(4 * r + 2, 0);
    RegKeyInjective(4 * r + 3, 0);
    var row := RegRow(f, r);
    FourLookup(row[0], row[1], row[2], row[3], key);
  }

  lemma {:induction false} RowsHaveReg(f: Frame, r: nat, i: nat)
    requires |f.x| == 32 && r < 8 && 4 * r <= i < 32
    ensures RowsLookup(FrameRows(f, r), RegKey(i)) == Some(f.x[i])
    decreases 8 - r
  {
    hide Lookup, RegRow, RegKey;
    RegRowLookup(f, r, i);
    if i >= 4 * r + 4 {
      RowsHaveReg(f, r + 1, i);
    }
    assert FrameRows(f, r)[1..] == FrameRows(f, r + 1);
  }

  lemma {:induction false} RowsHaveControl(f: Frame, r: nat, key: string)
    requires |f.x| == 32 && r <= 8 && key in ["scause", "sepc", "stval", "sstatus"]
    ensures RowsLookup(FrameRows(f, r), key) == Lookup(ControlRow(f), key)
    ensures Lookup(ControlRow(f), key).Some?
    decreases 8 - r
  {
    hide Lookup, RegRow;
    var row := ControlRow(f);
    FourLookup(row[0], row[1], row[2], row[3], key);
    if r < 8 {
      RegRowHasNo(f, r, key);
      RowsHaveControl(f, r + 1, key);
      assert FrameRows(f, r)[1..] == FrameRows(f, r + 1);
    }
  }

  lemma GoodRegRow(f: Frame, r: nat)
    requires GoodFrame(f) && r < 8
    ensures GoodRow(RegRow(f, r))
  {
    hide RegKey, Separator;
    RegKeyInjective(4 * r, 0);
    RegKeyInjective(4 * r + 1, 0);
    RegKeyInjective(4 * r + 2, 0);
    RegKeyInjective(4 * r + 3, 0);
    KeyVisible(4 * r);
  }

  lemma KeyVisible(i: nat)
    requires i < 32
    ensures RegKey(i) != "" && !WhiteSpace(RegKey(i)[0])
  {}

  lemma GoodControlRow(f: Frame)
    requires GoodFrame(f)
    ensures GoodRow(ControlRow(f))
  {}

  lemma {:induction false} GoodFrameRows(f: Frame, r: nat)
    requires GoodFrame(f) && r <= 8
    ensures GoodRows(FrameRows(f, r))
    decreases 8 - r
  {
    hide GoodRow, RegRow, ControlRow, GoodFrame;
    if r == 8 {
      GoodControlRow(f);
    } else {
      GoodRegRow(f, r);
      GoodFrameRows(f, r + 1);
    }
  }

  /** The printed frame reads back whole. */
  lemma FrameReadsBack(f: Frame)
    requires GoodFrame(f)
    ensures FrameOf(KvBlock(FrameRows(f, 0))) == Some(f)
  {
    hide FirstValue, RowsLookup, RegKey, KvBlock, FrameRows, GoodRows, Lookup;
    var rows := FrameRows(f, 0);
    GoodFrameRows(f, 0);
    var block := KvBlock(rows);
    forall i | 0 <= i < 32 ensures FirstValue(block, RegKey(i)) == Some(f.x[i]) {
      BlockLookup(rows, RegKey(i));
      RowsHaveReg(f, 0, i);
    }
    ControlValues(f);
    BlockLookup(rows, "scause");
    BlockLookup(rows, "sepc");
    BlockLookup(rows, "stval");
    BlockLookup(rows, "sstatus");
    RowsHaveControl(f, 0, "scause");
    RowsHaveControl(f, 0, "sepc");
    RowsHaveControl(f, 0, "stval");
    RowsHaveControl(f, 0, "sstatus");
    var g := FrameOf(block);
    assert g.value.x == f.x;
  }

  lemma ControlValues(f: Frame)
    ensures Lookup(ControlRow(f), "scause") == Some(f.scause) && Lookup(ControlRow(f), "sepc") == Some(f.sepc)
    ensures Lookup(ControlRow(f), "stval") == Some(f.stval) && Lookup(ControlRow(f), "sstatus") == Some(f.sstatus)
  {
    hide Lookup;
    var row := ControlRow(f);
    FourLookup(row[0], row[1], row[2], row[3], "scause");
    FourLookup(row[0], row[1], row[2], row[3], "sepc");
    FourLookup(row[0], row[1], row[2], row[3], "stval");
    FourLookup(row[0], row[1], row[2], row[3], "sstatus");
  }

  // Frame-pointer chain

  function ChainRows(chain: seq<(nat, nat)>): seq<seq<Pair>> {
    seq(|chain|, i requires 0 <= i < |chain| => [("fp", chain[i].0), ("ra", chain[i].1)])
  }

  ghost predicate GoodWords(s: seq<(nat, nat)>) {
    forall i :: 0 <= i < |s| ==> s[i].0 < TWO64 && s[i].1 < TWO64
  }

  lemma {:induction false} ChainReadsBack(chain: seq<(nat, nat)>)
    requires GoodWords(chain)
    ensures ChainOf(KvBlock(ChainRows(chain))) == chain
    ensures GoodRows(ChainRows(chain))
  {
    hide ValueAfterKey, Lookup, KvLine, Indent;
    if chain != [] {
      ChainReadsBack(chain[1..]);
      var row := [("fp", chain[0].0), ("ra", chain[0].1)];
      ChainRowReads(chain[0]);
      assert KvBlock(ChainRows(chain))[0] == Indent(KvLine(row));
      assert ChainRows(chain)[1..] == ChainRows(chain[1..]);
      assert KvBlock(ChainRows(chain))[1..] == KvBlock(ChainRows(chain[1..]));
      assert chain == [chain[0]] + chain[1..];
      forall i | 0 <= i < |chain| ensures GoodRow(ChainRows(chain)[i]) {
        ChainRowReads(chain[i]);
      }
    }
  }

  lemma ChainRowReads(p: (nat, nat))
    requires p.0 < TWO64 && p.1 < TWO64
    ensures var row := [("fp", p.0), ("ra", p.1)];
            && GoodRow(row)
            && ValueAfterKey(Indent(KvLine(row)), "fp") == Some(p.0)
            && ValueAfterKey(Indent(KvLine(row)), "ra") == Some(p.1)
            && ValueAfterKey(Indent(KvLine(row)), "scause") == None
  {
    hide ValueAfterKey, KvLine, Indent;
    var row := [("fp", p.0), ("ra", p.1)];
    KvValue(row, "fp");
    KvValue(row, "ra");
    KvValue(row, "scause");
    IndentedValue(KvLine(row), "fp");
    IndentedValue(KvLine(row), "ra");
    IndentedValue(KvLine(row), "scause");
    assert row[1..] == [("ra", p.1)];
    assert [("ra", p.1)][1..] == [];
    assert Lookup(row[1..], "ra") == Some(p.1);
    assert Lookup(row[1..], "scause") == None;
  }

  // Stack dump

  function SpacedWords(words: seq<nat>): string {
    if words == [] then "" else " " + Word(words[0]) + SpacedWords(words[1..])
  }

  /** One row: an address and the words from there on. */
  function DumpLine(row: (nat, seq<nat>)): string {
    Indent(Word(row.0) + ":" + SpacedWords(row.1))
  }

  function RowEntries(base: nat, words: seq<nat>, index: nat): seq<(nat, nat)> {
    if words == [] then [] else [((base + index * 8) % TWO64, words[0])] + RowEntries(base, words[1..], index + 1)
  }

  function Entries(rows: seq<(nat, seq<nat>)>): seq<(nat, nat)> {
    if rows == [] then [] else RowEntries(rows[0].0, rows[0].1, 0) + Entries(rows[1..])
  }

  ghost predicate GoodDumpRow(row: (nat, seq<nat>)) {
    row.0 < TWO64 && forall i :: 0 <= i < |row.1| ==> row.1[i] < TWO64
  }

  function WordList(words: seq<nat>): seq<string> {
    seq(|words|, i requires 0 <= i < |words| => Word(words[i]))
  }

  lemma {:induction false} SpacedWordsSplit(words: seq<nat>)
    ensures SplitBy(SpacedWords(words), WhiteSpace) == [""] + WordList(words)
  {
    hide Word, WhiteSpace, SplitBy;
    SpaceIsWhite();
    if words == [] {
      SplitWhole("", WhiteSpace);
      assert [""] + WordList(words) == [""];
    } else {
      SpacedWordsSplit(words[1..]);
      var rest := SpacedWords(words[1..]);
      SplitToken("", ' ', Word(words[0]) + rest, WhiteSpace);
      assert "" + [' '] + (Word(words[0]) + rest) == SpacedWords(words);
      WordPlain(words[0]);
      SplitGlued(Word(words[0]), rest, WordList(words[1..]));
      assert WordList(words) == [Word(words[0])] + WordList(words[1..]);
    }
  }

  lemma SpaceIsWhite()
    ensures WhiteSpace(' ')
  {}

  /** A word in front of text whose first piece is empty. */
  lemma {:induction false} SplitGlued(w: string, rest: string, tail: seq<string>)
    requires Free(w, WhiteSpace) && SplitBy(rest, WhiteSpace) == [""] + tail
    ensures SplitBy(w + rest, WhiteSpace) == [w] + tail
  {
    hide WhiteSpace;
    if w == "" {
      assert w + rest == rest;
    } else {
      SplitGlued(w[1..], rest, tail);
      assert (w + rest)[1..] == w[1..] + rest;
      assert [w[0]] + w[1..] == w;
    }
  }

  lemma {:induction false} NonEmptyKeeps(words: seq<nat>)
    ensures NonEmpty(WordList(words)) == WordList(words)
  {
    hide Word;
    if words != [] {
      NonEmptyKeeps(words[1..]);
      assert WordList(words)[1..] == WordList(words[1..]);
      assert WordList(words) == [Word(words[0])] + WordList(words[1..]);
    }
  }

  lemma {:induction false} RowWordsRead(base: nat, words: seq<nat>, index: nat)
    requires forall i :: 0 <= i < |words| ==> words[i] < TWO64
    ensures RowWords(base, WordList(words), index) == RowEntries(base, words, index)
  {
    hide Word, ParseU64;
    if words != [] {
      RowWordsRead(base, words[1..], index + 1);
      WordParses(words[0]);
      assert WordList(words)[1..] == WordList(words[1..]);
    }
  }

  lemma {:induction false} SpacedEnds(words: seq<nat>)
    ensures words != [] ==> SpacedWords(words) != "" && HexChar(SpacedWords(words)[|SpacedWords(words)| - 1])
    ensures '=' !in SpacedWords(words) && '_' !in SpacedWords(words) && 'k' !in SpacedWords(words)
  {
    hide Word, HexChar;
    if words != [] {
      SpacedEnds(words[1..]);
      WordPlain(words[0]);
    }
  }

  lemma DumpText(row: (nat, seq<nat>))
    ensures var s := Word(row.0) + ":" + SpacedWords(row.1);
            s != "" && !WhiteSpace(s[0]) && !WhiteSpace(s[|s| - 1])
  {
    WordPlain(row.0);
    SpacedEnds(row.1);
  }

  lemma DumpLineReads(row: (nat, seq<nat>))
    requires GoodDumpRow(row)
    ensures RowOf(DumpLine(row)) == RowEntries(row.0, row.1, 0)
    ensures InBlock(DumpLine(row))
  {
    hide Word, ParseU64, SplitOnce, Trim, SplitBy, RowWords, RowEntries, SpacedWords, WordList, NonEmpty, InBlock, Indent;
    var s := Word(row.0) + ":" + SpacedWords(row.1);
    DumpText(row);
    TrimIndent(s);
    WordPlain(row.0);
    SplitOnceAt(Word(row.0), ':', SpacedWords(row.1));
    WordTrims(row.0);
    WordParses(row.0);
    SpacedWordsSplit(row.1);
    WordsOfSpaced(row.1);
    RowWordsRead(row.0, row.1, 0);
  }

  lemma WordTrims(v: nat)
    ensures Trim(Word(v)) == Word(v)
  {
    WordPlain(v);
    TrimKeeps(Word(v));
  }

  lemma WordsOfSpaced(words: seq<nat>)
    ensures Words(SpacedWords(words)) == WordList(words)
  {
    hide SplitBy, SpacedWords, WordList;
    SpacedWordsSplit(words);
    NonEmptyKeeps(words);
    assert ([""] + WordList(words))[1..] == WordList(words);
  }

  function DumpLines(rows: seq<(nat, seq<nat>)>): (lines: seq<string>)
    ensures |lines| == |rows|
  {
    seq(|rows|, i requires 0 <= i < |rows| => DumpLine(rows[i]))
  }

  lemma {:induction false} DumpReadsBack(rows: seq<(nat, seq<nat>)>)
    requires forall i :: 0 <= i < |rows| ==> GoodDumpRow(rows[i])
    ensures DumpOf(DumpLines(rows)) == Entries(rows)
    ensures forall i :: 0 <= i < |rows| ==> InBlock(DumpLines(rows)[i])
  {
    hide RowOf, RowEntries, DumpLine, InBlock, GoodDumpRow;
    if rows != [] {
      DumpReadsBack(rows[1..]);
      DumpLineReads(rows[0]);
      assert DumpLines(rows)[1..] == DumpLines(rows[1..]);
      forall i | 0 <= i < |rows| ensures InBlock(DumpLines(rows)[i]) {
        DumpLineReads(rows[i]);
      }
    }
  }
}
