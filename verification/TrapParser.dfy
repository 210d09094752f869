/** The fault decoder's trap-log parser: line-driven, with optional blocks after each trap summary
    and a panic message carried over from shortly before it. */
module TrapParser {
  import opened Options
  import opened Splits
  import opened TrapText

  datatype Frame = Frame(x: seq<nat>, scause: nat, sepc: nat, stval: nat, sstatus: nat)

  datatype TrapRecord = TrapRecord(scause: nat, sepc: nat, stval: nat, frame: Option<Frame>,
                                   fpChain: seq<(nat, nat)>, stackDump: seq<(nat, nat)>, panic: Option<string>)

  /** A record and where it came from: its summary line, the first line after everything it took,
      and the line of its panic message. */
  datatype Located = Located(trap: TrapRecord, at: nat, end: nat, panicAt: Option<nat>)

  const TRAPFRAME: string := "trapframe:"
  const FP_CHAIN: string := "fp chain:"
  const STACK_DUMP: string := "stack dump:"

  // Lines

  function FindKey(tokens: seq<string>, key: string): (r: Option<nat>)
    ensures r.Some? ==> r.value < TWO64
  {
    if tokens == [] then None
    else
      match SplitOnce(tokens[0], '=')
      case None => FindKey(tokens[1..], key)
      case Some((k, v)) =>
        if k == key && ParseU64(v).Some? then ParseU64(v) else FindKey(tokens[1..], key)
  }

  function ValueAfterKey(line: string, key: string): (r: Option<nat>)
    ensures r.Some? ==> r.value < TWO64
  {
    FindKey(SplitBy(line, Separator), key)
  }

  predicate OneWord(word: string) { forall i :: 0 <= i < |word| ==> word[i] !in " \t\n\r,;" && word[i] as int != 12 }

  /** A key with a number that parses gives its value up to the next blank, comma or semicolon; any other word is
      passed over. */
  lemma WordGives(word: string, sep: char, rest: string, key: string)
    requires OneWord(word) && sep in " \t\n\r,;"
    ensures var own := FindKey([word], key);
            ValueAfterKey(word + [sep] + rest, key) == if own.Some? then own else ValueAfterKey(rest, key)
  {
    hide SplitBy, SplitOnce, ParseU64;
    assert Separator(sep) && Free(word, Separator);
    SplitToken(word, sep, rest, Separator);
    var more := SplitBy(rest, Separator);
    assert ([word] + more)[1..] == more && [word][1..] == [];
  }

  lemma PairGives(key: string, v: string)
    requires '=' !in key && ParseU64(v).Some?
    ensures FindKey([key + "=" + v], key) == ParseU64(v)
  {
    hide SplitOnce, ParseU64;
    SplitOnceAt(key, '=', v);
    assert key + "=" + v == key + ['='] + v;
  }

  predicate IsPanic(line: string) {
    Contains(line, "panicked at") || StartsWith(line, "PANIC:") || Contains(line, "rust_begin_unwind")
  }

  predicate IsSummary(line: string) {
    ValueAfterKey(line, "scause").Some? && ValueAfterKey(line, "sepc").Some? && ValueAfterKey(line, "stval").Some?
  }

  predicate Blank(line: string) { Trim(line) == "" }

  predicate Indented(line: string) { line != "" && (line[0] == ' ' || line[0] == '\t') }

  /** A line that belongs to an open block. */
  predicate InBlock(line: string) { !Blank(line) && Indented(line) }

  function SkipBlank(lines: seq<string>): (n: nat)
    ensures n <= |lines|
    ensures forall i :: 0 <= i < n ==> Blank(lines[i])
    ensures n < |lines| ==> !Blank(lines[n])
  {
    if lines != [] && Blank(lines[0]) then 1 + SkipBlank(lines[1..]) else 0
  }

  function BlockLength(lines: seq<string>): (n: nat)
    ensures n <= |lines|
    ensures forall i :: 0 <= i < n ==> InBlock(lines[i])
    ensures n < |lines| ==> !InBlock(lines[n])
  {
    if lines != [] && InBlock(lines[0]) then 1 + BlockLength(lines[1..]) else 0
  }

  // Blocks

  /** The value of `key` on the first line of a block that has one. */
  function FirstValue(block: seq<string>, key: string): (r: Option<nat>) {
    if block == [] then None
    else if ValueAfterKey(block[0], key).Some? then ValueAfterKey(block[0], key)
    else FirstValue(block[1..], key)
  }

  function Digit(d: nat): char
    requires d < 10
  {
    ('0' as int + d) as char
  }

  function RegKey(i: nat): string
    requires i < 32
  {
    if i < 10 then ['x', Digit(i)] else ['x', Digit(i / 10), Digit(i % 10)]
  }

  function Registers(block: seq<string>): (r: seq<Option<nat>>)
    ensures |r| == 32
  {
    seq(32, i requires 0 <= i < 32 => FirstValue(block, RegKey(i)))
  }

  /** A frame only when all 32 registers and the four control registers were found. */
  function FrameOf(block: seq<string>): (f: Option<Frame>) {
    var regs := Registers(block);
    var scause, sepc := FirstValue(block, "scause"), FirstValue(block, "sepc");
    var stval, sstatus := FirstValue(block, "stval"), FirstValue(block, "sstatus");
    if (forall i :: 0 <= i < 32 ==> regs[i].Some?) && scause.Some? && sepc.Some? && stval.Some? && sstatus.Some? then
      Some(Frame(seq(32, i requires 0 <= i < 32 && regs[i].Some? => regs[i].value),
                 scause.value, sepc.value, stval.value, sstatus.value))
    else None
  }

  /** The value is the one of the first line that has it. */
  lemma {:induction false} FirstValueIs(block: seq<string>, key: string, i: nat)
    requires i < |block| && ValueAfterKey(block[i], key).Some? && forall j :: 0 <= j < i ==> ValueAfterKey(block[j], key).None?
    ensures FirstValue(block, key) == ValueAfterKey(block[i], key)
  {
    hide ValueAfterKey;
    if i > 0 {
      FirstValueIs(block[1..], key, i - 1);
    }
  }

  ghost predicate Given(block: seq<string>, key: string) { exists i :: 0 <= i < |block| && ValueAfterKey(block[i], key).Some? }

  lemma {:induction false} GivenIff(block: seq<string>, key: string)
    ensures FirstValue(block, key).Some? <==> Given(block, key)
  {
    hide ValueAfterKey;
    if block != [] {
      GivenIff(block[1..], key);
      if i :| 0 <= i < |block| && ValueAfterKey(block[i], key).Some? {
        assert i > 0 ==> block[1..][i - 1] == block[i];
      }
      if i :| 0 <= i < |block[1..]| && ValueAfterKey(block[1..][i], key).Some? {
        assert block[i + 1] == block[1..][i];
      }
    }
  }

  /** Register x0, x1 and so on. */
  ghost predicate GivenReg(block: seq<string>, i: nat) { Given(block, "x" + Decimal(i)) }

  lemma RegKeyIs(i: nat)
    requires i < 32
    ensures RegKey(i) == "x" + Decimal(i)
  {
    if i >= 10 {
      assert Decimal(i) == Decimal(i / 10) + [HexDigit(i % 10)];
    }
  }

  /** There is a frame exactly when some line gives each of x0 to x31 and of the four control registers. */
  lemma FrameIff(block: seq<string>)
    ensures FrameOf(block).Some? <==>
              && (forall i: nat :: i < 32 ==> GivenReg(block, i))
              && Given(block, "scause") && Given(block, "sepc") && Given(block, "stval") && Given(block, "sstatus")
  {
    hide Given, FirstValue, RegKey, Decimal;
    var regs := Registers(block);
    forall i: nat | i < 32 ensures regs[i].Some? <==> GivenReg(block, i) {
      RegKeyIs(i);
      GivenIff(block, RegKey(i));
    }
    GivenIff(block, "scause");
    GivenIff(block, "sepc");
    GivenIff(block, "stval");
    GivenIff(block, "sstatus");
  }

  function ChainOf(block: seq<string>): (c: seq<(nat, nat)>) {
    if block == [] then []
    else
      var fp, ra := ValueAfterKey(block[0], "fp"), ValueAfterKey(block[0], "ra");
      (if fp.Some? && ra.Some? then [(fp.value, ra.value)] else []) + ChainOf(block[1..])
  }

  /** The words of one dump row with their addresses, wrapping at 2^64; a word that is no number
      still takes up its place. */
  function RowWords(base: nat, words: seq<string>, index: nat): (d: seq<(nat, nat)>) {
    if words == [] then []
    else
      var w := ParseU64(words[0]);
      (if w.Some? then [((base + index * 8) % TWO64, w.value)] else []) + RowWords(base, words[1..], index + 1)
  }

  function Place(base: nat, k: nat): (address: nat) { (base + k * 8) % TWO64 }

  ghost predicate Placed(base: nat, words: seq<string>, index: nat, d: (nat, nat), k: nat) {
    k < |words| && ParseU64(words[k]) == Some(d.1) && d.0 == Place(base, index + k)
  }

  /** Word k of a row lies 8 * k behind its base, whatever stands before it. */
  lemma {:induction false} RowPlaces(base: nat, words: seq<string>, index: nat, d: (nat, nat))
    ensures d in RowWords(base, words, index) <==> exists k :: Placed(base, words, index, d, k)
  {
    hide ParseU64, Place, RowWords;
    RowStep(base, words, index);
    if words != [] {
      var rest, next := words[1..], index + 1;
      RowPlaces(base, rest, next, d);
      if k: nat :| Placed(base, words, index, d, k) {
        assert k > 0 ==> Placed(base, rest, next, d, k - 1);
      }
      if k: nat :| Placed(base, rest, next, d, k) {
        assert Placed(base, words, index, d, k + 1);
      }
      if ParseU64(words[0]) == Some(d.1) && d.0 == Place(base, index) {
        assert Placed(base, words, index, d, 0);
      }
    }
  }

  lemma RowStep(base: nat, words: seq<string>, index: nat)
    ensures RowWords(base, words, index) == if words == [] then []
            else (if ParseU64(words[0]).Some? then [(Place(base, index), ParseU64(words[0]).value)] else []) + RowWords(base, words[1..], index + 1)
  {}

  function RowOf(line: string): (d: seq<(nat, nat)>) {
    match SplitOnce(Trim(line), ':')
    case None => []
    case Some((address, rest)) =>
      match ParseU64(Trim(address))
      case None => []
      case Some(base) => RowWords(base, Words(rest), 0)
  }

  function DumpOf(block: seq<string>): (d: seq<(nat, nat)>) {
    if block == [] then [] else RowOf(block[0]) + DumpOf(block[1..])
  }

  // The optional blocks: content and lines taken

  function FrameBlock(lines: seq<string>): (r: (Option<Frame>, nat))
    ensures r.1 <= |lines|
  {
    var n := SkipBlank(lines);
    if n < |lines| && Trim(lines[n]) == TRAPFRAME then
      var k := BlockLength(lines[n + 1..]);
      (FrameOf(lines[n + 1..][..k]), n + 1 + k)
    else (None, 0)
  }

  function ChainBlock(lines: seq<string>): (r: (seq<(nat, nat)>, nat))
    ensures r.1 <= |lines|
  {
    var n := SkipBlank(lines);
    if n < |lines| && Trim(lines[n]) == FP_CHAIN then
      var k := BlockLength(lines[n + 1..]);
      (ChainOf(lines[n + 1..][..k]), n + 1 + k)
    else ([], 0)
  }

  function DumpBlock(lines: seq<string>): (r: (seq<(nat, nat)>, nat))
    ensures r.1 <= |lines|
  {
    var n := SkipBlank(lines);
    if n < |lines| && StartsWith(Trim(lines[n]), STACK_DUMP) then
      var k := BlockLength(lines[n + 1..]);
      (DumpOf(lines[n + 1..][..k]), n + 1 + k)
    else ([], 0)
  }

  /** A panic message and its line, still unclaimed. */
  type Pending = Option<(string, nat)>

  function TrapAt(lines: seq<string>, at: nat, pending: Pending): (r: Located)
    requires lines != [] && IsSummary(lines[0])
    requires pending.Some? ==> pending.value.1 <= at
    ensures at < r.end <= at + |lines| && r.at == at
  {
    var line, rest := lines[0], lines[1..];
    var (frame, a) := FrameBlock(rest);
    var (chain, b) := ChainBlock(rest[a..]);
    var (dump, c) := DumpBlock(rest[a..][b..]);
    var near := pending.Some? && at - pending.value.1 <= 30;
    Located(TrapRecord(ValueAfterKey(line, "scause").value, ValueAfterKey(line, "sepc").value,
                       ValueAfterKey(line, "stval").value, frame, chain, dump,
                       if near then Some(pending.value.0) else None),
            at, at + 1 + a + b + c, if near then Some(pending.value.1) else None)
  }

  /** The records of `lines`, which start at line number `at`. */
  function ParseFrom(lines: seq<string>, at: nat, pending: Pending): (r: seq<Located>)
    requires pending.Some? ==> pending.value.1 <= at
    decreases |lines|
  {
    if lines == [] then []
    else if IsPanic(lines[0]) then ParseFrom(lines[1..], at + 1, Some((lines[0], at)))
    else if !IsSummary(lines[0]) then ParseFrom(lines[1..], at + 1, pending)
    else
      var t := TrapAt(lines, at, pending);
      [t] + ParseFrom(lines[t.end - at..], t.end, None)
  }

  function Parse(lines: seq<string>): seq<Located> { ParseFrom(lines, 0, None) }

  // The parser's loops

  lemma {:induction false} FirstValueSnoc(block: seq<string>, line: string, key: string)
    ensures FirstValue(block + [line], key)
         == if FirstValue(block, key).Some? then FirstValue(block, key) else ValueAfterKey(line, key)
  {
    hide ValueAfterKey;
    if block == [] {
      assert block + [line] == [line];
      assert FirstValue([line][1..], key) == None;
    } else {
      FirstValueSnoc(block[1..], line, key);
      assert (block + [line])[1..] == block[1..] + [line];
    }
  }

  lemma {:induction false} BlockLengthIs(lines: seq<string>, n: nat)
    requires n <= |lines| && (forall i :: 0 <= i < n ==> InBlock(lines[i])) && (n < |lines| ==> !InBlock(lines[n]))
    ensures BlockLength(lines) == n
  {
    hide InBlock;
    var k := BlockLength(lines);
    assert !(k < n) && !(n < k);
  }

  /** One line of a trap frame block: every slot still empty takes the line's value, if it has one. */
  method FillRegisters(line: string, regs: seq<Option<nat>>, ghost block: seq<string>) returns (r: seq<Option<nat>>)
    requires regs == Registers(block)
    ensures r == Registers(block + [line])
  {
    hide FirstValue, ValueAfterKey, RegKey;
    r := regs;
    for i := 0 to 32
      invariant |r| == 32
      invariant forall j :: 0 <= j < i ==> r[j] == FirstValue(block + [line], RegKey(j))
      invariant forall j :: i <= j < 32 ==> r[j] == FirstValue(block, RegKey(j))
    {
      FirstValueSnoc(block, line, RegKey(i));
      if r[i].None? {
        r := r[i := ValueAfterKey(line, RegKey(i))];
      }
    }
  }

  method ParseTrapframeBlock(lines: seq<string>) returns (frame: Option<Frame>, consumed: nat)
    ensures consumed == BlockLength(lines) && frame == FrameOf(lines[..consumed])
  {
    hide FirstValue, ValueAfterKey, RegKey, InBlock;
    var regs: seq<Option<nat>> := seq(32, _ => None);
    var scause: Option<nat>, sepc: Option<nat>, stval: Option<nat>, sstatus: Option<nat> := None, None, None, None;
    consumed := 0;
    EmptyBlock();
    while consumed < |lines| && InBlock(lines[consumed])
      invariant consumed <= |lines| && forall i :: 0 <= i < consumed ==> InBlock(lines[i])
      invariant regs == Registers(lines[..consumed])
      invariant scause == FirstValue(lines[..consumed], "scause") && sepc == FirstValue(lines[..consumed], "sepc")
      invariant stval == FirstValue(lines[..consumed], "stval") && sstatus == FirstValue(lines[..consumed], "sstatus")
    {
      var line := lines[consumed];
      ghost var block := lines[..consumed];
      assert lines[..consumed + 1] == block + [line];
      regs := FillRegisters(line, regs, block);
      FirstValueSnoc(block, line, "scause");
      FirstValueSnoc(block, line, "sepc");
      FirstValueSnoc(block, line, "stval");
      FirstValueSnoc(block, line, "sstatus");
      scause := if scause.Some? then scause else ValueAfterKey(line, "scause");
      sepc := if sepc.Some? then sepc else ValueAfterKey(line, "sepc");
      stval := if stval.Some? then stval else ValueAfterKey(line, "stval");
      sstatus := if sstatus.Some? then sstatus else ValueAfterKey(line, "sstatus");
      consumed := consumed + 1;
    }
    BlockLengthIs(lines, consumed);
    if (forall i :: 0 <= i < 32 ==> regs[i].Some?) && scause.Some? && sepc.Some? && stval.Some? && sstatus.Some? {
      frame := Some(Frame(seq(32, i requires 0 <= i < 32 && regs[i].Some? => regs[i].value),
                          scause.value, sepc.value, stval.value, sstatus.value));
    } else {
      frame := None;
    }
  }

  lemma EmptyBlock()
    ensures forall key :: FirstValue([], key) == None
  {}

  method ParseFpChainBlock(lines: seq<string>) returns (chain: seq<(nat, nat)>, consumed: nat)
    ensures consumed == BlockLength(lines) && chain == ChainOf(lines[..consumed])
  {
    hide ValueAfterKey, InBlock;
    chain, consumed := [], 0;
    while consumed < |lines| && InBlock(lines[consumed])
      invariant consumed <= |lines| && forall i :: 0 <= i < consumed ==> InBlock(lines[i])
      invariant chain == ChainOf(lines[..consumed])
    {
      var line := lines[consumed];
      ChainSnoc(lines[..consumed], line);
      assert lines[..consumed + 1] == lines[..consumed] + [line];
      consumed := consumed + 1;
      var fp, ra := ValueAfterKey(line, "fp"), ValueAfterKey(line, "ra");
      if fp.Some? && ra.Some? {
        chain := chain + [(fp.value, ra.value)];
      }
    }
    BlockLengthIs(lines, consumed);
  }

  lemma {:induction false} ChainSnoc(block: seq<string>, line: string)
    ensures var fp, ra := ValueAfterKey(line, "fp"), ValueAfterKey(line, "ra");
            ChainOf(block + [line]) == ChainOf(block) + if fp.Some? && ra.Some? then [(fp.value, ra.value)] else []
  {
    hide ValueAfterKey;
    if block == [] {
      assert block + [line] == [line];
      assert ChainOf([line][1..]) == [];
    } else {
      ChainSnoc(block[1..], line);
      assert (block + [line])[1..] == block[1..] + [line];
    }
  }

  /** The rows after a stack dump header. */
  method ParseStackDumpRows(lines: seq<string>) returns (dump: seq<(nat, nat)>, consumed: nat)
    ensures consumed == BlockLength(lines) && dump == DumpOf(lines[..consumed])
  {
    hide InBlock, RowOf;
    dump, consumed := [], 0;
    while consumed < |lines| && InBlock(lines[consumed])
      invariant consumed <= |lines| && forall i :: 0 <= i < consumed ==> InBlock(lines[i])
      invariant dump == DumpOf(lines[..consumed])
    {
      var line := lines[consumed];
      DumpSnoc(lines[..consumed], line);
      assert lines[..consumed + 1] == lines[..consumed] + [line];
      consumed := consumed + 1;
      var row := ParseRow(line);
      dump := dump + row;
    }
    BlockLengthIs(lines, consumed);
  }

  lemma {:induction false} DumpSnoc(block: seq<string>, line: string)
    ensures DumpOf(block + [line]) == DumpOf(block) + RowOf(line)
  {
    hide RowOf;
    if block == [] {
      assert block + [line] == [line];
      assert DumpOf([line][1..]) == [];
    } else {
      DumpSnoc(block[1..], line);
      assert (block + [line])[1..] == block[1..] + [line];
    }
  }

  method ParseRow(line: string) returns (row: seq<(nat, nat)>)
    ensures row == RowOf(line)
  {
    hide ParseU64, Words, Trim, SplitOnce, RowWords;
    row := [];
    var parts := SplitOnce(Trim(line), ':');
    if parts.None? {
      return;
    }
    var base := ParseU64(Trim(parts.value.0));
    if base.None? {
      return;
    }
    var words := Words(parts.value.1);
    for index := 0 to |words|
      invariant row + RowWords(base.value, words[index..], index) == RowWords(base.value, words, 0)
    {
      RowStep(base.value, words[index..], index);
      assert words[index..][1..] == words[index + 1..];
      var word := ParseU64(words[index]);
      if word.Some? {
        row := row + [(Place(base.value, index), word.value)];
      }
    }
    RowStep(base.value, words[|words|..], |words|);
  }

  method SkipBlankLines(lines: seq<string>, from: nat) returns (next: nat)
    requires from <= |lines|
    ensures next == from + SkipBlank(lines[from..])
  {
    hide Blank;
    next := from;
    while next < |lines| && Blank(lines[next])
      invariant from <= next <= |lines|
      invariant from + SkipBlank(lines[from..]) == next + SkipBlank(lines[next..])
    {
      assert lines[next..][1..] == lines[next + 1..];
      next := next + 1;
    }
  }

  function Records(located: seq<Located>): seq<TrapRecord> {
    seq(|located|, i requires 0 <= i < |located| => located[i].trap)
  }

  /** The whole parser. */
  method ParseTraps(lines: seq<string>) returns (traps: seq<TrapRecord>)
    ensures traps == Records(Parse(lines))
  {
    hide IsPanic, IsSummary, FrameBlock, ChainBlock, DumpBlock, ValueAfterKey;
    ghost var located: seq<Located> := [];
    traps := [];
    var index := 0;
    var lastPanic: Pending := None;
    assert lines[0..] == lines;
    while index < |lines|
      invariant index <= |lines| && (lastPanic.Some? ==> lastPanic.value.1 <= index)
      invariant located + ParseFrom(lines[index..], index, lastPanic) == Parse(lines)
      invariant traps == Records(located)
    {
      var line := lines[index];
      assert lines[index..][0] == line && lines[index..][1..] == lines[index + 1..];
      if IsPanic(line) {
        lastPanic := Some((line, index));
        index := index + 1;
      } else if !IsSummary(line) {
        index := index + 1;
      } else {
        ghost var t := TrapAt(lines[index..], index, lastPanic);
        var trap, next := ParseOneTrap(lines, index, lastPanic);
        assert lines[index..][t.end - index..] == lines[next..];
        traps, located := traps + [trap], located + [t];
        lastPanic, index := None, next;
      }
    }
  }

  method TakeFrame(lines: seq<string>, from: nat) returns (frame: Option<Frame>, index: nat)
    requires from <= |lines|
    ensures FrameBlock(lines[from..]) == (frame, index - from) && from <= index <= |lines|
  {
    hide Blank, FrameOf, ChainOf, DumpOf, Trim, SkipBlank, BlockLength;
    frame, index := None, from;
    var next := SkipBlankLines(lines, from);
    if next < |lines| && Trim(lines[next]) == TRAPFRAME {
      var consumed;
      assert lines[from..][next - from + 1..] == lines[next + 1..];
      frame, consumed := ParseTrapframeBlock(lines[next + 1..]);
      index := next + 1 + consumed;
    }
  }

  method TakeChain(lines: seq<string>, from: nat) returns (chain: seq<(nat, nat)>, index: nat)
    requires from <= |lines|
    ensures ChainBlock(lines[from..]) == (chain, index - from) && from <= index <= |lines|
  {
    hide Blank, FrameOf, ChainOf, DumpOf, Trim, SkipBlank, BlockLength;
    chain, index := [], from;
    var next := SkipBlankLines(lines, from);
    if next < |lines| && Trim(lines[next]) == FP_CHAIN {
      var consumed;
      assert lines[from..][next - from + 1..] == lines[next + 1..];
      chain, consumed := ParseFpChainBlock(lines[next + 1..]);
      index := next + 1 + consumed;
    }
  }

  method TakeDump(lines: seq<string>, from: nat) returns (dump: seq<(nat, nat)>, index: nat)
    requires from <= |lines|
    ensures DumpBlock(lines[from..]) == (dump, index - from) && from <= index <= |lines|
  {
    hide Blank, FrameOf, ChainOf, DumpOf, Trim, SkipBlank, BlockLength;
    dump, index := [], from;
    var next := SkipBlankLines(lines, from);
    if next < |lines| && StartsWith(Trim(lines[next]), STACK_DUMP) {
      var consumed;
      assert lines[from..][next - from + 1..] == lines[next + 1..];
      dump, consumed := ParseStackDumpRows(lines[next + 1..]);
      index := next + 1 + consumed;
    }
  }

  method ParseOneTrap(lines: seq<string>, at: nat, pending: Pending) returns (trap: TrapRecord, index: nat)
    requires at < |lines| && IsSummary(lines[at]) && (pending.Some? ==> pending.value.1 <= at)
    ensures var t := TrapAt(lines[at..], at, pending);
            trap == t.trap && index == t.end
  {
    hide ValueAfterKey, FrameBlock, ChainBlock, DumpBlock;
    SummaryHasValues(lines[at]);
    trap := TrapRecord(ValueAfterKey(lines[at], "scause").value, ValueAfterKey(lines[at], "sepc").value,
                       ValueAfterKey(lines[at], "stval").value, None, [], [], None);
    if pending.Some? && at - pending.value.1 <= 30 {
      trap := trap.(panic := Some(pending.value.0));
    }
    ghost var rest := lines[at..][1..];
    assert rest == lines[at + 1..];
    var frame, a := TakeFrame(lines, at + 1);
    assert rest[a - (at + 1)..] == lines[a..];
    var chain, b := TakeChain(lines, a);
    assert rest[a - (at + 1)..][b - a..] == lines[b..];
    var dump, c := TakeDump(lines, b);
    trap, index := trap.(frame := frame, fpChain := chain, stackDump := dump), c;
  }

  lemma SummaryHasValues(line: string)
    requires IsSummary(line)
    ensures ValueAfterKey(line, "scause").Some? && ValueAfterKey(line, "sepc").Some? && ValueAfterKey(line, "stval").Some?
  {}
}
