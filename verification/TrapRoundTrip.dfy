/** Reading back what the kernel prints: for every list of reports, the parser returns their records,
    with the one exception that lines printed between a trap frame and what follows cut the report
    short. */
module TrapRoundTrip {
  import opened Options
  import opened Splits
  import opened TrapText
  import opened TrapParser
  import opened TrapRender

  /** One report: ordinary log lines, an optional panic text and the log lines after it, the summary,
      and the optional blocks. `state` is what the kernel prints between frame and chain. */
  datatype Report = Report(noise: seq<string>, panic: Option<string>, gap: seq<string>,
                           scause: nat, sepc: nat, stval: nat, frame: Option<Frame>, state: seq<string>,
                           chain: seq<(nat, nat)>, sp: nat, rows: seq<(nat, seq<nat>)>)

  /** A line that ends any open block and opens none. */
  predicate Outside(line: string) {
    || Blank(line)
    || (&& !Indented(line) && Trim(line) != TRAPFRAME && Trim(line) != FP_CHAIN
        && !StartsWith(Trim(line), STACK_DUMP))
  }

  /** A line the parser passes over wherever it meets it. */
  predicate Silent(line: string) { !IsPanic(line) && !IsSummary(line) }

  predicate AllSilent(lines: seq<string>) { forall i :: 0 <= i < |lines| ==> Silent(lines[i]) }

  predicate AllBlank(lines: seq<string>) { forall i :: 0 <= i < |lines| ==> Blank(lines[i]) }

  /** Any lines that are no summary and no panic may stand around a report; between frame and chain, and
      after the blocks of the report before, the first visible one must not continue or open a block. */
  ghost predicate Good(r: Report) {
    && AllSilent(r.noise) && AllSilent(r.gap) && AllSilent(r.state) && Clear(r.state)
    && (r.panic.Some? ==> IsPanic(r.panic.value))
    && r.scause < TWO64 && r.sepc < TWO64 && r.stval < TWO64 && r.sp < TWO64
    && (r.frame.Some? ==> GoodFrame(r.frame.value))
    && GoodWords(r.chain)
    && (forall i :: 0 <= i < |r.rows| ==> GoodDumpRow(r.rows[i]))
  }

  function Summary(r: Report): string {
    KvLine([("scause", r.scause), ("sepc", r.sepc), ("stval", r.stval)])
  }

  function FrameLines(r: Report): seq<string> {
    if r.frame.Some? && |r.frame.value.x| == 32 then [TRAPFRAME] + KvBlock(FrameRows(r.frame.value, 0)) else []
  }

  function ChainLines(r: Report): seq<string> {
    if r.chain == [] then [] else [FP_CHAIN] + KvBlock(ChainRows(r.chain))
  }

  function DumpHeader(sp: nat): string { "stack dump: sp=" + Word(sp) }

  function DumpPart(r: Report): seq<string> {
    if r.rows == [] then [] else [DumpHeader(r.sp)] + DumpLines(r.rows)
  }

  function Lead(r: Report): seq<string> {
    r.noise + (if r.panic.Some? then [r.panic.value] else []) + r.gap
  }

  function RenderOne(r: Report): seq<string> {
    Lead(r) + ([Summary(r)] + (FrameLines(r) + (r.state + (ChainLines(r) + DumpPart(r)))))
  }

  /** A log: reports, and the lines behind the last of them. */
  function Render(rs: seq<Report>, trailer: seq<string>): seq<string> {
    if rs == [] then trailer else RenderOne(rs[0]) + Render(rs[1..], trailer)
  }

  ghost predicate GoodLog(rs: seq<Report>, trailer: seq<string>) {
    && (forall i :: 0 <= i < |rs| ==> Good(rs[i]))
    && (forall i :: 1 <= i < |rs| ==> Clear(Lead(rs[i])))
    && AllSilent(trailer) && (rs != [] ==> Clear(trailer))
  }

  /** The record a report stands for: the panic text only from at most thirty lines before, chain and
      dump only when nothing but blank lines separates them from what they follow. */
  function Meaning(r: Report): TrapRecord {
    TrapRecord(r.scause, r.sepc, r.stval, r.frame,
               if AllBlank(r.state) then r.chain else [],
               if AllBlank(r.state) then Entries(r.rows) else [],
               if r.panic.Some? && |r.gap| + 1 <= 30 then r.panic else None)
  }

  function Meanings(rs: seq<Report>): seq<TrapRecord> {
    seq(|rs|, i requires 0 <= i < |rs| => Meaning(rs[i]))
  }

  // First lines

  /** The first line that is not blank. */
  function FirstLine(lines: seq<string>): Option<string> {
    var n := SkipBlank(lines);
    if n < |lines| then Some(lines[n]) else None
  }

  lemma {:induction false} SkipBlanks(blanks: seq<string>, rest: seq<string>)
    requires AllBlank(blanks)
    ensures SkipBlank(blanks + rest) == |blanks| + SkipBlank(rest)
  {
    hide Blank;
    if blanks == [] {
      assert blanks + rest == rest;
    } else {
      SkipBlanks(blanks[1..], rest);
      assert (blanks + rest)[1..] == blanks[1..] + rest;
    }
  }

  lemma NoBlank(line: string, rest: seq<string>)
    requires !Blank(line)
    ensures SkipBlank([line] + rest) == 0
  {}

  lemma FirstAfterBlanks(blanks: seq<string>, rest: seq<string>)
    requires AllBlank(blanks)
    ensures FirstLine(blanks + rest) == FirstLine(rest)
  {
    hide Blank;
    SkipBlanks(blanks, rest);
  }

  lemma {:induction false} FirstAmong(lines: seq<string>, rest: seq<string>)
    requires !AllBlank(lines)
    ensures FirstLine(lines).Some? && FirstLine(lines + rest) == FirstLine(lines) && !Blank(FirstLine(lines).value)
  {
    hide Blank;
    if Blank(lines[0]) {
      assert lines == [lines[0]] + lines[1..];
      FirstAmong(lines[1..], rest);
      assert lines + rest == [lines[0]] + (lines[1..] + rest);
      FirstAfterBlanks([lines[0]], lines[1..] + rest);
      FirstAfterBlanks([lines[0]], lines[1..]);
    } else {
      assert (lines + rest)[0] == lines[0];
      assert SkipBlank(lines + rest) == 0 && SkipBlank(lines) == 0;
    }
  }

  /** What may follow a report: nothing, or lines whose first visible one opens no block. */
  ghost predicate Clear(tail: seq<string>) {
    FirstLine(tail).Some? ==> Outside(FirstLine(tail).value)
  }

  ghost predicate EndsBlock(rest: seq<string>) { rest == [] || !InBlock(rest[0]) }

  lemma ClearEndsBlock(tail: seq<string>)
    requires Clear(tail)
    ensures EndsBlock(tail)
  {
    if tail != [] && !Blank(tail[0]) {
      assert SkipBlank(tail) == 0;
    }
  }

  // The three optional blocks

  lemma NoFrame(lines: seq<string>)
    requires FirstLine(lines).Some? ==> Trim(FirstLine(lines).value) != TRAPFRAME
    ensures FrameBlock(lines) == (None, 0)
  {}

  lemma NoChain(lines: seq<string>)
    requires FirstLine(lines).Some? ==> Trim(FirstLine(lines).value) != FP_CHAIN
    ensures ChainBlock(lines) == ([], 0)
  {}

  lemma NoDump(lines: seq<string>)
    requires FirstLine(lines).Some? ==> !StartsWith(Trim(FirstLine(lines).value), STACK_DUMP)
    ensures DumpBlock(lines) == ([], 0)
  {}

  lemma BodyLength(body: seq<string>, rest: seq<string>)
    requires EndsBlock(rest) && forall i :: 0 <= i < |body| ==> InBlock(body[i])
    ensures BlockLength(body + rest) == |body| && (body + rest)[..|body|] == body
  {
    hide InBlock, BlockLength;
    BlockLengthIs(body + rest, |body|);
  }

  lemma HeaderAt(blanks: seq<string>, header: string, more: seq<string>)
    requires AllBlank(blanks) && !Blank(header)
    ensures var lines := blanks + ([header] + more);
            SkipBlank(lines) == |blanks| && lines[|blanks|] == header && lines[|blanks| + 1..] == more
  {
    hide Blank, SkipBlank, AllBlank;
    SkipBlanks(blanks, [header] + more);
    NoBlank(header, more);
  }

  /** A header after blank lines, its block, and a line that ends the block. */
  lemma BlockShape(blanks: seq<string>, header: string, body: seq<string>, rest: seq<string>)
    requires AllBlank(blanks) && !Blank(header) && EndsBlock(rest)
    requires forall i :: 0 <= i < |body| ==> InBlock(body[i])
    ensures var lines := blanks + ([header] + body) + rest;
            && SkipBlank(lines) == |blanks|
            && lines[|blanks|] == header
            && lines[|blanks| + 1..] == body + rest
            && BlockLength(body + rest) == |body|
            && (body + rest)[..|body|] == body
  {
    hide Blank, InBlock, SkipBlank, BlockLength, AllBlank, EndsBlock;
    BodyLength(body, rest);
    HeaderAt(blanks, header, body + rest);
    assert blanks + ([header] + body) + rest == blanks + ([header] + (body + rest));
  }

  lemma FrameBlockAt(lines: seq<string>, n: nat, k: nat)
    requires n < |lines| && SkipBlank(lines) == n && Trim(lines[n]) == TRAPFRAME && BlockLength(lines[n + 1..]) == k
    ensures FrameBlock(lines) == (FrameOf(lines[n + 1..][..k]), n + 1 + k)
  {
    hide FrameOf, SkipBlank, BlockLength, Trim, StartsWith, TRAPFRAME, FP_CHAIN, STACK_DUMP, Blank, InBlock, Indented;
  }

  lemma FrameThere(blanks: seq<string>, body: seq<string>, rest: seq<string>)
    requires AllBlank(blanks) && EndsBlock(rest) && forall i :: 0 <= i < |body| ==> InBlock(body[i])
    ensures FrameBlock(blanks + ([TRAPFRAME] + body) + rest) == (FrameOf(body), |blanks| + 1 + |body|)
  {
    hide FrameOf, FrameBlock, SkipBlank, BlockLength, InBlock, EndsBlock, AllBlank, Blank, Trim, StartsWith, TRAPFRAME, FP_CHAIN, STACK_DUMP, DumpHeader, Indented;
    Headers();
    BlockShape(blanks, TRAPFRAME, body, rest);
    FrameBlockAt(blanks + ([TRAPFRAME] + body) + rest, |blanks|, |body|);
  }

  lemma ChainBlockAt(lines: seq<string>, n: nat, k: nat)
    requires n < |lines| && SkipBlank(lines) == n && Trim(lines[n]) == FP_CHAIN && BlockLength(lines[n + 1..]) == k
    ensures ChainBlock(lines) == (ChainOf(lines[n + 1..][..k]), n + 1 + k)
  {
    hide ChainOf, SkipBlank, BlockLength, Trim, StartsWith, TRAPFRAME, FP_CHAIN, STACK_DUMP, Blank, InBlock, Indented;
  }

  lemma ChainThere(blanks: seq<string>, body: seq<string>, rest: seq<string>)
    requires AllBlank(blanks) && EndsBlock(rest) && forall i :: 0 <= i < |body| ==> InBlock(body[i])
    ensures ChainBlock(blanks + ([FP_CHAIN] + body) + rest) == (ChainOf(body), |blanks| + 1 + |body|)
  {
    hide ChainOf, ChainBlock, SkipBlank, BlockLength, InBlock, EndsBlock, AllBlank, Blank, Trim, StartsWith, TRAPFRAME, FP_CHAIN, STACK_DUMP, DumpHeader, Indented;
    Headers();
    BlockShape(blanks, FP_CHAIN, body, rest);
    ChainBlockAt(blanks + ([FP_CHAIN] + body) + rest, |blanks|, |body|);
  }

  lemma DumpBlockAt(lines: seq<string>, n: nat, k: nat)
    requires n < |lines| && SkipBlank(lines) == n && StartsWith(Trim(lines[n]), STACK_DUMP) && BlockLength(lines[n + 1..]) == k
    ensures DumpBlock(lines) == (DumpOf(lines[n + 1..][..k]), n + 1 + k)
  {
    hide DumpOf, SkipBlank, BlockLength, Trim, StartsWith, TRAPFRAME, FP_CHAIN, STACK_DUMP, Blank, InBlock, Indented;
  }

  lemma DumpThere(blanks: seq<string>, sp: nat, body: seq<string>, rest: seq<string>)
    requires AllBlank(blanks) && EndsBlock(rest) && forall i :: 0 <= i < |body| ==> InBlock(body[i])
    ensures DumpBlock(blanks + ([DumpHeader(sp)] + body) + rest) == (DumpOf(body), |blanks| + 1 + |body|)
  {
    hide DumpOf, DumpBlock, SkipBlank, BlockLength, InBlock, EndsBlock, AllBlank, Blank, Trim, StartsWith, TRAPFRAME, FP_CHAIN, STACK_DUMP, DumpHeader, Indented;
    DumpHeaderShape(sp);
    BlockShape(blanks, DumpHeader(sp), body, rest);
    DumpBlockAt(blanks + ([DumpHeader(sp)] + body) + rest, |blanks|, |body|);
  }

  lemma Headers()
    ensures Trim(TRAPFRAME) == TRAPFRAME && !Blank(TRAPFRAME) && !Indented(TRAPFRAME)
    ensures Trim(FP_CHAIN) == FP_CHAIN && !Blank(FP_CHAIN) && !Indented(FP_CHAIN)
    ensures !StartsWith(FP_CHAIN, STACK_DUMP)
  {
    TrimKeeps(TRAPFRAME);
    TrimKeeps(FP_CHAIN);
  }

  lemma DumpHeaderShape(sp: nat)
    ensures var h := DumpHeader(sp);
            && Trim(h) == h && !Blank(h) && !Indented(h) && StartsWith(Trim(h), STACK_DUMP)
            && Trim(h) != TRAPFRAME && Trim(h) != FP_CHAIN
  {
    hide Word, Trim, TrimLeft, TrimRight, DumpHeader;
    var h := DumpHeader(sp);
    DumpHeaderText(sp);
    TrimKeeps(h);
  }

  lemma DumpHeaderText(sp: nat)
    ensures var h := DumpHeader(sp);
            && |h| > 11 && h[0] == 's' && STACK_DUMP <= h && h[|h| - 1] == Word(sp)[|Word(sp)| - 1]
            && !WhiteSpace(h[0]) && !WhiteSpace(h[|h| - 1])
  {
    hide Word;
    WordPlain(sp);
    var h := DumpHeader(sp);
    assert h[..11] == STACK_DUMP;
  }

  // Lines that say nothing by themselves

  lemma NotPanic(line: string)
    requires ('k' !in line || 'n' !in line) && '_' !in line && (line == "" || line[0] != 'P')
    ensures !IsPanic(line)
  {
    hide Contains;
    if 'k' !in line {
      ContainsNeedsChars(line, "panicked at", 'k');
    } else {
      ContainsNeedsChars(line, "panicked at", 'n');
    }
    ContainsNeedsChars(line, "rust_begin_unwind", '_');
  }

  lemma {:induction false} NoEqualsPieces(line: string)
    requires '=' !in line
    ensures forall i :: 0 <= i < |SplitBy(line, Separator)| ==> '=' !in SplitBy(line, Separator)[i]
  {
    hide Separator;
    if line != "" {
      NoEqualsPieces(line[1..]);
    }
  }

  lemma {:induction false} NoPair(tok: string)
    requires '=' !in tok
    ensures SplitOnce(tok, '=') == None
  {
    if tok != "" {
      NoPair(tok[1..]);
    }
  }

  lemma {:induction false} NoPairs(tokens: seq<string>, key: string)
    requires forall i :: 0 <= i < |tokens| ==> '=' !in tokens[i]
    ensures FindKey(tokens, key) == None
  {
    hide SplitOnce;
    if tokens != [] {
      NoPair(tokens[0]);
      NoPairs(tokens[1..], key);
    }
  }

  lemma NoEqualsNoValue(line: string, key: string)
    requires '=' !in line
    ensures ValueAfterKey(line, key) == None
  {
    hide SplitBy, FindKey;
    NoEqualsPieces(line);
    NoPairs(SplitBy(line, Separator), key);
  }

  lemma {:induction false} KvChars(pairs: seq<Pair>, c: char)
    requires c in ['k', '_'] && forall i :: 0 <= i < |pairs| ==> c !in pairs[i].0
    ensures c !in KvLine(pairs)
  {
    hide Word;
    if pairs != [] {
      WordPlain(pairs[0].1);
      if |pairs| > 1 {
        KvChars(pairs[1..], c);
      }
    }
  }

  lemma ChainHeaderSilent()
    ensures Silent(FP_CHAIN)
  {
    hide IsPanic, ValueAfterKey;
    NotPanic(FP_CHAIN);
    NoEqualsNoValue(FP_CHAIN, "scause");
  }

  lemma ChainRowSilent(p: (nat, nat))
    requires p.0 < TWO64 && p.1 < TWO64
    ensures Silent(Indent(KvLine([("fp", p.0), ("ra", p.1)])))
  {
    hide IsPanic, ValueAfterKey, KvLine;
    var row := [("fp", p.0), ("ra", p.1)];
    ChainRowReads(p);
    KvChars(row, 'k');
    KvChars(row, '_');
    NotPanic(Indent(KvLine(row)));
  }

  lemma DumpHeaderSilent(sp: nat)
    requires sp < TWO64
    ensures Silent(DumpHeader(sp))
  {
    hide IsPanic, ValueAfterKey, Word;
    WordPlain(sp);
    NotPanic(DumpHeader(sp));
    DumpHeaderNoScause(sp);
  }

  lemma DumpHeaderNoScause(sp: nat)
    requires sp < TWO64
    ensures ValueAfterKey(DumpHeader(sp), "scause") == None
  {
    hide SplitBy, FindKey, Word, Token;
    var pairs := [("sp", sp)];
    assert DumpHeader(sp) == "stack" + [' '] + ("dump:" + [' '] + ("sp" + "=" + Word(sp)));
    TokenIs(sp);
    SplitToken("stack", ' ', "dump:" + [' '] + Token(("sp", sp)), Separator);
    SplitToken("dump:", ' ', Token(("sp", sp)), Separator);
    TokenFree(("sp", sp));
    SplitWhole(Token(("sp", sp)), Separator);
    var last := [Token(("sp", sp))];
    TokenStep(("sp", sp), [], "scause");
    assert last == last + [];
    NoTokens("scause");
    SkipToken("dump:", last, "scause");
    SkipToken("stack", ["dump:"] + last, "scause");
  }

  lemma TokenIs(sp: nat)
    ensures Token(("sp", sp)) == "sp" + "=" + Word(sp)
  {}

  lemma SkipToken(tok: string, tokens: seq<string>, key: string)
    requires '=' !in tok
    ensures FindKey([tok] + tokens, key) == FindKey(tokens, key)
  {
    NoPair(tok);
    assert ([tok] + tokens)[1..] == tokens;
  }

  lemma DumpRowSilent(row: (nat, seq<nat>))
    ensures Silent(DumpLine(row))
  {
    hide IsPanic, ValueAfterKey, Word, SpacedWords;
    WordPlain(row.0);
    SpacedEnds(row.1);
    NotPanic(DumpLine(row));
    NoEqualsNoValue(DumpLine(row), "scause");
  }

  lemma {:induction false} PassSilent(lines: seq<string>, rest: seq<string>, at: nat, pending: Pending)
    requires AllSilent(lines) && (pending.Some? ==> pending.value.1 <= at)
    ensures ParseFrom(lines + rest, at, pending) == ParseFrom(rest, at + |lines|, pending)
  {
    hide IsPanic, IsSummary, TrapAt;
    if lines == [] {
      assert lines + rest == rest;
    } else {
      assert (lines + rest)[1..] == lines[1..] + rest;
      assert Silent(lines[0]);
      PassSilent(lines[1..], rest, at + 1, pending);
    }
  }

  lemma PartsSilent(r: Report)
    requires Good(r)
    ensures AllSilent(r.state) && AllSilent(ChainLines(r)) && AllSilent(DumpPart(r))
  {
    hide Silent, KvLine, Indent, DumpLine, DumpHeader, GoodFrame;
    forall i | 0 <= i < |ChainLines(r)| ensures Silent(ChainLines(r)[i]) {
      if i == 0 {
        ChainHeaderSilent();
      } else {
        ChainRowSilent(r.chain[i - 1]);
      }
    }
    forall i | 0 <= i < |DumpPart(r)| ensures Silent(DumpPart(r)[i]) {
      if i == 0 {
        DumpHeaderSilent(r.sp);
      } else {
        DumpRowSilent(r.rows[i - 1]);
      }
    }
  }

  lemma SummaryShape(r: Report)
    requires r.scause < TWO64 && r.sepc < TWO64 && r.stval < TWO64
    ensures var s := Summary(r);
            && IsSummary(s) && !IsPanic(s) && Outside(s) && !Blank(s)
            && ValueAfterKey(s, "scause") == Some(r.scause) && ValueAfterKey(s, "sepc") == Some(r.sepc)
            && ValueAfterKey(s, "stval") == Some(r.stval)
  {
    hide ValueAfterKey, IsPanic, KvLine, Trim, Indented, StartsWith, TRAPFRAME, FP_CHAIN, STACK_DUMP;
    SummaryLookups(r.scause, r.sepc, r.stval);
    SummaryStart(r.scause, r.sepc, r.stval);
    SummaryNotPanic(r.scause, r.sepc, r.stval);
  }

  lemma SummaryNotPanic(a: nat, b: nat, c: nat)
    requires a < TWO64 && b < TWO64 && c < TWO64
    ensures !IsPanic(KvLine([("scause", a), ("sepc", b), ("stval", c)]))
  {
    hide IsPanic, KvLine, Trim, Blank, Indented, StartsWith;
    var pairs := [("scause", a), ("sepc", b), ("stval", c)];
    KvChars(pairs, 'k');
    KvChars(pairs, '_');
    SummaryStart(a, b, c);
    NotPanic(KvLine(pairs));
  }

  lemma SummaryLookups(a: nat, b: nat, c: nat)
    requires a < TWO64 && b < TWO64 && c < TWO64
    ensures var s := KvLine([("scause", a), ("sepc", b), ("stval", c)]);
            ValueAfterKey(s, "scause") == Some(a) && ValueAfterKey(s, "sepc") == Some(b) && ValueAfterKey(s, "stval") == Some(c)
  {
    hide ValueAfterKey, KvLine;
    var pairs := [("scause", a), ("sepc", b), ("stval", c)];
    KvValue(pairs, "scause");
    KvValue(pairs, "sepc");
    KvValue(pairs, "stval");
    assert pairs[1..] == [("sepc", b), ("stval", c)];
    assert pairs[1..][1..] == [("stval", c)];
    assert Lookup([("stval", c)], "stval") == Some(c);
    assert Lookup([("sepc", b), ("stval", c)], "stval") == Some(c);
  }

  lemma SummaryStart(a: nat, b: nat, c: nat)
    requires a < TWO64 && b < TWO64 && c < TWO64
    ensures var s := KvLine([("scause", a), ("sepc", b), ("stval", c)]);
            && s != "" && s[0] == 's' && !Indented(s) && !Blank(s) && Trim(s) == s
            && s != TRAPFRAME && s != FP_CHAIN && !StartsWith(s, STACK_DUMP)
  {
    hide Trim, Blank, Indented, StartsWith, TRAPFRAME, FP_CHAIN, STACK_DUMP, Word, Separator, WhiteSpace, KvLine;
    var pairs := [("scause", a), ("sepc", b), ("stval", c)];
    SummaryPairs(a, b, c);
    KvEnds(pairs);
    var s := KvLine(pairs);
    TrimKeeps(s);
    OtherStart(s);
  }

  lemma SummaryPairs(a: nat, b: nat, c: nat)
    requires a < TWO64 && b < TWO64 && c < TWO64
    ensures var pairs := [("scause", a), ("sepc", b), ("stval", c)];
            && PlainPairs(pairs) && !WhiteSpace(pairs[0].0[0])
            && |KvLine(pairs)| > 1 && KvLine(pairs)[0] == 's' && KvLine(pairs)[1] == 'c'
  {
    hide Word;
    var pairs := [("scause", a), ("sepc", b), ("stval", c)];
    assert KvLine(pairs) == Token(pairs[0]) + " " + KvLine(pairs[1..]);
    hide KvLine;
  }

  lemma OtherStart(s: string)
    requires |s| > 1 && s[0] == 's' && s[1] == 'c' && Trim(s) == s
    ensures !Indented(s) && !Blank(s) && s != TRAPFRAME && s != FP_CHAIN && !StartsWith(s, STACK_DUMP)
  {
    hide Trim;
    assert STACK_DUMP[1] == 't';
  }

  // One report

  ghost function AfterFrame(r: Report, tail: seq<string>): seq<string> {
    r.state + (ChainLines(r) + (DumpPart(r) + tail))
  }

  lemma DumpPartFront(r: Report, tail: seq<string>)
    requires Clear(tail)
    ensures EndsBlock(DumpPart(r) + tail)
    ensures FirstLine(DumpPart(r) + tail) == if r.rows == [] then FirstLine(tail) else Some(DumpHeader(r.sp))
  {
    ClearEndsBlock(tail);
    DumpHeaderShape(r.sp);
    hide Blank, Trim, DumpHeader, DumpLine, Outside, Indented;
    if r.rows == [] {
      assert DumpPart(r) + tail == tail;
    } else {
      assert (DumpPart(r) + tail)[0] == DumpHeader(r.sp);
      assert SkipBlank(DumpPart(r) + tail) == 0;
    }
  }

  lemma ChainPartFront(r: Report, rest: seq<string>)
    requires EndsBlock(rest)
    ensures EndsBlock(ChainLines(r) + rest)
    ensures FirstLine(ChainLines(r) + rest) == if r.chain == [] then FirstLine(rest) else Some(FP_CHAIN)
  {
    Headers();
    hide Blank, Trim, KvBlock, ChainRows, Indented;
    if r.chain == [] {
      assert ChainLines(r) + rest == rest;
    } else {
      assert (ChainLines(r) + rest)[0] == FP_CHAIN;
      assert SkipBlank(ChainLines(r) + rest) == 0;
    }
  }

  lemma AfterFrameFront(r: Report, tail: seq<string>)
    requires Good(r) && Clear(tail)
    ensures var s := AfterFrame(r, tail);
            EndsBlock(s) && (FirstLine(s).Some? ==> Trim(FirstLine(s).value) != TRAPFRAME)
  {
    hide GoodFrame, GoodDumpRow, Trim, Indented, Silent, FirstLine, DumpHeader;
    DumpPartFront(r, tail);
    DumpHeaderShape(r.sp);
    var d := DumpPart(r) + tail;
    ChainPartFront(r, d);
    Headers();
    var c := ChainLines(r) + d;
    if AllBlank(r.state) {
      FirstAfterBlanks(r.state, c);
    } else {
      FirstAmong(r.state, c);
      TrimOfClear(r.state);
    }
    if FirstLine(tail).Some? {
      TrimOfClear(tail);
    }
    if r.state == [] {
      assert r.state + c == c;
    } else {
      assert (r.state + c)[0] == r.state[0];
      ClearEndsBlock(r.state);
    }
  }

  lemma TrimOfClear(tail: seq<string>)
    requires Clear(tail) && FirstLine(tail).Some?
    ensures var h := Trim(FirstLine(tail).value);
            h != TRAPFRAME && h != FP_CHAIN && !StartsWith(h, STACK_DUMP)
  {
    var n := SkipBlank(tail);
    assert !Blank(tail[n]);
  }

  lemma FrameStep(r: Report, tail: seq<string>)
    requires Good(r) && Clear(tail)
    ensures FrameBlock(FrameLines(r) + AfterFrame(r, tail)) == (r.frame, |FrameLines(r)|)
  {
    hide GoodWords, GoodDumpRow, GoodFrame, FirstLine, AfterFrame, FrameOf, KvBlock, FrameRows, EndsBlock, Trim, InBlock, AllSilent, FrameBlock;
    AfterFrameFront(r, tail);
    var rest := AfterFrame(r, tail);
    if r.frame.None? {
      NoFrame(rest);
      assert FrameLines(r) + rest == rest;
    } else {
      var f := r.frame.value;
      FrameLength(f);
      FrameReadsBack(f);
      GoodFrameRows(f, 0);
      BlockIsBlock(FrameRows(f, 0));
      FrameThere([], KvBlock(FrameRows(f, 0)), rest);
      assert [] + ([TRAPFRAME] + KvBlock(FrameRows(f, 0))) + rest == FrameLines(r) + rest;
    }
  }

  lemma FrameLength(f: Frame)
    requires GoodFrame(f)
    ensures |f.x| == 32
  {}

  lemma NothingTaken(r: Report, tail: seq<string>)
    requires Good(r)
    ensures var left := r.state + (ChainLines(r) + DumpPart(r));
            AllSilent(left) && AfterFrame(r, tail) == left + tail
  {
    hide Good, ChainLines, DumpPart, Silent;
    PartsSilent(r);
    assert r.state + (ChainLines(r) + (DumpPart(r) + tail)) == r.state + (ChainLines(r) + DumpPart(r)) + tail;
  }

  /** The lines of a chain, with blank lines before it. */
  lemma ChainPlaced(r: Report, tail: seq<string>)
    requires r.chain != []
    ensures var body := KvBlock(ChainRows(r.chain));
            var b := |r.state| + 1 + |body|;
            && AfterFrame(r, tail) == r.state + ([FP_CHAIN] + body) + (DumpPart(r) + tail)
            && b <= |AfterFrame(r, tail)| && AfterFrame(r, tail)[b..] == DumpPart(r) + tail
  {
    hide KvBlock, ChainRows, DumpPart;
    var d := DumpPart(r) + tail;
    assert r.state + (ChainLines(r) + d) == r.state + ChainLines(r) + d;
  }

  /** What the chain and dump readers do after the frame, and what they leave. */
  lemma ChainDumpStep(r: Report, tail: seq<string>) returns (b: nat, c: nat, left: seq<string>)
    requires Good(r) && Clear(tail)
    ensures var s := AfterFrame(r, tail);
            && b <= |s| && ChainBlock(s) == (if AllBlank(r.state) then r.chain else [], b)
            && c <= |s[b..]| && DumpBlock(s[b..]) == (if AllBlank(r.state) then Entries(r.rows) else [], c)
            && AllSilent(left) && s[b..][c..] == left + tail
  {
    hide Good, Clear, AllBlank, Silent, ChainBlock, DumpBlock, ChainLines, DumpPart, Entries, AfterFrame;
    if !AllBlank(r.state) {
      b, c, left := 0, 0, r.state + (ChainLines(r) + DumpPart(r));
      NothingAttached(r, tail);
      NothingTaken(r, tail);
      assert AfterFrame(r, tail)[0..] == AfterFrame(r, tail);
    } else if r.chain != [] {
      b, c := ChainThenDump(r, tail);
      left := [];
      assert [] + tail == tail;
    } else {
      PartsSilent(r);
      b, c, left := DumpAlone(r, tail);
    }
  }

  lemma NothingAttached(r: Report, tail: seq<string>)
    requires Good(r) && !AllBlank(r.state)
    ensures ChainBlock(AfterFrame(r, tail)) == ([], 0)
    ensures DumpBlock(AfterFrame(r, tail)) == ([], 0)
  {
    hide GoodFrame, GoodWords, GoodDumpRow, ChainLines, DumpPart, ChainBlock, DumpBlock, Trim, Silent, Indented, FirstLine;
    var rest := ChainLines(r) + (DumpPart(r) + tail);
    FirstAmong(r.state, rest);
    TrimOfClear(r.state);
    NoChain(r.state + rest);
    NoDump(r.state + rest);
  }

  lemma ChainRowsRead(r: Report)
    requires Good(r)
    ensures var body := KvBlock(ChainRows(r.chain));
            ChainOf(body) == r.chain && forall i :: 0 <= i < |body| ==> InBlock(body[i])
  {
    hide GoodFrame, AllSilent, KvLine, InBlock, ChainOf;
    ChainReadsBack(r.chain);
    BlockIsBlock(ChainRows(r.chain));
  }

  lemma ChainThenDump(r: Report, tail: seq<string>) returns (b: nat, c: nat)
    requires Good(r) && Clear(tail) && AllBlank(r.state) && r.chain != []
    ensures var s := AfterFrame(r, tail);
            && b <= |s| && ChainBlock(s) == (r.chain, b)
            && c <= |s[b..]| && DumpBlock(s[b..]) == (Entries(r.rows), c)
            && s[b..][c..] == tail
  {
    hide Good, ChainBlock, DumpBlock, KvBlock, ChainRows, ChainOf, AllBlank, EndsBlock, Clear, DumpPart, InBlock, AfterFrame, FirstLine, Entries;
    var d := DumpPart(r) + tail;
    DumpPartFront(r, tail);
    ChainPlaced(r, tail);
    ChainRowsRead(r);
    var body := KvBlock(ChainRows(r.chain));
    ChainThere(r.state, body, d);
    b := |r.state| + 1 + |body|;
    c := DumpFirst(r, tail);
  }

  lemma DumpFirst(r: Report, tail: seq<string>) returns (c: nat)
    requires Good(r) && Clear(tail)
    ensures var d := DumpPart(r) + tail;
            c <= |d| && DumpBlock(d) == (Entries(r.rows), c) && d[c..] == tail
  {
    hide GoodFrame, GoodWords, DumpBlock, DumpLines, DumpOf, AllSilent, EndsBlock, FirstLine, DumpHeader, Trim, StartsWith, InBlock;
    if r.rows == [] {
      c := 0;
      assert DumpPart(r) + tail == tail;
      if FirstLine(tail).Some? {
        TrimOfClear(tail);
      }
      NoDump(tail);
    } else {
      ClearEndsBlock(tail);
      DumpReadsBack(r.rows);
      DumpThere([], r.sp, DumpLines(r.rows), tail);
      assert [] + ([DumpHeader(r.sp)] + DumpLines(r.rows)) + tail == DumpPart(r) + tail;
      c := |DumpPart(r)|;
    }
  }

  lemma DumpAlone(r: Report, tail: seq<string>) returns (b: nat, c: nat, left: seq<string>)
    requires Good(r) && Clear(tail) && AllBlank(r.state) && r.chain == [] && AllSilent(r.state)
    ensures var s := AfterFrame(r, tail);
            && b <= |s| && ChainBlock(s) == (r.chain, b)
            && c <= |s[b..]| && DumpBlock(s[b..]) == (Entries(r.rows), c)
            && AllSilent(left) && s[b..][c..] == left + tail
  {
    hide GoodFrame, GoodWords, ChainBlock, DumpBlock, DumpLines, DumpOf, EndsBlock, FirstLine, DumpHeader, Trim, StartsWith, InBlock, Blank, Silent;
    var d := DumpPart(r) + tail;
    assert ChainLines(r) + d == d;
    var s := AfterFrame(r, tail);
    DumpPartFront(r, tail);
    FirstAfterBlanks(r.state, d);
    DumpHeaderShape(r.sp);
    if FirstLine(tail).Some? {
      TrimOfClear(tail);
    }
    NoChain(s);
    b := 0;
    assert s[0..] == s;
    if r.rows == [] {
      assert d == tail;
      NoDump(s);
      c, left := 0, r.state;
    } else {
      ClearEndsBlock(tail);
      DumpReadsBack(r.rows);
      DumpThere(r.state, r.sp, DumpLines(r.rows), tail);
      assert r.state + ([DumpHeader(r.sp)] + DumpLines(r.rows)) + tail == s;
      c, left := |r.state| + |DumpPart(r)|, [];
      assert s[c..] == tail;
      assert [] + tail == tail;
    }
  }

  /** A summary line followed by blocks already accounted for. */
  lemma TrapAssembled(lines: seq<string>, at: nat, pending: Pending, a: nat, b: nat, c: nat)
    requires lines != [] && IsSummary(lines[0]) && (pending.Some? ==> pending.value.1 <= at)
    requires a == FrameBlock(lines[1..]).1 && b == ChainBlock(lines[1..][a..]).1 && c == DumpBlock(lines[1..][a..][b..]).1
    ensures var t := TrapAt(lines, at, pending);
            && t.end == at + 1 + a + b + c
            && lines[t.end - at..] == lines[1..][a..][b..][c..]
            && t.trap.frame == FrameBlock(lines[1..]).0
            && t.trap.fpChain == ChainBlock(lines[1..][a..]).0
            && t.trap.stackDump == DumpBlock(lines[1..][a..][b..]).0
            && Some(t.trap.scause) == ValueAfterKey(lines[0], "scause") && Some(t.trap.sepc) == ValueAfterKey(lines[0], "sepc")
            && Some(t.trap.stval) == ValueAfterKey(lines[0], "stval")
            && t.trap.panic == if pending.Some? && at - pending.value.1 <= 30 then Some(pending.value.0) else None
  {
    hide FrameBlock, ChainBlock, DumpBlock, ValueAfterKey;
    SummaryHasValues(lines[0]);
    var rest := lines[1..];
    assert rest[a..][b..][c..] == lines[1 + a + b + c..];
  }

  /** The record of one report, from its summary line on, and what is left to read. */
  lemma TrapRead(r: Report, tail: seq<string>, at: nat, pending: Pending) returns (left: seq<string>)
    requires Good(r) && Clear(tail) && (pending.Some? ==> pending.value.1 <= at)
    ensures var lines := [Summary(r)] + (FrameLines(r) + AfterFrame(r, tail));
            && lines != [] && IsSummary(lines[0]) && !IsPanic(lines[0])
            && var t := TrapAt(lines, at, pending);
            && t.trap == Meaning(r).(panic := if pending.Some? && at - pending.value.1 <= 30 then Some(pending.value.0) else None)
            && AllSilent(left) && lines[t.end - at..] == left + tail
  {
    hide IsPanic, IsSummary, ValueAfterKey, FrameBlock, ChainBlock, DumpBlock, GoodFrame, GoodWords, GoodDumpRow;
    hide Outside, Blank, AllSilent, Entries, FrameLines, AfterFrame, AllBlank, Summary, Clear, TrapAt;
    SummaryShape(r);
    FrameStep(r, tail);
    var b, c;
    b, c, left := ChainDumpStep(r, tail);
    var rest := FrameLines(r) + AfterFrame(r, tail);
    var lines := [Summary(r)] + rest;
    assert lines[1..] == rest;
    assert rest[|FrameLines(r)|..] == AfterFrame(r, tail);
    TrapAssembled(lines, at, pending, |FrameLines(r)|, b, c);
  }

  lemma TrapStep(r: Report, tail: seq<string>, at: nat, pending: Pending)
    requires Good(r) && Clear(tail) && (pending.Some? ==> pending.value.1 <= at)
    ensures var lines := [Summary(r)] + (FrameLines(r) + AfterFrame(r, tail));
            && lines != [] && IsSummary(lines[0]) && !IsPanic(lines[0])
            && var t := TrapAt(lines, at, pending);
            && t.trap == Meaning(r).(panic := if pending.Some? && at - pending.value.1 <= 30 then Some(pending.value.0) else None)
            && ParseFrom(lines, at, pending) == [t] + ParseFrom(tail, at + |lines| - |tail|, None)
  {
    hide IsPanic, IsSummary, Good, Meaning, AllSilent, FrameLines, AfterFrame, Summary, Clear, TrapAt;
    var left := TrapRead(r, tail, at, pending);
    var lines := [Summary(r)] + (FrameLines(r) + AfterFrame(r, tail));
    var t := TrapAt(lines, at, pending);
    PassSilent(left, tail, t.end, None);
  }

  // All reports

  lemma LeadClear(lead: seq<string>, line: string, rest: seq<string>)
    requires Clear(lead) && Outside(line) && !Blank(line)
    ensures Clear(lead + ([line] + rest))
  {
    hide Outside, Blank, FirstLine;
    if AllBlank(lead) {
      FirstAfterBlanks(lead, [line] + rest);
      FirstIs(line, rest);
    } else {
      FirstAmong(lead, [line] + rest);
    }
  }

  lemma FirstIs(line: string, rest: seq<string>)
    requires !Blank(line)
    ensures FirstLine([line] + rest) == Some(line)
  {}

  lemma RenderShape(r: Report, tail: seq<string>)
    ensures RenderOne(r) + tail == Lead(r) + ([Summary(r)] + (FrameLines(r) + AfterFrame(r, tail)))
  {
    hide FrameLines, ChainLines, DumpPart, Summary, Lead;
    var body := FrameLines(r) + (r.state + (ChainLines(r) + DumpPart(r)));
    assert body + tail == FrameLines(r) + AfterFrame(r, tail);
    assert RenderOne(r) + tail == Lead(r) + ([Summary(r)] + (body + tail));
  }

  lemma RenderClear(rs: seq<Report>, trailer: seq<string>)
    requires rs == [] ==> Clear(trailer)
    requires rs != [] ==> Good(rs[0]) && Clear(Lead(rs[0]))
    ensures Clear(Render(rs, trailer))
  {
    hide Outside, Blank, IsPanic, IsSummary, ValueAfterKey, KvLine, FrameLines, AfterFrame, Lead, RenderOne, Clear, AllSilent;
    if rs != [] {
      var r := rs[0];
      SummaryShape(r);
      RenderShape(r, Render(rs[1..], trailer));
      LeadClear(Lead(r), Summary(r), FrameLines(r) + AfterFrame(r, Render(rs[1..], trailer)));
    }
  }

  /** The lines before the summary leave exactly the panic text pending. */
  lemma LeadStep(r: Report, rest: seq<string>, at: nat)
    requires Good(r)
    ensures var k := at + |Lead(r)|;
            var pending := if r.panic.Some? then Some((r.panic.value, at + |r.noise|)) else None;
            ParseFrom(Lead(r) + rest, at, None) == ParseFrom(rest, k, pending)
  {
    hide IsPanic, IsSummary, GoodFrame, GoodWords, GoodDumpRow, Clear, TrapAt, AllSilent;
    if r.panic.None? {
      PassSilent(r.noise, r.gap + rest, at, None);
      PassSilent(r.gap, rest, at + |r.noise|, None);
      assert Lead(r) + rest == r.noise + (r.gap + rest);
    } else {
      var p := r.panic.value;
      var more := r.gap + rest;
      PassSilent(r.noise, [p] + more, at, None);
      assert Lead(r) + rest == r.noise + ([p] + more);
      assert ([p] + more)[1..] == more;
      PassSilent(r.gap, rest, at + |r.noise| + 1, Some((p, at + |r.noise|)));
    }
  }

  /** A trailer says nothing. */
  lemma TrailerSilent(trailer: seq<string>, at: nat)
    requires AllSilent(trailer)
    ensures ParseFrom(trailer, at, None) == []
  {
    hide ParseFrom, AllSilent;
    PassSilent(trailer, [], at, None);
    assert trailer + [] == trailer;
    NoLines(at + |trailer|);
  }

  lemma NoLines(at: nat)
    ensures ParseFrom([], at, None) == []
  {}

  lemma GoodRest(rs: seq<Report>, trailer: seq<string>)
    requires GoodLog(rs, trailer) && rs != []
    ensures Good(rs[0]) && GoodLog(rs[1..], trailer)
    ensures Clear(Render(rs[1..], trailer))
  {
    hide Good, Clear, AllSilent, Lead, Render;
    assert forall i :: 0 <= i < |rs[1..]| ==> rs[1..][i] == rs[i + 1];
    RenderClear(rs[1..], trailer);
  }

  lemma {:induction false} ReportsReadBackFrom(rs: seq<Report>, trailer: seq<string>, at: nat)
    requires GoodLog(rs, trailer)
    ensures Records(ParseFrom(Render(rs, trailer), at, None)) == Meanings(rs)
  {
    hide IsPanic, IsSummary, ValueAfterKey, KvLine, FrameLines, AfterFrame, RenderOne, Clear, TrapAt, AllBlank, Entries, ParseFrom;
    hide GoodFrame, GoodWords, GoodDumpRow, AllSilent, GoodLog;
    if rs == [] {
      TrailerSilentIn(trailer, at);
    } else {
      GoodRest(rs, trailer);
      var r, tail := rs[0], Render(rs[1..], trailer);
      RenderShape(r, tail);
      var body := [Summary(r)] + (FrameLines(r) + AfterFrame(r, tail));
      LeadStep(r, body, at);
      var k := at + |Lead(r)|;
      var pending := if r.panic.Some? then Some((r.panic.value, at + |r.noise|)) else None;
      TrapStep(r, tail, k, pending);
      ReportsReadBackFrom(rs[1..], trailer, k + |body| - |tail|);
      var t := TrapAt(body, k, pending);
      assert t.trap == Meaning(r);
      var located := ParseFrom(tail, k + |body| - |tail|, None);
      assert ParseFrom(Render(rs, trailer), at, None) == [t] + located;
      assert Records([t] + located) == [t.trap] + Records(located);
      assert Meanings(rs) == [Meaning(r)] + Meanings(rs[1..]);
    }
  }

  lemma TrailerSilentIn(trailer: seq<string>, at: nat)
    requires GoodLog([], trailer)
    ensures ParseFrom(trailer, at, None) == []
  {
    hide ParseFrom, AllSilent;
    TrailerSilent(trailer, at);
  }

  /** For every list of reports with any other lines around them, parsing the log gives back their records. */
  lemma ReportsReadBack(rs: seq<Report>, trailer: seq<string>)
    requires GoodLog(rs, trailer)
    ensures Records(Parse(Render(rs, trailer))) == Meanings(rs)
  {
    hide ParseFrom, Render, GoodLog, Meaning, Records, Meanings;
    ReportsReadBackFrom(rs, trailer, 0);
  }

  /** Which lines count as a panic. */
  lemma PanicIff(line: string)
    ensures IsPanic(line) <==> || Anywhere(line, "panicked at") || Anywhere(line, "rust_begin_unwind")
                               || (|line| >= 6 && line[..6] == "PANIC:")
  {
    hide Contains, Anywhere;
    ContainsIff(line, "panicked at");
    ContainsIff(line, "rust_begin_unwind");
  }

  /** A panic line at most thirty lines before a trap, with no other panic between, comes back as its text. */
  lemma PanicReadsBack(r: Report, trailer: seq<string>, line: string)
    requires Anywhere(line, "panicked at") || Anywhere(line, "rust_begin_unwind") || (|line| >= 6 && line[..6] == "PANIC:")
    requires GoodLog([r.(panic := None)], trailer) && |r.gap| < 30
    ensures var all := Records(Parse(Render([r.(panic := Some(line))], trailer)));
            |all| == 1 && all[0].panic == Some(line)
  {
    hide IsPanic, Anywhere, Parse, Render, Records, Entries, AllBlank;
    PanicIff(line);
    WithPanic(r, trailer, line);
    ReportsReadBack([r.(panic := Some(line))], trailer);
    assert Meanings([r.(panic := Some(line))]) == [Meaning(r.(panic := Some(line)))];
  }

  lemma WithPanic(r: Report, trailer: seq<string>, line: string)
    requires IsPanic(line) && GoodLog([r.(panic := None)], trailer)
    ensures GoodLog([r.(panic := Some(line))], trailer)
  {
    hide IsPanic, Clear, AllSilent;
    assert Good([r.(panic := None)][0]);
  }

  /** A report comes back whole exactly when only blank lines stand between its frame and what
      follows, or nothing follows, and its panic text, if any, is at most thirty lines back. */
  lemma WholeReportIff(r: Report, trailer: seq<string>)
    requires GoodLog([r], trailer)
    ensures Records(Parse(Render([r], trailer)))
         == [TrapRecord(r.scause, r.sepc, r.stval, r.frame, r.chain, Entries(r.rows), r.panic)]
        <==> (AllBlank(r.state) || (r.chain == [] && Entries(r.rows) == [])) && (r.panic.Some? ==> |r.gap| < 30)
  {
    hide GoodLog, AllBlank, Entries, Render, Parse;
    ReportsReadBack([r], trailer);
    assert Meanings([r]) == [Meaning(r)];
  }
}
