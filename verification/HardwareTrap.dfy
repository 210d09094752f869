/** The whole report the riscv64 kernel prints for a fatal hardware trap, and what the decoder makes of it:
    the execution state printed behind the trap frame hides the frame-pointer chain and the stack dump. */
module HardwareTrap {
  import opened Options
  import opened Splits
  import opened TrapText
  import opened TrapParser
  import opened TrapRender
  import opened TrapRoundTrip

  const RESUME: string := "kernel-resume:"
  const EXEC: string := "kernel-exec:"
  const LAST_RETURN: string := "last-kernel-trap-return:"
  const STACK_SCAN: string := "kstack-ra-candidates:"
  const BANNER: string := "txkernel:qemu-riscv64-virt:trap"
  const REASON: string := "reason=trap-action-terminate"

  /** The numbers of the three execution-state lines. */
  datatype State = State(cpu: nat, ctx: nat, sp: nat, ra: nat, loadedSp: nat, loadedRa: nat, entryGen: nat, resumeGen: nat,
                         top: nat, used: nat, trapTop: nat, saved: nat, current: nat, satp: nat,
                         sequence: nat, scause: nat, stval: nat, marker: nat, inSepc: nat, outSepc: nat, inRa: nat,
                         outRa: nat, inSp: nat, action: nat, fixup: nat)

  function ResumePairs(e: State): seq<Pair> {
    [("cpu", e.cpu), ("ctx", e.ctx), ("sp", e.sp), ("ra", e.ra)]
    + [("loaded-sp", e.loadedSp), ("loaded-ra", e.loadedRa), ("entry-gen", e.entryGen), ("resume-gen", e.resumeGen)]
  }

  function ExecPairs(e: State): seq<Pair> {
    [("stack-top", e.top), ("stack-used", e.used), ("trap-stack-top", e.trapTop)]
    + [("saved-sscratch", e.saved), ("current-sscratch", e.current), ("satp", e.satp)]
  }

  function ReturnPairs(e: State): seq<Pair> {
    [("seq", e.sequence), ("scause", e.scause), ("stval", e.stval), ("marker", e.marker)]
    + [("in-sepc", e.inSepc), ("out-sepc", e.outSepc), ("in-ra", e.inRa), ("out-ra", e.outRa)]
    + [("in-sp", e.inSp), ("action", e.action), ("fixup", e.fixup)]
  }

  predicate GoodPairs(pairs: seq<Pair>) { forall i :: 0 <= i < |pairs| ==> pairs[i].1 < TWO64 }

  predicate GoodState(e: State) { GoodPairs(ResumePairs(e)) && GoodPairs(ExecPairs(e)) && GoodPairs(ReturnPairs(e)) }

  function Titled(title: string, pairs: seq<Pair>): string { title + " " + KvLine(pairs) }

  function StateLines(e: State): seq<string> {
    [Titled(RESUME, ResumePairs(e)), Titled(EXEC, ExecPairs(e)), Titled(LAST_RETURN, ReturnPairs(e))]
  }

  // Values in a titled line

  lemma TitledValue(title: string, pairs: seq<Pair>, key: string)
    requires Free(title, Separator) && '=' !in title && PlainPairs(pairs) && pairs != []
    ensures ValueAfterKey(Titled(title, pairs), key) == Lookup(pairs, key)
  {
    hide SplitBy, FindKey, KvLine, Separator;
    SpaceSeparates();
    SplitToken(title, ' ', KvLine(pairs), Separator);
    SkipToken(title, SplitBy(KvLine(pairs), Separator), key);
    KvFind(pairs, key);
    assert title + [' '] + KvLine(pairs) == Titled(title, pairs);
  }

  lemma {:induction false} LookupNone(pairs: seq<Pair>, key: string)
    requires forall i :: 0 <= i < |pairs| ==> pairs[i].0 != key
    ensures Lookup(pairs, key) == None
  {
    if pairs != [] {
      LookupNone(pairs[1..], key);
    }
  }

  // Lines that are no panic

  lemma NotPanicLacking(line: string, c: char)
    requires c in "panicked at" && c !in line && '_' !in line && (line == "" || line[0] != 'P')
    ensures !IsPanic(line)
  {
    hide Contains;
    ContainsNeedsChars(line, "panicked at", c);
    ContainsNeedsChars(line, "rust_begin_unwind", '_');
  }

  /** A character that is neither in a key nor part of a number. */
  lemma {:induction false} KvLacks(pairs: seq<Pair>, c: char)
    requires !HexChar(c) && c !in ['x', '=', ' '] && forall i :: 0 <= i < |pairs| ==> c !in pairs[i].0
    ensures c !in KvLine(pairs)
  {
    hide HexChar, Word;
    if pairs != [] {
      WordLacks(pairs[0].1, c);
      if |pairs| > 1 {
        KvLacks(pairs[1..], c);
      }
    }
  }

  lemma WordLacks(v: nat, c: char)
    requires !HexChar(c) && c != 'x'
    ensures c !in Word(v)
  {
    var w := Word(v);
    assert forall i :: 0 <= i < |w| ==> HexChar(w[i]) || w[i] == 'x';
  }

  /** No c right before a k. */
  predicate NoCk(s: string) { forall i :: 0 <= i < |s| && s[i] == 'k' ==> i == 0 || s[i - 1] != 'c' }

  lemma {:induction false} NoCkNotContained(s: string)
    requires NoCk(s)
    ensures !Contains(s, "panicked at")
  {
    if "panicked at" <= s {
      CkInside(s);
    }
    if s != "" {
      assert forall i :: 0 <= i < |s[1..]| ==> s[1..][i] == s[i + 1];
      NoCkNotContained(s[1..]);
    }
  }

  lemma CkInside(s: string)
    requires "panicked at" <= s
    ensures |s| > 5 && s[4] == 'c' && s[5] == 'k'
  {
    assert s[4] == "panicked at"[4] && s[5] == "panicked at"[5];
  }

  lemma NoCkJoin(a: string, c: char, b: string)
    requires NoCk(a) && NoCk(b) && c != 'c' && c != 'k'
    ensures NoCk(a + [c] + b)
  {}

  lemma NoCkWithout(s: string)
    requires 'k' !in s
    ensures NoCk(s)
  {}

  lemma {:induction false} KvNoCk(pairs: seq<Pair>)
    requires forall i :: 0 <= i < |pairs| ==> NoCk(pairs[i].0)
    ensures NoCk(KvLine(pairs))
  {
    hide NoCk, Word;
    NoCkWithout("");
    if pairs != [] {
      var p := pairs[0];
      WordPlain(p.1);
      NoCkWithout(Word(p.1));
      NoCkJoin(p.0, '=', Word(p.1));
      assert Token(p) == p.0 + ['='] + Word(p.1);
      if |pairs| > 1 {
        KvNoCk(pairs[1..]);
        NoCkJoin(Token(p), ' ', KvLine(pairs[1..]));
        assert KvLine(pairs) == Token(p) + [' '] + KvLine(pairs[1..]);
      }
    }
  }

  // The three lines are silent

  /** A key that cannot make its line a panic, and is not scause. */
  predicate QuietKey(k: string) { PlainKey(k) && k != "scause" && 'i' !in k && '_' !in k }

  /** A key of the last line. */
  predicate ReturnKey(k: string) { PlainKey(k) && k != "sepc" && NoCk(k) && '_' !in k }

  lemma ResumeKeys()
    ensures QuietKey("cpu") && QuietKey("ctx") && QuietKey("sp") && QuietKey("ra")
    ensures QuietKey("loaded-sp") && QuietKey("loaded-ra")
  {}

  lemma GenerationKeys()
    ensures QuietKey("entry-gen") && QuietKey("resume-gen")
  {}

  lemma StackKeys()
    ensures QuietKey("stack-top") && QuietKey("stack-used") && QuietKey("satp")
  {}

  lemma TrapStackKey()
    ensures QuietKey("trap-stack-top")
  {}

  lemma SavedKey()
    ensures QuietKey("saved-sscratch")
  {}

  lemma CurrentKey()
    ensures QuietKey("current-sscratch")
  {}

  lemma ReturnKeysFirst()
    ensures ReturnKey("seq") && ReturnKey("scause") && ReturnKey("stval") && ReturnKey("marker") && ReturnKey("fixup")
  {}

  lemma ReturnKeysLast()
    ensures ReturnKey("in-sepc") && ReturnKey("out-sepc") && ReturnKey("in-ra") && ReturnKey("out-ra")
    ensures ReturnKey("in-sp") && ReturnKey("action")
  {}

  lemma ResumeQuiet(e: State)
    ensures forall i :: 0 <= i < |ResumePairs(e)| ==> QuietKey(ResumePairs(e)[i].0)
  {
    hide QuietKey;
    ResumeKeys();
    GenerationKeys();
  }

  lemma ExecQuiet(e: State)
    ensures forall i :: 0 <= i < |ExecPairs(e)| ==> QuietKey(ExecPairs(e)[i].0)
  {
    hide QuietKey;
    StackKeys();
    TrapStackKey();
    SavedKey();
    CurrentKey();
  }

  lemma ReturnQuiet(e: State)
    ensures forall i :: 0 <= i < |ReturnPairs(e)| ==> ReturnKey(ReturnPairs(e)[i].0)
  {
    hide ReturnKey;
    ReturnKeysFirst();
    ReturnKeysLast();
  }

  lemma TitledLacks(title: string, pairs: seq<Pair>, c: char)
    requires !HexChar(c) && c !in ['x', '=', ' '] && c !in title && forall i :: 0 <= i < |pairs| ==> c !in pairs[i].0
    ensures c !in Titled(title, pairs)
  {
    hide KvLine, HexChar;
    KvLacks(pairs, c);
  }

  predicate QuietTitle(title: string) {
    Free(title, Separator) && '=' !in title && title != "" && title[0] != 'P' && '_' !in title
  }

  lemma PlainTitledSilent(title: string, pairs: seq<Pair>)
    requires QuietTitle(title) && 'i' !in title && pairs != [] && GoodPairs(pairs)
    requires forall i :: 0 <= i < |pairs| ==> QuietKey(pairs[i].0)
    ensures Silent(Titled(title, pairs))
  {
    hide KvLine, ValueAfterKey, IsPanic, Free;
    TitledValue(title, pairs, "scause");
    LookupNone(pairs, "scause");
    TitledLacks(title, pairs, 'i');
    TitledLacks(title, pairs, '_');
    NotPanicLacking(Titled(title, pairs), 'i');
  }

  /** A line that names sepc only inside longer keys is no summary. */
  lemma ReturnTitledSilent(title: string, pairs: seq<Pair>)
    requires QuietTitle(title) && NoCk(title) && pairs != [] && GoodPairs(pairs)
    requires forall i :: 0 <= i < |pairs| ==> ReturnKey(pairs[i].0)
    ensures Silent(Titled(title, pairs))
  {
    hide KvLine, ValueAfterKey, Contains, NoCk, Free;
    TitledValue(title, pairs, "sepc");
    LookupNone(pairs, "sepc");
    TitledLacks(title, pairs, '_');
    KvNoCk(pairs);
    NoCkJoin(title, ' ', KvLine(pairs));
    var line := Titled(title, pairs);
    assert line == title + [' '] + KvLine(pairs);
    NoCkNotContained(line);
    ContainsNeedsChars(line, "rust_begin_unwind", '_');
    assert line[0] == title[0];
  }

  lemma ResumeTitle()
    ensures QuietTitle(RESUME) && 'i' !in RESUME
  {}

  lemma ExecTitle()
    ensures QuietTitle(EXEC) && 'i' !in EXEC
  {}

  lemma ReturnTitle()
    ensures QuietTitle(LAST_RETURN) && NoCk(LAST_RETURN)
  {}

  lemma StateSilent(e: State)
    requires GoodState(e)
    ensures AllSilent(StateLines(e))
  {
    hide Silent, ResumePairs, ExecPairs, ReturnPairs, Titled, GoodPairs, QuietTitle, NoCk, RESUME, EXEC, LAST_RETURN, QuietKey, ReturnKey;
    ResumeTitle();
    ExecTitle();
    ReturnTitle();
    ResumeQuiet(e);
    ExecQuiet(e);
    ReturnQuiet(e);
    HavePairs(e);
    PlainTitledSilent(RESUME, ResumePairs(e));
    PlainTitledSilent(EXEC, ExecPairs(e));
    ReturnTitledSilent(LAST_RETURN, ReturnPairs(e));
  }

  lemma HavePairs(e: State)
    ensures ResumePairs(e) != [] && ExecPairs(e) != [] && ReturnPairs(e) != []
  {}

  /** They are visible and neither continue the frame nor open a block. */
  lemma StateClear(e: State)
    requires GoodState(e)
    ensures Clear(StateLines(e)) && !AllBlank(StateLines(e))
  {
    hide FirstLine, Outside, Blank, Trim, Titled, ResumePairs, ExecPairs, ReturnPairs;
    var lines := StateLines(e);
    ResumeVisible(e);
    assert lines == [lines[0]] + lines[1..];
    FirstIs(lines[0], lines[1..]);
  }

  lemma ResumeVisible(e: State)
    ensures var line := Titled(RESUME, ResumePairs(e)); Outside(line) && !Blank(line)
  {
    hide KvLine, Trim, HexChar;
    var ps := ResumePairs(e);
    var line := Titled(RESUME, ps);
    LastIsDigit(ps);
    assert line[|line| - 1] == KvLine(ps)[|KvLine(ps)| - 1];
    DigitsShow(line[|line| - 1]);
    assert line[0] == 'k';
    TrimKeeps(line);
  }

  lemma DigitsShow(c: char)
    requires HexChar(c)
    ensures !WhiteSpace(c)
  {}

  // Around the report

  function ScanRow(row: (nat, nat)): string { "  +" + Word(row.0) + ": " + Word(row.1) }

  function ScanRows(rows: seq<(nat, nat)>): seq<string> {
    seq(|rows|, i requires 0 <= i < |rows| => ScanRow(rows[i]))
  }

  lemma ScanRowSilent(row: (nat, nat))
    ensures Silent(ScanRow(row))
  {
    hide IsPanic, ValueAfterKey, Word;
    WordPlain(row.0);
    WordPlain(row.1);
    NotPanic(ScanRow(row));
    NoEqualsNoValue(ScanRow(row), "scause");
  }

  lemma ScanTitleSilent()
    ensures Silent(STACK_SCAN)
  {
    hide IsPanic, ValueAfterKey;
    NotPanicLacking(STACK_SCAN, 'p');
    NoEqualsNoValue(STACK_SCAN, "scause");
  }

  lemma ScanTitleVisible()
    ensures Outside(STACK_SCAN) && !Blank(STACK_SCAN)
  {
    hide Trim;
    TrimKeeps(STACK_SCAN);
  }

  lemma BannerSilent()
    ensures Silent(BANNER)
  {
    hide IsPanic, ValueAfterKey;
    NotPanicLacking(BANNER, 'd');
    NoEqualsNoValue(BANNER, "scause");
  }

  lemma ReasonSilent()
    ensures Silent(REASON)
  {
    hide IsPanic, ValueAfterKey;
    NotPanicLacking(REASON, 'k');
    ReasonNoScause();
  }

  lemma ReasonFree()
    ensures Free(REASON, Separator)
  {}

  lemma ReasonSplits()
    ensures SplitOnce(REASON, '=') == Some(("reason", "trap-action-terminate"))
  {
    hide SplitOnce;
    assert REASON == "reason" + ['='] + "trap-action-terminate";
    SplitOnceAt("reason", '=', "trap-action-terminate");
  }

  lemma ReasonNoScause()
    ensures ValueAfterKey(REASON, "scause") == None
  {
    hide SplitBy, SplitOnce, FindKey, REASON, Free, Separator;
    ReasonFree();
    ReasonSplits();
    SplitWhole(REASON, Separator);
    OneOther(REASON);
  }

  lemma OneOther(tok: string)
    requires SplitOnce(tok, '=').Some? && SplitOnce(tok, '=').value.0 == "reason"
    ensures FindKey([tok], "scause") == None
  {
    hide SplitOnce;
    assert [tok][1..] == [];
  }

  /** The stack scan, which is not printed for a stack pointer outside the kernel, and whatever follows it. */
  function Behind(scan: Option<seq<(nat, nat)>>, after: seq<string>): seq<string> {
    if scan.None? then after else [STACK_SCAN] + (ScanRows(scan.value) + after)
  }

  lemma BehindGood(scan: Option<seq<(nat, nat)>>, after: seq<string>)
    requires AllSilent(after) && (scan.None? ==> Clear(after))
    ensures AllSilent(Behind(scan, after)) && Clear(Behind(scan, after))
  {
    hide Silent, FirstLine, Outside, Blank, ScanRow;
    if scan.Some? {
      ScanTitleSilent();
      ScanTitleVisible();
      var rows := ScanRows(scan.value);
      forall i | 0 <= i < |rows| ensures Silent(rows[i]) { ScanRowSilent(scan.value[i]); }
      FirstIs(STACK_SCAN, rows + after);
    }
  }

  function FatalReport(earlier: seq<string>, f: Frame, e: State, chain: seq<(nat, nat)>, sp: nat, rows: seq<(nat, seq<nat>)>): Report {
    Report(earlier + [BANNER, REASON], None, [], f.scause, f.sepc, f.stval, Some(f), StateLines(e), chain, sp, rows)
  }

  /** For every fatal trap the kernel reports, whatever its registers, chain, dump and execution state, and
      whatever silent lines stand before and behind, the decoder reads one record with the frame but
      without the chain and without the dump. */
  lemma FatalReportLosesChain(earlier: seq<string>, f: Frame, e: State, chain: seq<(nat, nat)>, sp: nat, rows: seq<(nat, seq<nat>)>,
                              scan: Option<seq<(nat, nat)>>, after: seq<string>)
    requires AllSilent(earlier) && GoodFrame(f) && GoodState(e) && GoodWords(chain) && sp < TWO64
    requires forall i :: 0 <= i < |rows| ==> GoodDumpRow(rows[i])
    requires AllSilent(after) && (scan.None? ==> Clear(after))
    ensures Records(Parse(Render([FatalReport(earlier, f, e, chain, sp, rows)], Behind(scan, after))))
         == [TrapRecord(f.scause, f.sepc, f.stval, Some(f), [], [], None)]
  {
    hide Parse, Render, Records, Entries, Behind, StateLines, Clear, AllBlank, Silent, GoodState, GoodWords, GoodDumpRow;
    var r := FatalReport(earlier, f, e, chain, sp, rows);
    StateSilent(e);
    StateClear(e);
    BannerSilent();
    ReasonSilent();
    BehindGood(scan, after);
    assert GoodLog([r], Behind(scan, after));
    ReportsReadBack([r], Behind(scan, after));
    assert Meanings([r]) == [Meaning(r)];
  }
}
