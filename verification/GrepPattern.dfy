/** The patterns netfast's grep handles itself: a literal, or literals around one parenthesised
    alternation, with optional anchors. What they mean as regular expressions, how they are written,
    and the literals they are expanded into. */
module GrepPattern {
  import opened Options
  import opened Splits
  import opened LineReader
  import opened CText

  /** Not a regular expression metacharacter. */
  predicate Safe(c: char) {
    c !in ['.', '[', ']', '*', '+', '?', '{', '}', '(', ')', '|', '^', '$', '\\']
  }

  predicate AllSafe(s: string) { forall i :: 0 <= i < |s| ==> Safe(s[i]) }

  // Patterns and their meaning

  datatype Pattern = Pattern(left: bool, pre: string, alts: Option<seq<string>>, suf: string, right: bool)

  predicate AllSafeAlts(alts: seq<string>) { forall i :: 0 <= i < |alts| ==> AllSafe(alts[i]) }

  predicate WellFormed(p: Pattern) {
    && AllSafe(p.pre) && AllSafe(p.suf)
    && (p.alts.None? ==> p.suf == "")
    && (p.alts.Some? ==> p.alts.value != [] && AllSafeAlts(p.alts.value))
  }

  datatype Regex = Lit(text: string) | Cat(first: Regex, second: Regex) | Alt(choices: seq<Regex>)

  /** The words a regular expression stands for. */
  ghost predicate In(w: string, re: Regex)
    decreases re
  {
    match re
    case Lit(text) => w == text
    case Cat(a, b) => exists k :: 0 <= k <= |w| && In(w[..k], a) && In(w[k..], b)
    case Alt(rs) => exists i :: 0 <= i < |rs| && In(w, rs[i])
  }

  function Lits(alts: seq<string>): (rs: seq<Regex>)
    ensures |rs| == |alts| && forall i :: 0 <= i < |alts| ==> rs[i] == Lit(alts[i])
  {
    seq(|alts|, i requires 0 <= i < |alts| => Lit(alts[i]))
  }

  function Meaning(p: Pattern): (re: Regex) {
    if p.alts.None? then Lit(p.pre) else Cat(Lit(p.pre), Cat(Alt(Lits(p.alts.value)), Lit(p.suf)))
  }

  /** A part of the line is a word of the expression; anchors pin its ends. */
  ghost predicate Spans(line: string, re: Regex, i: nat, j: nat, left: bool, right: bool) {
    i <= j <= |line| && (left ==> i == 0) && (right ==> j == |line|) && In(line[i..j], re)
  }

  ghost predicate Search(p: Pattern, line: string) {
    exists i, j :: Spans(line, Meaning(p), i, j, p.left, p.right)
  }

  // How patterns are written

  function Bars(alts: seq<string>): (s: string)
    requires alts != []
  {
    if |alts| == 1 then alts[0] else alts[0] + "|" + Bars(alts[1..])
  }

  function Body(p: Pattern): (s: string)
    requires WellFormed(p)
  {
    if p.alts.None? then p.pre else p.pre + "(" + Bars(p.alts.value) + ")" + p.suf
  }

  function Print(p: Pattern): (s: string)
    requires WellFormed(p)
  {
    (if p.left then "^" else "") + Body(p) + (if p.right then "$" else "")
  }

  // What the code makes of a pattern

  datatype Compiled =
    | Fallback                                          // handed to the real grep
    | Overrun                                           // literal too long for its slot
    | Literals(lits: seq<string>, left: bool, right: bool)

  const CORE: nat := 256
  const SLOT: nat := 128
  const SLOTS: nat := 8

  predicate Open(c: char) { c == '(' }
  predicate Close(c: char) { c == ')' }
  predicate Bar(c: char) { c == '|' }

  function StripLeft(text: string): (r: (bool, string)) {
    if text != "" && text[0] == '^' then (true, text[1..]) else (false, text)
  }

  function StripRight(text: string): (r: (string, bool)) {
    if text != "" && text[|text| - 1] == '$' then (text[..|text| - 1], true) else (text, false)
  }

  function Unanchored(text: string): (r: (bool, string, bool)) {
    var (left, t) := StripLeft(text);
    var (core, right) := StripRight(t);
    (left, core, right)
  }

  /** The alternatives the loop visits: an empty last one is not reached. */
  function Visited(mid: string): (alts: seq<string>) { Segments(mid, Bar) }

  function Expand(pre: string, alts: seq<string>, suf: string): (lits: seq<string>)
    ensures |lits| == |alts| && forall i :: 0 <= i < |alts| ==> lits[i] == pre + alts[i] + suf
  {
    seq(|alts|, i requires 0 <= i < |alts| => pre + alts[i] + suf)
  }

  predicate Fit(pre: string, alts: seq<string>, suf: string) {
    && alts != [] && |alts| <= SLOTS && AllSafeAlts(alts)
    && forall i :: 0 <= i < |alts| ==> |pre| + |alts[i]| + |suf| < SLOT
  }

  function CompileGroup(core: string, left: bool, right: bool): (c: Compiled) {
    var lp := FirstOf(core, Open);
    if lp == |core| then Fallback
    else
      var tail := core[lp + 1..];
      var n := FirstOf(tail, Close);
      if n == |tail| then Fallback
      else
        var pre, mid, suf := core[..lp], tail[..n], tail[n + 1..];
        if !AllSafe(pre) || !AllSafe(suf) || !Fit(pre, Visited(mid), suf) then Fallback
        else Literals(Expand(pre, Visited(mid), suf), left, right)
  }

  function Compile(text: string, extended: bool): (c: Compiled) {
    var (left, core, right) := Unanchored(text);
    if |text| >= CORE then Fallback
    else if AllSafe(core) then if |core| < SLOT then Literals([core], left, right) else Overrun
    else if extended then CompileGroup(core, left, right)
    else Fallback
  }

  // Writing and reading patterns

  lemma {:induction false} BarsSplit(alts: seq<string>)
    requires alts != [] && AllSafeAlts(alts)
    ensures SplitBy(Bars(alts), Bar) == alts
  {
    hide SplitBy;
    SafeFree(alts[0]);
    if |alts| == 1 {
      SplitWhole(alts[0], Bar);
    } else {
      assert AllSafeAlts(alts[1..]);
      BarsSplit(alts[1..]);
      SplitToken(alts[0], '|', Bars(alts[1..]), Bar);
    }
  }

  lemma SafeFree(s: string)
    requires AllSafe(s)
    ensures Free(s, Bar) && Free(s, Open) && Free(s, Close)
  {}

  lemma {:induction false} SplitBars(s: string)
    ensures Bars(SplitBy(s, Bar)) == s
    decreases |s|
  {
    hide SplitBy, FirstOf;
    SplitFirst(s, Bar);
    var k := FirstOf(s, Bar);
    if k < |s| {
      SplitBars(s[k + 1..]);
      var rest := SplitBy(s[k + 1..], Bar);
      assert ([s[..k]] + rest)[1..] == rest;
      Around(s, k);
    }
  }

  lemma {:induction false} BarsFree(alts: seq<string>)
    requires alts != [] && AllSafeAlts(alts)
    ensures Free(Bars(alts), Close)
  {
    SafeFree(alts[0]);
    if |alts| > 1 {
      assert AllSafeAlts(alts[1..]);
      BarsFree(alts[1..]);
    }
  }

  lemma LeftAnchor(left: bool, t: string)
    requires t == "" || t[0] != '^'
    ensures StripLeft((if left then "^" else "") + t) == (left, t)
  {
    var text := (if left then "^" else "") + t;
    if left {
      assert text[1..] == t;
    } else {
      assert text == t;
    }
  }

  lemma RightAnchor(body: string, right: bool)
    requires body == "" || body[|body| - 1] != '$'
    ensures StripRight(body + (if right then "$" else "")) == (body, right)
  {
    var t := body + (if right then "$" else "");
    if right {
      assert t[..|t| - 1] == body;
    } else {
      assert t == body;
    }
  }

  lemma Anchors(body: string, left: bool, right: bool)
    requires body == "" || (body[0] != '^' && body[|body| - 1] != '$')
    ensures Unanchored((if left then "^" else "") + body + (if right then "$" else "")) == (left, body, right)
  {
    hide StripLeft, StripRight;
    var t := body + (if right then "$" else "");
    assert (if left then "^" else "") + body + (if right then "$" else "") == (if left then "^" else "") + t;
    LeftAnchor(left, t);
    RightAnchor(body, right);
  }

  lemma GroupRead(pre: string, mid: string, suf: string)
    requires AllSafe(pre) && Free(mid, Close)
    ensures var core := pre + "(" + mid + ")" + suf;
            var tail := mid + ")" + suf;
            && FirstOf(core, Open) == |pre| && |pre| < |core| && core[..|pre|] == pre && core[|pre| + 1..] == tail
            && FirstOf(tail, Close) == |mid| && |mid| < |tail| && tail[..|mid|] == mid && tail[|mid| + 1..] == suf
            && !AllSafe(core)
  {
    hide FirstOf;
    var core := pre + "(" + mid + ")" + suf;
    var tail := mid + ")" + suf;
    SafeFree(pre);
    assert core == pre + ("(" + tail);
    FirstOfIs(pre, "(" + tail, Open);
    assert tail == mid + (")" + suf);
    FirstOfIs(mid, ")" + suf, Close);
    assert !Safe(core[|pre|]);
  }

  lemma BodyEnds(p: Pattern)
    requires WellFormed(p)
    ensures var b := Body(p); b == "" || (b[0] != '^' && b[|b| - 1] != '$')
  {
    var b := Body(p);
    if b != "" {
      assert p.pre != "" ==> b[0] == p.pre[0] && Safe(p.pre[0]);
      if p.alts.Some? {
        assert p.pre == "" ==> b[0] == '(';
        assert b[|b| - 1] == if p.suf == "" then ')' else p.suf[|p.suf| - 1];
      } else {
        assert Safe(p.pre[|p.pre| - 1]);
      }
    }
  }

  /** The literals of a pattern, as the code expands it. */
  function Expanded(p: Pattern): (lits: seq<string>) {
    if p.alts.None? then [p.pre]
    else if p.alts.value == [] then []
    else Expand(p.pre, DropLastEmpty(p.alts.value), p.suf)
  }

  /** The patterns handled without the real grep. */
  predicate Handled(p: Pattern, extended: bool) {
    && WellFormed(p) && |Print(p)| < CORE
    && (if p.alts.None? then |p.pre| < SLOT else extended && Fit(p.pre, DropLastEmpty(p.alts.value), p.suf))
  }

  lemma GroupCompiles(pre: string, alts: seq<string>, suf: string, left: bool, right: bool)
    requires AllSafe(pre) && AllSafe(suf) && alts != [] && AllSafeAlts(alts) && Fit(pre, DropLastEmpty(alts), suf)
    ensures var core := pre + "(" + Bars(alts) + ")" + suf;
            && !AllSafe(core)
            && CompileGroup(core, left, right) == Literals(Expand(pre, DropLastEmpty(alts), suf), left, right)
  {
    hide FirstOf, AllSafe, AllSafeAlts, SplitBy, Bars, Fit, DropLastEmpty, Expand;
    BarsFree(alts);
    BarsSplit(alts);
    GroupRead(pre, Bars(alts), suf);
  }

  lemma PrintedCompiles(p: Pattern, extended: bool)
    requires Handled(p, extended)
    ensures Compile(Print(p), extended) == Literals(Expanded(p), p.left, p.right)
  {
    hide FirstOf, AllSafe, AllSafeAlts, SplitBy, Bars, Fit, DropLastEmpty, CompileGroup, Unanchored, Expand;
    BodyEnds(p);
    Anchors(Body(p), p.left, p.right);
    if p.alts.Some? {
      GroupCompiles(p.pre, p.alts.value, p.suf, p.left, p.right);
    }
  }

  lemma GroupIsPrinted(core: string, left: bool, right: bool) returns (pre: string, alts: seq<string>, suf: string)
    requires CompileGroup(core, left, right).Literals?
    ensures alts != [] && AllSafe(pre) && AllSafe(suf) && AllSafeAlts(alts) && Fit(pre, DropLastEmpty(alts), suf)
    ensures core == pre + "(" + Bars(alts) + ")" + suf
    ensures CompileGroup(core, left, right) == Literals(Expand(pre, DropLastEmpty(alts), suf), left, right)
  {
    hide FirstOf, AllSafe, SplitBy, Bars, Expand, DropLastEmpty, AllSafeAlts;
    var lp := FirstOf(core, Open);
    var tail := core[lp + 1..];
    var n := FirstOf(tail, Close);
    pre, suf := core[..lp], tail[n + 1..];
    var mid := tail[..n];
    alts := SplitBy(mid, Bar);
    SplitBars(mid);
    LastSafe(alts);
    Around(core, lp);
    Around(tail, n);
    assert pre + "(" + (mid + ")" + suf) == pre + "(" + mid + ")" + suf;
  }

  /** Whatever is compiled is a well-formed pattern within the limits, written out. */
  lemma CompiledIsPrinted(text: string, extended: bool) returns (p: Pattern)
    requires Compile(text, extended).Literals?
    ensures Handled(p, extended) && text == Print(p)
    ensures Compile(text, extended) == Literals(Expanded(p), p.left, p.right)
  {
    hide FirstOf, AllSafe, AllSafeAlts, SplitBy, Bars, Fit, DropLastEmpty, CompileGroup, Unanchored, Expand;
    var (left, core, right) := Unanchored(text);
    Reanchor(text);
    if AllSafe(core) {
      NoSuffix();
      p := Pattern(left, core, None, "", right);
    } else {
      var pre, alts, suf := GroupIsPrinted(core, left, right);
      p := Pattern(left, pre, Some(alts), suf, right);
    }
  }

  lemma NoSuffix()
    ensures AllSafe("")
  {}

  lemma LastSafe(alts: seq<string>)
    requires alts != [] && AllSafeAlts(DropLastEmpty(alts))
    ensures AllSafeAlts(alts)
  {
    forall i | 0 <= i < |alts| ensures AllSafe(alts[i]) {
      if i < |DropLastEmpty(alts)| {
        assert DropLastEmpty(alts)[i] == alts[i];
      }
    }
  }

  lemma Reanchor(text: string)
    ensures var (left, core, right) := Unanchored(text);
            text == (if left then "^" else "") + core + (if right then "$" else "")
  {
  }

  // Matching literals, and what expansion keeps of the meaning

  /** Where a literal may sit in a line. */
  predicate Sits(line: string, lit: string, i: nat, left: bool, right: bool) {
    i + |lit| <= |line| && (left ==> i == 0) && (right ==> i + |lit| == |line|) && line[i..i + |lit|] == lit
  }

  ghost predicate LitFound(line: string, lit: string, left: bool, right: bool) {
    exists i :: Sits(line, lit, i, left, right)
  }

  ghost predicate AnyFound(line: string, lits: seq<string>, left: bool, right: bool) {
    exists k :: 0 <= k < |lits| && LitFound(line, lits[k], left, right)
  }

  lemma InLit(w: string, re: Regex)
    requires re.Lit?
    ensures In(w, re) <==> w == re.text
  {}

  /** Concatenation with a literal on the left, or on the right. */
  lemma InLitCat(w: string, pre: string, re: Regex)
    ensures In(w, Cat(Lit(pre), re)) <==> |pre| <= |w| && w[..|pre|] == pre && In(w[|pre|..], re)
  {
    if k :| 0 <= k <= |w| && In(w[..k], Lit(pre)) && In(w[k..], re) {
      assert w[..k] == pre;
    }
    if |pre| <= |w| && w[..|pre|] == pre && In(w[|pre|..], re) {
      assert In(w[..|pre|], Lit(pre));
    }
  }

  lemma InCatLit(w: string, re: Regex, suf: string)
    ensures In(w, Cat(re, Lit(suf))) <==> |suf| <= |w| && w[|w| - |suf|..] == suf && In(w[..|w| - |suf|], re)
  {
    if k :| 0 <= k <= |w| && In(w[..k], re) && In(w[k..], Lit(suf)) {
      assert w[k..] == suf;
    }
    if |suf| <= |w| && w[|w| - |suf|..] == suf && In(w[..|w| - |suf|], re) {
      assert In(w[|w| - |suf|..], Lit(suf));
    }
  }

  lemma InAlt(w: string, alts: seq<string>)
    ensures In(w, Alt(Lits(alts))) <==> w in alts
  {
    if w in alts {
      var i :| 0 <= i < |alts| && alts[i] == w;
      assert In(w, Lits(alts)[i]);
    }
  }

  lemma InGroup(w: string, pre: string, alts: seq<string>, suf: string)
    ensures In(w, Cat(Lit(pre), Cat(Alt(Lits(alts)), Lit(suf)))) <==> exists k :: 0 <= k < |alts| && w == pre + alts[k] + suf
  {
    hide In, Lits;
    var tail := Cat(Alt(Lits(alts)), Lit(suf));
    InLitCat(w, pre, tail);
    if |pre| <= |w| && w[..|pre|] == pre {
      var v := w[|pre|..];
      InCatLit(v, Alt(Lits(alts)), suf);
      if |suf| <= |v| && v[|v| - |suf|..] == suf {
        var u := v[..|v| - |suf|];
        InAlt(u, alts);
        assert w == pre + u + suf;
      }
    }
    if k :| 0 <= k < |alts| && w == pre + alts[k] + suf {
      assert w[..|pre|] == pre;
      var v := w[|pre|..];
      assert v == alts[k] + suf;
      assert v[..|v| - |suf|] == alts[k] && v[|v| - |suf|..] == suf;
    }
  }

  function AllLits(p: Pattern): (lits: seq<string>) {
    if p.alts.None? then [p.pre] else Expand(p.pre, p.alts.value, p.suf)
  }

  /** Every word of a pattern is one of its literals and the other way round. */
  lemma MeaningIsLits(p: Pattern, w: string)
    ensures In(w, Meaning(p)) <==> w in AllLits(p)
  {
    hide In;
    if p.alts.None? {
      InLit(w, Lit(p.pre));
    } else {
      InGroup(w, p.pre, p.alts.value, p.suf);
    }
  }

  /** Searching for the expression is looking for one of all its literals. */
  lemma SearchIsLits(p: Pattern, line: string)
    ensures Search(p, line) <==> AnyFound(line, AllLits(p), p.left, p.right)
  {
    hide Meaning, AllLits, In;
    if Search(p, line) {
      var i: nat, j: nat :| Spans(line, Meaning(p), i, j, p.left, p.right);
      MeaningIsLits(p, line[i..j]);
      var k :| 0 <= k < |AllLits(p)| && AllLits(p)[k] == line[i..j];
      assert Sits(line, AllLits(p)[k], i, p.left, p.right);
    }
    if k :| 0 <= k < |AllLits(p)| && LitFound(line, AllLits(p)[k], p.left, p.right) {
      var i: nat :| Sits(line, AllLits(p)[k], i, p.left, p.right);
      MeaningIsLits(p, AllLits(p)[k]);
      assert Spans(line, Meaning(p), i, i + |AllLits(p)[k]|, p.left, p.right);
    }
  }

  /** The last alternative is written, or an earlier one is empty too. */
  predicate NothingLost(p: Pattern) {
    p.alts.Some? && p.alts.value != [] ==>
      var alts := p.alts.value;
      alts[|alts| - 1] != "" || "" in alts[..|alts| - 1]
  }

  lemma KeptAmongAll(p: Pattern, line: string)
    requires WellFormed(p)
    ensures AnyFound(line, Expanded(p), p.left, p.right) ==> AnyFound(line, AllLits(p), p.left, p.right)
    ensures NothingLost(p) && AnyFound(line, AllLits(p), p.left, p.right) ==> AnyFound(line, Expanded(p), p.left, p.right)
  {
    hide LitFound;
    if p.alts.Some? {
      var alts := p.alts.value;
      var n := |alts| - 1;
      if k :| 0 <= k < |Expanded(p)| && LitFound(line, Expanded(p)[k], p.left, p.right) {
        assert AllLits(p)[k] == Expanded(p)[k];
      }
      if NothingLost(p) && alts[n] == "" {
        var m :| 0 <= m < n && alts[m] == "";
        forall k | 0 <= k < |alts| && LitFound(line, AllLits(p)[k], p.left, p.right)
          ensures AnyFound(line, Expanded(p), p.left, p.right)
        {
          var m' := if k < n then k else m;
          assert Expanded(p)[m'] == AllLits(p)[k];
        }
      }
    }
  }

  /** Expansion keeps the meaning when nothing is lost: a line matches the regular expression exactly
      when it holds one of the expanded literals. */
  lemma ExpansionMeans(p: Pattern, line: string)
    requires WellFormed(p) && NothingLost(p)
    ensures AnyFound(line, Expanded(p), p.left, p.right) <==> Search(p, line)
  {
    hide AnyFound, Search, Expanded, AllLits;
    KeptAmongAll(p, line);
    SearchIsLits(p, line);
  }

  /** When something is lost, the line made of the two outer literals matches but is not found. */
  lemma LostLine(p: Pattern)
    requires WellFormed(p) && !NothingLost(p)
    ensures Search(p, p.pre + p.suf) && !AnyFound(p.pre + p.suf, Expanded(p), p.left, p.right)
  {
    var alts := p.alts.value;
    var line := p.pre + p.suf;
    var n := |alts| - 1;
    assert AllLits(p)[n] == p.pre + "" + p.suf == line;
    assert Sits(line, AllLits(p)[n], 0, p.left, p.right);
    SearchIsLits(p, line);
    forall k | 0 <= k < |Expanded(p)| ensures !LitFound(line, Expanded(p)[k], p.left, p.right) {
      assert Expanded(p)[k] == p.pre + alts[k] + p.suf;
      assert alts[k] in alts[..n];
      assert |Expanded(p)[k]| > |line|;
    }
  }

  /** For instance `^(a|)$` is meant to match the empty line. */
  lemma EmptyLineLost()
    ensures var p := Pattern(true, "", Some(["a", ""]), "", true);
            Print(p) == "^(a|)$" && Search(p, "") && !AnyFound("", Expanded(p), true, true)
  {
    hide Search, AnyFound, Expanded;
    var p := Pattern(true, "", Some(["a", ""]), "", true);
    assert Bars(p.alts.value[1..]) == "";
    assert Bars(p.alts.value) == "a|";
    LostLine(p);
    assert p.pre + p.suf == "";
  }

  /** A line of input: no newline in it, and short enough not to be cut. */
  ghost predicate InputLine(line: string) { OneLine(line) && |line| < 4096 }

  ghost predicate SameOn(p: Pattern, line: string) { AnyFound(line, Expanded(p), p.left, p.right) <==> Search(p, line) }

  /** Expansion preserves the meaning on every input line exactly when nothing is lost. */
  lemma MeaningKeptIff(p: Pattern, extended: bool)
    requires Handled(p, extended) && OneLine(p.pre) && OneLine(p.suf)
    ensures (forall line | InputLine(line) :: SameOn(p, line)) <==> NothingLost(p)
  {
    hide AnyFound, Search, Expanded, Fit;
    if NothingLost(p) {
      forall line | InputLine(line) ensures SameOn(p, line) { ExpansionMeans(p, line); }
    } else {
      LostLine(p);
      var line := p.pre + p.suf;
      assert InputLine(line) by {
        assert |line| <= |Print(p)|;
      }
      assert !SameOn(p, line);
    }
  }
}
