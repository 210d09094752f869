/** netfast's `grep -q` on standard input. */
module Grep {
  import opened Options
  import opened Splits
  import opened CText
  import opened LineReader
  import opened GrepPattern
  import opened GrepMeaning
  import RT = RegexText

  const LINE: nat := 4096

  method LiteralSafe(s: string) returns (r: bool)
    ensures r <==> AllSafe(s)
    ensures r <==> forall i :: 0 <= i < |s| ==> s[i] !in ".[]*+?{}()|^$\\"
  {
    hide Safe;
    forall c ensures Safe(c) <==> c !in ".[]*+?{}()|^$\\" { SafeIs(c); }
    for i := 0 to |s|
      invariant forall k :: 0 <= k < i ==> Safe(s[k])
    {
      if !Safe(s[i]) {
        return false;
      }
    }
    return true;
  }

  lemma SafeIs(c: char)
    ensures Safe(c) <==> c !in ".[]*+?{}()|^$\\"
  {}

  method Find(s: string, p: char -> bool) returns (k: nat)
    ensures k == FirstOf(s, p)
  {
    hide FirstOf;
    k := 0;
    while k < |s| && !p(s[k])
      invariant k <= |s| && forall i :: 0 <= i < k ==> !p(s[i])
    {
      k := k + 1;
    }
    assert s == s[..k] + s[k..];
    FirstOfIs(s[..k], s[k..], p);
  }

  /** The alternatives still to visit from a position in the group. */
  ghost function Ahead(mid: string, at: nat): seq<string> {
    if at < |mid| then Visited(mid[at..]) else []
  }

  lemma AheadStep(mid: string, at: nat)
    requires at < |mid|
    ensures var k := FirstOf(mid[at..], Bar);
            at + k <= |mid| && Ahead(mid, at) == [mid[at..at + k]] + Ahead(mid, at + k + 1)
  {
    hide FirstOf, Segments;
    SegmentsStep(mid[at..], Bar);
    SegmentsStep("", Bar);
    var k := FirstOf(mid[at..], Bar);
    assert mid[at..][..k] == mid[at..at + k];
    if at + k < |mid| {
      assert mid[at..][k + 1..] == mid[at + k + 1..];
      assert at + k + 1 == |mid| ==> mid[at + k + 1..] == "";
    } else {
      assert mid[at..] == mid[at..at + k];
    }
  }

  /** Expands the group into its slots, or gives up. */
  method CollectAlternatives(pre: string, mid: string, suf: string) returns (ok: bool, lits: seq<string>)
    ensures ok <==> Fit(pre, Visited(mid), suf)
    ensures ok ==> 1 <= |lits| <= 8 && forall i :: 0 <= i < |lits| ==> |lits[i]| < 128
    ensures ok ==> lits == Expand(pre, Visited(mid), suf)
    ensures !ok ==> var all := Visited(mid);
              all == [] || |all| > 8 || exists i :: 0 <= i < |all| && (!AllSafe(all[i]) || |pre| + |all[i]| + |suf| >= 128)
  {
    hide FirstOf, Visited, AllSafe, Ahead;
    ghost var all := Visited(mid);
    ghost var done: seq<string> := [];
    lits := [];
    var at := 0;
    assert all == done + Ahead(mid, 0) by { AheadAll(mid); }
    while at < |mid|
      invariant 0 <= at && |done| == |lits| <= SLOTS
      invariant all == done + Ahead(mid, at)
      invariant AllSafeAlts(done)
      invariant forall i :: 0 <= i < |done| ==> |pre| + |done[i]| + |suf| < SLOT && lits[i] == pre + done[i] + suf
      decreases |mid| - at
    {
      AheadStep(mid, at);
      var n := Find(mid[at..], Bar);
      var alt := mid[at..at + n];
      assert all[|done|] == alt;
      var safe := LiteralSafe(alt);
      if !safe {
        return false, [];
      }
      if |lits| >= SLOTS || |pre| + |alt| + |suf| >= SLOT {
        return false, [];
      }
      lits := lits + [pre + alt + suf];
      done := done + [alt];
      at := at + n + 1;
    }
    assert Ahead(mid, at) == [] by { NoneAhead(mid, at); }
    assert all == done;
    ok := lits != [];
  }

  lemma AheadAll(mid: string)
    ensures Ahead(mid, 0) == Visited(mid)
  {
    hide Segments, FirstOf;
    SegmentsStep(mid, Bar);
    assert mid[0..] == mid;
  }

  lemma NoneAhead(mid: string, at: nat)
    requires at >= |mid|
    ensures Ahead(mid, at) == []
  {}

  method CompileText(text: CString, extended: bool) returns (c: Compiled)
    ensures c == Compile(text, extended)
  {
    hide FirstOf, AllSafe, Fit, Visited, Expand;
    var core: string := text;
    if |text| >= CORE {
      return Fallback;
    }
    var left, right := false, false;
    if core != "" && core[0] == '^' {
      left := true;
      core := core[1..];
    }
    if core != "" && core[|core| - 1] == '$' {
      right := true;
      core := core[..|core| - 1];
    }
    assert Unanchored(text) == (left, core, right);
    var safe := LiteralSafe(core);
    if safe {
      return if |core| < SLOT then Literals([core], left, right) else Overrun;
    }
    if !extended {
      return Fallback;
    }
    c := CompileAlternation(core, left, right);
  }

  method CompileAlternation(core: string, left: bool, right: bool) returns (c: Compiled)
    ensures c == CompileGroup(core, left, right)
  {
    hide FirstOf, AllSafe, Fit, Visited, Expand;
    var lp := Find(core, Open);
    if lp == |core| {
      return Fallback;
    }
    var tail := core[lp + 1..];
    var n := Find(tail, Close);
    if n == |tail| {
      return Fallback;
    }
    var pre, mid, suf := core[..lp], tail[..n], tail[n + 1..];
    var more := Find(suf, Open);
    var close := Find(suf, Close);
    var preSafe := LiteralSafe(pre);
    var sufSafe := LiteralSafe(suf);
    if more < |suf| || close < |suf| {
      NotSafe(suf, if more < |suf| then more else close);
      return Fallback;
    }
    if !preSafe || !sufSafe {
      return Fallback;
    }
    var ok, lits := CollectAlternatives(pre, mid, suf);
    return if ok then Literals(lits, left, right) else Fallback;
  }

  lemma NotSafe(s: string, k: nat)
    requires k < |s| && (Open(s[k]) || Close(s[k]))
    ensures !AllSafe(s)
  {
    assert !Safe(s[k]);
  }

  /** Comparison of a literal with the bytes at an offset of the line. */
  method EqualAt(buf: array<char>, len: nat, off: nat, lit: CString) returns (r: bool)
    requires len < buf.Length && off + |lit| <= len
    ensures r <==> buf[off..off + |lit|] == lit
  {
    var k := 0;
    while k < |lit| && buf[off + k] != '\0' && buf[off + k] == lit[k]
      invariant k <= |lit| && buf[off..off + k] == lit[..k]
    {
      k := k + 1;
    }
    if k < |lit| {
      assert lit[k] in lit;
      assert buf[off..off + |lit|][k] == buf[off + k];
    }
    return k == |lit|;
  }

  method SubstringMatch(buf: array<char>, len: nat, lit: CString, left: bool, right: bool) returns (r: bool)
    requires len < buf.Length
    ensures r <==> LitFound(buf[..len], lit, left, right)
  {
    ghost var line := buf[..len];
    if |lit| > len {
      return false;
    }
    if left && right {
      if |lit| != len {
        return false;
      }
      r := EqualAt(buf, len, 0, lit);
      OnlyAt(line, lit, 0, left, right);
      return;
    }
    if left {
      r := EqualAt(buf, len, 0, lit);
      OnlyAt(line, lit, 0, left, right);
      return;
    }
    if right {
      r := EqualAt(buf, len, len - |lit|, lit);
      OnlyAt(line, lit, len - |lit|, left, right);
      return;
    }
    if |lit| == 0 {
      assert Sits(line, lit, 0, left, right);
      return true;
    }
    var i := 0;
    while i + |lit| <= len
      invariant forall k: nat :: k < i ==> !Sits(line, lit, k, left, right)
    {
      var here := EqualAt(buf, len, i, lit);
      if here {
        assert Sits(line, lit, i, left, right);
        return true;
      }
      assert !Sits(line, lit, i, left, right);
      i := i + 1;
    }
    return false;
  }

  /** An anchored literal has one place it can be. */
  lemma OnlyAt(line: string, lit: string, at: nat, left: bool, right: bool)
    requires |lit| <= |line| && (left || right) && (left ==> at == 0) && (right ==> at + |lit| == |line|)
    ensures LitFound(line, lit, left, right) <==> line[at..at + |lit|] == lit
  {
    if line[at..at + |lit|] == lit {
      assert Sits(line, lit, at, left, right);
    }
  }

  method AnyMatch(buf: array<char>, len: nat, lits: seq<CString>, left: bool, right: bool) returns (r: bool)
    requires len < buf.Length
    ensures r <==> AnyFound(buf[..len], lits, left, right)
  {
    hide LitFound;
    for i := 0 to |lits|
      invariant forall k :: 0 <= k < i ==> !LitFound(buf[..len], lits[k], left, right)
    {
      var m := SubstringMatch(buf, len, lits[i], left, right);
      if m {
        return true;
      }
    }
    return false;
  }

  ghost predicate SomeFound(lines: seq<string>, lits: seq<string>, left: bool, right: bool) {
    exists i :: 0 <= i < |lines| && AnyFound(lines[i], lits, left, right)
  }

  method Scan(r: Reader, lits: seq<CString>, left: bool, right: bool) returns (found: bool)
    requires r.Valid()
    modifies r, r.buf
    ensures found <==> SomeFound(Lines(old(r.Pending()), LINE), lits, left, right)
  {
    hide AnyFound, NextLine;
    var line := new char[LINE];
    ghost var whole := Lines(r.Pending(), LINE);
    ghost var at: nat := 0;
    while true
      invariant r.Valid() && line != r.buf && at <= |whole|
      invariant whole[at..] == Lines(r.Pending(), LINE)
      invariant forall k :: 0 <= k < at ==> !AnyFound(whole[k], lits, left, right)
      decreases |r.Pending()|
    {
      var len := r.ReadLine(line, LINE);
      if len < 0 {
        break;
      }
      assert whole[at] == whole[at..][0] == line[..len];
      assert whole[at + 1..] == whole[at..][1..];
      var m := AnyMatch(line, len, lits, left, right);
      if m {
        return true;
      }
      at := at + 1;
    }
    return false;
  }

  /** Exit status: 0 as soon as some line holds a literal, 1 otherwise; nothing when the real grep takes over. */
  method GrepQuiet(text: CString, extended: bool, r: Reader) returns (status: Option<nat>)
    requires r.Valid()
    modifies r, r.buf
    ensures status == Status(Compile(text, extended), Lines(old(r.Pending()), LINE))
  {
    hide Compile, SomeFound;
    var c := CompileText(text, extended);
    if !c.Literals? {
      return None;
    }
    LiteralsAreC(text, extended);
    var found := Scan(r, c.lits, c.left, c.right);
    return Some(if found then 0 else 1);
  }

  ghost function Status(c: Compiled, lines: seq<string>): Option<nat> {
    if !c.Literals? then None else if SomeFound(lines, c.lits, c.left, c.right) then Some(0) else Some(1)
  }

  lemma LiteralsAreC(text: CString, extended: bool)
    requires Compile(text, extended).Literals?
    ensures var lits := Compile(text, extended).lits; forall i :: 0 <= i < |lits| ==> '\0' !in lits[i]
  {
    hide Compile, Body, AllSafe, AllSafeAlts, Fit, Expanded;
    var p := CompiledIsPrinted(text, extended);
    NoNul(p, extended);
  }

  lemma NoNul(p: Pattern, extended: bool)
    requires Handled(p, extended) && '\0' !in Print(p)
    ensures forall i :: 0 <= i < |Expanded(p)| ==> '\0' !in Expanded(p)[i]
  {
    hide Fit, AllSafe;
    var b := Body(p);
    assert '\0' !in b by {
      assert forall i :: 0 <= i < |b| ==> b[i] == Print(p)[i + if p.left then 1 else 0];
    }
    if p.alts.Some? {
      var alts := p.alts.value;
      var bars := Bars(alts);
      var n := |p.pre| + 1;
      assert b[..|p.pre|] == p.pre && b[n..n + |bars|] == bars && b[n + |bars| + 1..] == p.suf;
      forall i | 0 <= i < |DropLastEmpty(alts)| ensures '\0' !in Expanded(p)[i] {
        AltInBars(alts, i);
        assert DropLastEmpty(alts)[i] == alts[i];
      }
    }
  }

  lemma {:induction false} AltInBars(alts: seq<string>, i: nat)
    requires i < |alts|
    ensures forall c :: c in alts[i] ==> c in Bars(alts)
  {
    if i > 0 {
      AltInBars(alts[1..], i - 1);
    }
  }

  /** A handled pattern that loses no alternative gives 0 exactly when some line matches it as a
      regular expression. */
  lemma StatusIsSearch(p: Pattern, extended: bool, lines: seq<string>)
    requires Handled(p, extended) && NothingLost(p)
    ensures Status(Compile(Print(p), extended), lines) == Some(if exists i :: 0 <= i < |lines| && Search(p, lines[i]) then 0 else 1)
  {
    hide AnyFound, Search, Expanded, NothingLost, Compile, AllSafe, AllSafeAlts, Fit, Print;
    PrintedCompiles(p, extended);
    if i :| 0 <= i < |lines| && AnyFound(lines[i], Expanded(p), p.left, p.right) {
      ExpansionMeans(p, lines[i]);
    }
    if i :| 0 <= i < |lines| && Search(p, lines[i]) {
      ExpansionMeans(p, lines[i]);
    }
  }

  /** The same on raw input, where the lines are its newline-separated pieces: each is searched whole when it
      fits the line buffer, and cut to the buffer when it does not. */
  lemma InputIsSearched(p: Pattern, extended: bool, input: string)
    requires Handled(p, extended) && NothingLost(p)
    ensures var pieces := Pieces(input);
            var status := Status(Compile(Print(p), extended), Lines(input, LINE));
            && status == Some(if exists i :: 0 <= i < |pieces| && Search(p, Cut(pieces[i], LINE)) then 0 else 1)
            && ((forall i :: 0 <= i < |pieces| ==> |pieces[i]| < LINE) ==>
                  status == Some(if exists i :: 0 <= i < |pieces| && Search(p, pieces[i]) then 0 else 1))
  {
    hide Status, Compile, Print, Search, Handled, NothingLost, Lines, Pieces;
    var pieces := Pieces(input);
    LinesArePieces(input, LINE);
    var cut := CutAll(pieces, LINE);
    StatusIsSearch(p, extended, cut);
    if i :| 0 <= i < |pieces| && Search(p, Cut(pieces[i], LINE)) {
      assert Search(p, cut[i]);
    }
    if forall i :: 0 <= i < |pieces| ==> |pieces[i]| < LINE {
      forall i | 0 <= i < |pieces| ensures cut[i] == pieces[i] { CutWhole(pieces[i], LINE); }
      if i :| 0 <= i < |pieces| && Search(p, pieces[i]) {
        assert Search(p, cut[i]);
      }
    }
  }

  /** And in terms of the text alone, read as a regular expression: status 0 means that some piece matches it,
      and the other way round when no alternative is lost. */
  lemma TextIsSearched(text: string, extended: bool, input: string) returns (p: Pattern)
    requires Compile(text, extended).Literals?
    ensures Handled(p, extended) && text == Print(p) && RT.Read(text, extended).Some?
    ensures var pieces, re := Pieces(input), RT.Read(text, extended).value;
            var status := Status(Compile(text, extended), Lines(input, LINE));
            && (status == Some(0) || status == Some(1))
            && (status == Some(0) ==> exists i :: 0 <= i < |pieces| && RT.Matches(Cut(pieces[i], LINE), re))
            && (NothingLost(p) && status == Some(1) ==> forall i :: 0 <= i < |pieces| ==> !RT.Matches(Cut(pieces[i], LINE), re))
  {
    hide Compile, Print, NothingLost, Lines, Pieces, Handled, AnyFound, Expanded, RT.Read, RT.Matches;
    var pieces, c := Pieces(input), Compile(text, extended);
    LinesArePieces(input, LINE);
    var cut := CutAll(pieces, LINE);
    p := CompiledIsPrinted(text, extended);
    HandledMeans(p, extended, "");
    forall i | 0 <= i < |cut|
      ensures AnyFound(cut[i], c.lits, c.left, c.right) ==> RT.Matches(cut[i], RT.Read(text, extended).value)
      ensures NothingLost(p) && RT.Matches(cut[i], RT.Read(text, extended).value) ==> AnyFound(cut[i], c.lits, c.left, c.right)
    {
      HandledMeans(p, extended, cut[i]);
    }
  }

  lemma CutWhole(line: string, max: nat)
    requires |line| < max
    ensures Cut(line, max) == line
  {}
}
