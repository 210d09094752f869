/** That a pattern netfast's grep handles itself means what its text means as a regular expression. */
module GrepMeaning {
  import opened Options
  import opened Splits
  import opened GrepPattern
  import RT = RegexText

  type Tokens = seq<RT.Token>

  // Reading tokens

  function Chars(s: string): (ts: Tokens)
    ensures |ts| == |s| && forall i :: 0 <= i < |s| ==> ts[i] == RT.Char(s[i])
  {
    seq(|s|, i requires 0 <= i < |s| => RT.Char(s[i]))
  }

  /** A safe character is nothing but itself, wherever it stands. */
  lemma SafeToken(c: char, rest: string, extended: bool, first: bool)
    requires Safe(c)
    ensures RT.Tokens([c] + rest, extended, first) == [RT.Char(c)] + RT.Tokens(rest, extended, false)
  {
    var s := [c] + rest;
    assert s[1..] == rest && s[0] == c;
  }

  lemma {:induction false} SafeTokens(s: string, rest: string, extended: bool, first: bool)
    requires AllSafe(s)
    ensures RT.Tokens(s + rest, extended, first) == Chars(s) + RT.Tokens(rest, extended, first && s == "")
    decreases |s|
  {
    hide RT.Tokens, Safe;
    if s == "" {
      assert s + rest == rest;
      assert Chars(s) + RT.Tokens(rest, extended, first) == RT.Tokens(rest, extended, first);
    } else {
      var c, more := s[0], s[1..];
      assert s + rest == [c] + (more + rest);
      assert Safe(c);
      SafeToken(c, more + rest, extended, first);
      SafeTokens(more, rest, extended, false);
      assert Chars(s) == [RT.Char(c)] + Chars(more);
    }
  }

  function AltTokens(alts: seq<string>): (ts: Tokens)
    requires alts != []
  {
    if |alts| == 1 then Chars(alts[0]) else Chars(alts[0]) + [RT.Bar] + AltTokens(alts[1..])
  }

  lemma {:induction false} BarsTokens(alts: seq<string>, rest: string, first: bool)
    requires alts != [] && AllSafeAlts(alts)
    ensures RT.Tokens(Bars(alts) + ")" + rest, true, first) == AltTokens(alts) + [RT.RightParen] + RT.Tokens(rest, true, false)
    decreases |alts|
  {
    hide RT.Tokens, AllSafe;
    assert AllSafe(alts[0]);
    if |alts| == 1 {
      var tail := ")" + rest;
      SafeTokens(alts[0], tail, true, first);
      CloseToken(rest, first && alts[0] == "");
      assert Bars(alts) + ")" + rest == alts[0] + tail;
      assert Chars(alts[0]) + ([RT.RightParen] + RT.Tokens(rest, true, false)) == Chars(alts[0]) + [RT.RightParen] + RT.Tokens(rest, true, false);
    } else {
      var more := Bars(alts[1..]) + ")" + rest;
      SafeTokens(alts[0], "|" + more, true, first);
      BarToken(more, first && alts[0] == "");
      BarsTokens(alts[1..], rest, true);
      assert Bars(alts) + ")" + rest == alts[0] + ("|" + more);
      TokensJoin(Chars(alts[0]), RT.Bar, AltTokens(alts[1..]), RT.RightParen, RT.Tokens(rest, true, false));
    }
  }

  lemma TokensJoin(a: Tokens, b: RT.Token, c: Tokens, d: RT.Token, e: Tokens)
    ensures a + ([b] + (c + [d] + e)) == (a + [b] + c) + [d] + e
  {}

  lemma CloseToken(rest: string, first: bool)
    ensures RT.Tokens(")" + rest, true, first) == [RT.RightParen] + RT.Tokens(rest, true, false)
  {
    var s := ")" + rest;
    assert s[1..] == rest && s[0] == ')';
  }

  lemma BarToken(rest: string, first: bool)
    ensures RT.Tokens("|" + rest, true, first) == [RT.Bar] + RT.Tokens(rest, true, true)
  {
    var s := "|" + rest;
    assert s[1..] == rest && s[0] == '|';
  }

  lemma OpenToken(rest: string, first: bool)
    ensures RT.Tokens("(" + rest, true, first) == [RT.LeftParen] + RT.Tokens(rest, true, true)
  {
    var s := "(" + rest;
    assert s[1..] == rest && s[0] == '(';
  }

  lemma StartToken(rest: string, extended: bool)
    ensures RT.Tokens("^" + rest, extended, true) == [RT.LineStart] + RT.Tokens(rest, extended, true)
  {
    var s := "^" + rest;
    assert s[1..] == rest && s[0] == '^';
  }

  lemma EndToken(extended: bool, first: bool)
    ensures RT.Tokens("$", extended, first) == [RT.LineEnd] && RT.Tokens("", extended, first) == []
  {
    assert "$"[1..] == "" && "$"[0] == '$';
    assert RT.Tokens("", extended, false) == [];
  }

  function EndTokens(right: bool): (ts: Tokens) { if right then [RT.LineEnd] else [] }

  function StartTokens(left: bool): (ts: Tokens) { if left then [RT.LineStart] else [] }

  function BodyTokens(p: Pattern): (ts: Tokens)
    requires WellFormed(p)
  {
    if p.alts.None? then Chars(p.pre) + EndTokens(p.right)
    else Chars(p.pre) + ([RT.LeftParen] + (AltTokens(p.alts.value) + [RT.RightParen] + (Chars(p.suf) + EndTokens(p.right))))
  }

  lemma BodyTokensAre(p: Pattern, extended: bool, first: bool)
    requires WellFormed(p) && (p.alts.Some? ==> extended)
    ensures RT.Tokens(Body(p) + (if p.right then "$" else ""), extended, first) == BodyTokens(p)
  {
    hide RT.Tokens, AllSafe, AllSafeAlts, Bars;
    var end := if p.right then "$" else "";
    if p.alts.None? {
      SafeTokens(p.pre, end, extended, first);
      EndToken(extended, first && p.pre == "");
    } else {
      var bars := Bars(p.alts.value);
      var tail := bars + ")" + (p.suf + end);
      assert Body(p) + end == p.pre + ("(" + tail);
      SafeTokens(p.pre, "(" + tail, extended, first);
      OpenToken(tail, first && p.pre == "");
      BarsTokens(p.alts.value, p.suf + end, true);
      SafeTokens(p.suf, end, extended, false);
      EndToken(extended, false);
    }
  }

  lemma PrintTokens(p: Pattern, extended: bool)
    requires WellFormed(p) && (p.alts.Some? ==> extended)
    ensures RT.Tokens(Print(p), extended, true) == StartTokens(p.left) + BodyTokens(p)
  {
    hide RT.Tokens, Body, BodyTokens, WellFormed;
    var rest := Body(p) + (if p.right then "$" else "");
    BodyTokensAre(p, extended, true);
    if p.left {
      assert Print(p) == "^" + rest;
      StartToken(rest, extended);
    } else {
      assert Print(p) == rest;
    }
  }

  // Reading expressions

  predicate Calm(ts: Tokens) { ts == [] || !ts[0].Repeat? }

  /** Tokens that are an expression by themselves. */
  function Simple(t: RT.Token): (re: Option<RT.Regex>) {
    match t
    case Char(c) => Some(RT.One(c))
    case LineStart => Some(RT.Start)
    case LineEnd => Some(RT.End)
    case _ => None
  }

  lemma BranchOf(t: RT.Token, ts: Tokens)
    requires Simple(t).Some? && Calm(ts)
    ensures var b := RT.Branch(ts);
            RT.Branch([t] + ts) == if b.Failed? then RT.Failed else RT.Got(RT.Cat(Simple(t).value, b.re), b.rest)
  {
    var all := [t] + ts;
    assert all[1..] == ts && all[0] == t;
    assert RT.Repeated(Simple(t).value, ts) == RT.Got(Simple(t).value, ts);
    assert RT.Atom(all) == RT.Got(Simple(t).value, ts);
  }

  /** The characters of a word one after another, then something else. */
  function Word(s: string, re: RT.Regex): (r: RT.Regex) {
    if s == "" then re else RT.Cat(RT.One(s[0]), Word(s[1..], re))
  }

  lemma {:induction false} BranchOfWord(s: string, ts: Tokens)
    requires Calm(ts) && RT.Branch(ts).Got?
    ensures RT.Branch(Chars(s) + ts) == RT.Got(Word(s, RT.Branch(ts).re), RT.Branch(ts).rest)
    decreases |s|
  {
    hide RT.Branch;
    if s == "" {
      assert Chars(s) + ts == ts;
    } else {
      var more := Chars(s[1..]) + ts;
      assert Chars(s) + ts == [RT.Char(s[0])] + more;
      assert Calm(more);
      BranchOfWord(s[1..], ts);
      BranchOf(RT.Char(s[0]), more);
    }
  }

  function OrWords(alts: seq<string>): (re: RT.Regex)
    requires alts != []
  {
    if |alts| == 1 then Word(alts[0], RT.Empty) else RT.Or(Word(alts[0], RT.Empty), OrWords(alts[1..]))
  }

  lemma Stops(t: RT.Token, ts: Tokens)
    requires t == RT.Bar || t == RT.RightParen
    ensures RT.Branch([t] + ts) == RT.Got(RT.Empty, [t] + ts)
  {}

  lemma LastBranch(ts: Tokens)
    requires var b := RT.Branch(ts); b.Got? && b.rest != [] && b.rest[0] != RT.Bar
    ensures RT.Alternatives(ts) == RT.Branch(ts)
  {
    hide RT.Branch;
  }

  lemma NextBranch(ts: Tokens, more: Tokens)
    requires RT.Branch(ts).Got? && RT.Branch(ts).rest == [RT.Bar] + more && RT.Alternatives(more).Got?
    ensures RT.Alternatives(ts) == RT.Got(RT.Or(RT.Branch(ts).re, RT.Alternatives(more).re), RT.Alternatives(more).rest)
  {
    hide RT.Branch;
    assert ([RT.Bar] + more)[1..] == more;
  }

  lemma {:induction false} AlternativesAre(alts: seq<string>, ts: Tokens)
    requires alts != []
    ensures RT.Alternatives(AltTokens(alts) + [RT.RightParen] + ts) == RT.Got(OrWords(alts), [RT.RightParen] + ts)
    decreases |alts|
  {
    hide RT.Branch, RT.Alternatives;
    if |alts| == 1 {
      var tail := [RT.RightParen] + ts;
      Stops(RT.RightParen, ts);
      BranchOfWord(alts[0], tail);
      LastBranch(Chars(alts[0]) + tail);
      assert AltTokens(alts) + [RT.RightParen] + ts == Chars(alts[0]) + tail;
    } else {
      var more := AltTokens(alts[1..]) + [RT.RightParen] + ts;
      AlternativesAre(alts[1..], ts);
      Stops(RT.Bar, more);
      BranchOfWord(alts[0], [RT.Bar] + more);
      NextBranch(Chars(alts[0]) + ([RT.Bar] + more), more);
      assert AltTokens(alts) + [RT.RightParen] + ts == Chars(alts[0]) + ([RT.Bar] + more);
    }
  }

  lemma BranchOfGroup(alts: seq<string>, ts: Tokens)
    requires alts != [] && Calm(ts) && RT.Branch(ts).Got?
    ensures RT.Branch([RT.LeftParen] + (AltTokens(alts) + [RT.RightParen] + ts))
         == RT.Got(RT.Cat(OrWords(alts), RT.Branch(ts).re), RT.Branch(ts).rest)
  {
    hide RT.Alternatives, AltTokens, OrWords;
    var inner := AltTokens(alts) + [RT.RightParen] + ts;
    var all := [RT.LeftParen] + inner;
    assert all[1..] == inner && all[0] == RT.LeftParen;
    AlternativesAre(alts, ts);
    assert ([RT.RightParen] + ts)[1..] == ts;
    assert RT.Atom(all) == RT.Got(OrWords(alts), ts);
    assert RT.Repeated(OrWords(alts), ts) == RT.Got(OrWords(alts), ts);
  }

  function EndRegex(right: bool): (re: RT.Regex) { if right then RT.Cat(RT.End, RT.Empty) else RT.Empty }

  lemma BranchOfEnd(right: bool)
    ensures RT.Branch(EndTokens(right)) == RT.Got(EndRegex(right), []) && Calm(EndTokens(right))
  {
    assert RT.Branch([]) == RT.Got(RT.Empty, []);
    if right {
      BranchOf(RT.LineEnd, []);
      assert [RT.LineEnd] + [] == [RT.LineEnd];
    }
  }

  function BodyRegex(p: Pattern): (re: RT.Regex)
    requires WellFormed(p)
  {
    if p.alts.None? then Word(p.pre, EndRegex(p.right))
    else Word(p.pre, RT.Cat(OrWords(p.alts.value), Word(p.suf, EndRegex(p.right))))
  }

  lemma BranchOfBody(p: Pattern)
    requires WellFormed(p)
    ensures RT.Branch(BodyTokens(p)) == RT.Got(BodyRegex(p), []) && Calm(BodyTokens(p))
  {
    hide RT.Branch, EndTokens, EndRegex, AltTokens, OrWords, Word, AllSafe, AllSafeAlts;
    BranchOfEnd(p.right);
    if p.alts.None? {
      BranchOfWord(p.pre, EndTokens(p.right));
    } else {
      var after := Chars(p.suf) + EndTokens(p.right);
      BranchOfWord(p.suf, EndTokens(p.right));
      assert Calm(after);
      BranchOfGroup(p.alts.value, after);
      var group := [RT.LeftParen] + (AltTokens(p.alts.value) + [RT.RightParen] + after);
      BranchOfWord(p.pre, group);
    }
  }

  function WholeRegex(p: Pattern): (re: RT.Regex)
    requires WellFormed(p)
  {
    if p.left then RT.Cat(RT.Start, BodyRegex(p)) else BodyRegex(p)
  }

  lemma AllRead(ts: Tokens, re: RT.Regex)
    requires RT.Branch(ts) == RT.Got(re, [])
    ensures RT.Alternatives(ts) == RT.Got(re, [])
  {}

  lemma PrintedReads(p: Pattern, extended: bool)
    requires WellFormed(p) && (p.alts.Some? ==> extended)
    ensures RT.Read(Print(p), extended) == Some(WholeRegex(p))
  {
    hide RT.Tokens, RT.Branch, RT.Alternatives, Print, BodyTokens, BodyRegex, WellFormed;
    PrintTokens(p, extended);
    BranchOfBody(p);
    if p.left {
      BranchOf(RT.LineStart, BodyTokens(p));
    } else {
      assert StartTokens(p.left) + BodyTokens(p) == BodyTokens(p);
    }
    AllRead(StartTokens(p.left) + BodyTokens(p), WholeRegex(p));
  }

  // Matching

  lemma {:induction false} WordAt(line: string, i: nat, j: nat, s: string, re: RT.Regex)
    requires i <= j <= |line|
    ensures RT.At(line, i, j, Word(s, re)) <==> i + |s| <= j && line[i..i + |s|] == s && RT.At(line, i + |s|, j, re)
    decreases |s|
  {
    if s != "" {
      var rest := Word(s[1..], re);
      if i < j {
        WordAt(line, i + 1, j, s[1..], re);
        assert RT.At(line, i, j, Word(s, re)) <==> line[i] == s[0] && RT.At(line, i + 1, j, rest) by {
          if line[i] == s[0] && RT.At(line, i + 1, j, rest) {
            assert RT.At(line, i, i + 1, RT.One(s[0]));
          }
        }
        if i + |s| <= j {
          assert line[i..i + |s|] == [line[i]] + line[i + 1..i + |s|];
          assert s == [s[0]] + s[1..];
        }
      }
    }
  }

  lemma {:induction false} WordsAt(line: string, i: nat, j: nat, alts: seq<string>)
    requires i <= j <= |line| && alts != []
    ensures RT.At(line, i, j, OrWords(alts)) <==> line[i..j] in alts
    decreases |alts|
  {
    WordAt(line, i, j, alts[0], RT.Empty);
    assert RT.At(line, i, j, Word(alts[0], RT.Empty)) <==> line[i..j] == alts[0];
    if |alts| > 1 {
      WordsAt(line, i, j, alts[1..]);
      assert alts == [alts[0]] + alts[1..];
    }
  }

  lemma EndAt(line: string, i: nat, j: nat, right: bool)
    requires i <= j <= |line|
    ensures RT.At(line, i, j, EndRegex(right)) <==> i == j && (right ==> j == |line|)
  {
    if right && i == j == |line| {
      assert RT.At(line, i, i, RT.End) && RT.At(line, i, j, RT.Empty);
    }
  }

  /** The alternatives and the suffix, from where the prefix ends. */
  lemma TailAt(line: string, i: nat, j: nat, alts: seq<string>, suf: string, right: bool)
    requires i <= j <= |line| && alts != []
    ensures RT.At(line, i, j, RT.Cat(OrWords(alts), Word(suf, EndRegex(right))))
            <==> i + |suf| <= j && line[i..j - |suf|] in alts && line[j - |suf|..j] == suf && (right ==> j == |line|)
  {
    var after := Word(suf, EndRegex(right));
    forall k | i <= k <= j
      ensures RT.At(line, k, j, after) <==> k + |suf| == j && line[k..j] == suf && (right ==> j == |line|)
      ensures RT.At(line, i, k, OrWords(alts)) <==> line[i..k] in alts
    {
      hide RT.At;
      WordAt(line, k, j, suf, EndRegex(right));
      if k + |suf| <= j {
        EndAt(line, k + |suf|, j, right);
      }
      WordsAt(line, i, k, alts);
    }
    hide EndRegex, Word, OrWords;
    if i + |suf| <= j && line[i..j - |suf|] in alts && line[j - |suf|..j] == suf && (right ==> j == |line|) {
      assert RT.At(line, i, j - |suf|, OrWords(alts)) && RT.At(line, j - |suf|, j, after);
    }
  }

  lemma Inner(line: string, i: nat, j: nat, a: nat, b: nat)
    requires i <= j <= |line| && a <= b <= j - i
    ensures line[i..j][a..b] == line[i + a..i + b]
  {
    assert forall k :: 0 <= k < b - a ==> line[i..j][a..b][k] == line[i + a + k];
  }

  lemma SplitIn(line: string, i: nat, j: nat, pre: string, alts: seq<string>, suf: string)
    requires i <= j <= |line|
    ensures && i + |pre| + |suf| <= j && line[i..i + |pre|] == pre && line[i + |pre|..j - |suf|] in alts && line[j - |suf|..j] == suf
            <==> line[i..j] in Expand(pre, alts, suf)
  {
    var w := line[i..j];
    if i + |pre| + |suf| <= j && line[i..i + |pre|] == pre && line[i + |pre|..j - |suf|] in alts && line[j - |suf|..j] == suf {
      var k :| 0 <= k < |alts| && alts[k] == line[i + |pre|..j - |suf|];
      assert w == pre + alts[k] + suf == Expand(pre, alts, suf)[k];
    }
    if w in Expand(pre, alts, suf) {
      var k :| 0 <= k < |alts| && w == Expand(pre, alts, suf)[k];
      assert w == pre + alts[k] + suf;
      assert w[..|pre|] == pre && w[|pre|..|w| - |suf|] == alts[k] && w[|w| - |suf|..] == suf;
      Inner(line, i, j, 0, |pre|);
      Inner(line, i, j, |pre|, |w| - |suf|);
      Inner(line, i, j, |w| - |suf|, |w|);
    }
  }

  /** Between the anchors: one of the words of the pattern. */
  lemma BodyAt(line: string, i: nat, j: nat, p: Pattern)
    requires i <= j <= |line| && WellFormed(p)
    ensures RT.At(line, i, j, BodyRegex(p)) <==> line[i..j] in AllLits(p) && (p.right ==> j == |line|)
  {
    hide RT.At, EndRegex, OrWords, Word, AllSafe, AllSafeAlts, Expand;
    var m := i + |p.pre|;
    if p.alts.None? {
      WordAt(line, i, j, p.pre, EndRegex(p.right));
      if m <= j {
        EndAt(line, m, j, p.right);
      }
    } else {
      var alts := p.alts.value;
      WordAt(line, i, j, p.pre, RT.Cat(OrWords(alts), Word(p.suf, EndRegex(p.right))));
      SplitIn(line, i, j, p.pre, alts, p.suf);
      if m <= j {
        TailAt(line, m, j, alts, p.suf, p.right);
      }
    }
  }

  lemma StartAt(line: string, i: nat, j: nat, re: RT.Regex)
    requires i <= j <= |line|
    ensures RT.At(line, i, j, RT.Cat(RT.Start, re)) <==> i == 0 && RT.At(line, i, j, re)
  {
    if i == 0 && RT.At(line, i, j, re) {
      assert RT.At(line, 0, 0, RT.Start);
    }
  }

  lemma WholeAt(line: string, i: nat, j: nat, p: Pattern)
    requires i <= j <= |line| && WellFormed(p)
    ensures RT.At(line, i, j, WholeRegex(p)) <==> Spans(line, Meaning(p), i, j, p.left, p.right)
  {
    hide RT.At, BodyRegex, Meaning, In, AllLits, WellFormed;
    BodyAt(line, i, j, p);
    StartAt(line, i, j, BodyRegex(p));
    MeaningIsLits(p, line[i..j]);
  }

  /** A handled pattern is read from its own text, and matches exactly where it is meant to. */
  lemma PrintedMeans(p: Pattern, extended: bool, line: string)
    requires WellFormed(p) && (p.alts.Some? ==> extended)
    ensures var re := RT.Read(Print(p), extended); re.Some? && (RT.Matches(line, re.value) <==> Search(p, line))
  {
    hide RT.At, RT.Read, WholeRegex, Spans, Print, WellFormed;
    PrintedReads(p, extended);
    if i, j :| 0 <= i <= j <= |line| && RT.At(line, i, j, WholeRegex(p)) {
      WholeAt(line, i, j, p);
    }
    if i: nat, j: nat :| Spans(line, Meaning(p), i, j, p.left, p.right) {
      SpansInside(line, Meaning(p), i, j, p.left, p.right);
      WholeAt(line, i, j, p);
    }
  }

  lemma SpansInside(line: string, re: Regex, i: nat, j: nat, left: bool, right: bool)
    requires Spans(line, re, i, j, left, right)
    ensures i <= j <= |line|
  {}

  lemma HandledMeans(p: Pattern, extended: bool, line: string)
    requires Handled(p, extended)
    ensures var re := RT.Read(Print(p), extended);
            && re.Some?
            && (AnyFound(line, Expanded(p), p.left, p.right) ==> RT.Matches(line, re.value))
            && (NothingLost(p) && RT.Matches(line, re.value) ==> AnyFound(line, Expanded(p), p.left, p.right))
  {
    hide RT.Read, RT.Matches, AnyFound, Search, Expanded, AllLits, NothingLost, WellFormed, Handled, Print;
    HandledIs(p, extended);
    PrintedMeans(p, extended, line);
    KeptAmongAll(p, line);
    SearchIsLits(p, line);
  }

  /** Whatever text grep handles itself is read as a regular expression, and a line with one of its literals
      matches that expression; the other way round as well when no alternative is lost. */
  lemma CompiledMeans(text: string, extended: bool, line: string) returns (p: Pattern)
    requires Compile(text, extended).Literals?
    ensures Handled(p, extended) && text == Print(p)
    ensures var c, re := Compile(text, extended), RT.Read(text, extended);
            && re.Some?
            && (AnyFound(line, c.lits, c.left, c.right) ==> RT.Matches(line, re.value))
            && (NothingLost(p) && RT.Matches(line, re.value) ==> AnyFound(line, c.lits, c.left, c.right))
  {
    hide Compile, RT.Read, RT.Matches, AnyFound, Expanded, NothingLost, Handled, Print;
    p := CompiledIsPrinted(text, extended);
    HandledMeans(p, extended, line);
  }

  lemma HandledIs(p: Pattern, extended: bool)
    requires Handled(p, extended)
    ensures WellFormed(p) && (p.alts.Some? ==> extended)
  {}

  /** For instance a dot matches any character, and is not taken for itself. */
  lemma DotIsAny(extended: bool, c: char)
    ensures var re := RT.Read(".", extended); re.Some? && RT.Matches([c], re.value)
    ensures Compile(".", extended) == Fallback
  {
    assert RT.Tokens(".", extended, true) == [RT.AnyChar] by {
      assert "."[1..] == "";
    }
    var ts: Tokens := [RT.AnyChar];
    assert ts[1..] == [];
    assert RT.Atom(ts) == RT.Got(RT.Any, []);
    assert RT.Repeated(RT.Any, []) == RT.Got(RT.Any, []);
    assert RT.Branch(ts) == RT.Got(RT.Cat(RT.Any, RT.Empty), []);
    AllRead(ts, RT.Cat(RT.Any, RT.Empty));
    AnyAt([c]);
    hide RT.Tokens, RT.Alternatives, RT.Matches;
    DotCompiles(extended);
  }

  lemma AnyAt(line: string)
    requires |line| == 1
    ensures RT.Matches(line, RT.Cat(RT.Any, RT.Empty))
  {
    assert RT.At(line, 0, 1, RT.Any) && RT.At(line, 1, 1, RT.Empty);
    assert RT.At(line, 0, 1, RT.Cat(RT.Any, RT.Empty));
  }

  lemma DotCompiles(extended: bool)
    ensures Compile(".", extended) == Fallback
  {
    assert !Safe("."[0]);
  }
}
