/** Optional values, shared by the modules of this project. */
module Options {
  datatype Option<+T> = None | Some(value: T)
}

/** Splitting text at separator characters. */
module Splits {
  /** The pieces between separators, empty ones included. */
  function SplitBy(s: string, p: char -> bool): (r: seq<string>)
    ensures |r| > 0
  {
    if s == "" then [""]
    else
      var rest := SplitBy(s[1..], p);
      if p(s[0]) then [""] + rest else [[s[0]] + rest[0]] + rest[1..]
  }

  predicate Free(s: string, p: char -> bool) { forall i :: 0 <= i < |s| ==> !p(s[i]) }

  lemma {:induction false} SplitToken(tok: string, sep: char, rest: string, p: char -> bool)
    requires Free(tok, p) && p(sep)
    ensures SplitBy(tok + [sep] + rest, p) == [tok] + SplitBy(rest, p)
  {
    var s := tok + [sep] + rest;
    if tok == "" {
      assert s[1..] == rest;
    } else {
      SplitToken(tok[1..], sep, rest, p);
      assert s[1..] == tok[1..] + [sep] + rest;
      assert [tok[0]] + tok[1..] == tok;
    }
  }

  lemma {:induction false} SplitWhole(tok: string, p: char -> bool)
    requires Free(tok, p)
    ensures SplitBy(tok, p) == [tok]
  {
    if tok != "" {
      SplitWhole(tok[1..], p);
      assert [tok[0]] + tok[1..] == tok;
    }
  }

  /** Index of the first separator, or the length of the text. */
  function FirstOf(s: string, p: char -> bool): (k: nat)
    ensures k <= |s| && Free(s[..k], p) && (k < |s| ==> p(s[k]))
  {
    if s == "" || p(s[0]) then 0
    else
      var k := 1 + FirstOf(s[1..], p);
      assert forall i :: 1 <= i < k ==> s[..k][i] == s[1..][..k - 1][i - 1];
      k
  }

  lemma {:induction false} FirstOfIs(tok: string, rest: string, p: char -> bool)
    requires Free(tok, p) && (rest != "" ==> p(rest[0]))
    ensures FirstOf(tok + rest, p) == |tok|
  {
    if tok == "" {
      assert tok + rest == rest;
    } else {
      FirstOfIs(tok[1..], rest, p);
      assert (tok + rest)[1..] == tok[1..] + rest;
    }
  }

  /** Splitting, one piece at a time. */
  lemma SplitFirst(s: string, p: char -> bool)
    ensures var k := FirstOf(s, p);
            SplitBy(s, p) == if k < |s| then [s[..k]] + SplitBy(s[k + 1..], p) else [s]
  {
    hide FirstOf, SplitBy, Free;
    var k := FirstOf(s, p);
    if k < |s| {
      Around(s, k);
      SplitToken(s[..k], s[k], s[k + 1..], p);
    } else {
      assert s[..k] == s;
      SplitWhole(s, p);
    }
  }

  lemma Around(s: string, k: nat)
    requires k < |s|
    ensures s == s[..k] + [s[k]] + s[k + 1..]
  {}

  function DropLastEmpty(all: seq<string>): (ls: seq<string>)
    requires all != []
  {
    if all[|all| - 1] == "" then all[..|all| - 1] else all
  }

  /** The pieces, without the empty one a final separator leaves. */
  function Segments(s: string, p: char -> bool): (ls: seq<string>) { DropLastEmpty(SplitBy(s, p)) }

  lemma DropLastStep(x: string, rest: seq<string>)
    requires rest != []
    ensures DropLastEmpty([x] + rest) == [x] + DropLastEmpty(rest)
  {
    assert ([x] + rest)[..|rest|] == [x] + rest[..|rest| - 1];
  }

  lemma SegmentsStep(s: string, p: char -> bool)
    ensures var k := FirstOf(s, p);
            Segments(s, p) == if k < |s| then [s[..k]] + Segments(s[k + 1..], p) else if s == "" then [] else [s]
  {
    hide FirstOf, SplitBy, Free, DropLastEmpty;
    SplitFirst(s, p);
    var k := FirstOf(s, p);
    if k < |s| {
      DropLastStep(s[..k], SplitBy(s[k + 1..], p));
    } else {
      LastSegment(s);
    }
  }

  lemma LastSegment(s: string)
    ensures DropLastEmpty([s]) == if s == "" then [] else [s]
  {}

  function NonEmpty(parts: seq<string>): seq<string> {
    if parts == [] then []
    else if parts[0] == "" then NonEmpty(parts[1..])
    else [parts[0]] + NonEmpty(parts[1..])
  }

  /** One character more at the front, or at the end, of split text. */
  function ConsPiece(a: char, sep: bool, r: seq<string>): (t: seq<string>)
    requires r != []
    ensures t != []
  {
    if sep then [""] + r else [[a] + r[0]] + r[1..]
  }

  function SnocPiece(r: seq<string>, c: char, sep: bool): (t: seq<string>)
    requires r != []
    ensures t != []
  {
    if sep then r + [""] else r[..|r| - 1] + [r[|r| - 1] + [c]]
  }

  lemma ConsSnoc(a: char, first: bool, r: seq<string>, c: char, last: bool)
    requires r != []
    ensures ConsPiece(a, first, SnocPiece(r, c, last)) == SnocPiece(ConsPiece(a, first, r), c, last)
  {
    var n := |r| - 1;
    if first {
      assert ([""] + r)[..n + 1] == [""] + r[..n];
    } else if last {
      assert (r + [""])[1..] == r[1..] + [""];
    } else if n == 0 {
      assert [a] + (r[0] + [c]) == [a] + r[0] + [c];
    } else {
      var t := r[..n] + [r[n] + [c]];
      assert t[1..] == r[1..n] + [r[n] + [c]];
      assert ([[a] + r[0]] + r[1..])[..n] == [[a] + r[0]] + r[1..n];
    }
  }

  lemma {:induction false} SplitSnoc(s: string, c: char, p: char -> bool)
    ensures SplitBy(s + [c], p) == SnocPiece(SplitBy(s, p), c, p(c))
  {
    if s == "" {
      assert s + [c] == [c] && [c][1..] == "";
      assert [c] + "" == "" + [c];
      SplitStep([c], p);
    } else {
      hide ConsPiece, SnocPiece;
      SplitSnoc(s[1..], c, p);
      assert (s + [c])[1..] == s[1..] + [c];
      SplitStep(s, p);
      SplitStep(s + [c], p);
      ConsSnoc(s[0], p(s[0]), SplitBy(s[1..], p), c, p(c));
    }
  }

  lemma SplitStep(s: string, p: char -> bool)
    requires s != ""
    ensures SplitBy(s, p) == ConsPiece(s[0], p(s[0]), SplitBy(s[1..], p))
  {}

  lemma NonEmptyStep(x: string, parts: seq<string>)
    ensures NonEmpty([x] + parts) == if x == "" then NonEmpty(parts) else [x] + NonEmpty(parts)
  {
    assert ([x] + parts)[1..] == parts;
  }

  /** The non-empty pieces, one at a time. */
  lemma NonEmptySplit(s: string, p: char -> bool)
    ensures var k := FirstOf(s, p);
            var rest := if k < |s| then NonEmpty(SplitBy(s[k + 1..], p)) else [];
            NonEmpty(SplitBy(s, p)) == if k == 0 then rest else [s[..k]] + rest
  {
    hide SplitBy, FirstOf, Free;
    SplitFirst(s, p);
    var k := FirstOf(s, p);
    if k < |s| {
      NonEmptyStep(s[..k], SplitBy(s[k + 1..], p));
    } else {
      assert s[..k] == s;
      OnlyPiece(s);
    }
  }

  lemma OnlyPiece(s: string)
    ensures NonEmpty([s]) == if s == "" then [] else [s]
  {
    assert [s][1..] == [];
  }
}
