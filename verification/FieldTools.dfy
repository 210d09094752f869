/** The cut and awk applets of netfast: one field of every line of standard input. */
module FieldTools {
  import opened Splits
  import opened LineReader

  const LINE: nat := 4096

  predicate Nul(c: char) { c == '\0' }

  /** What C sees of a line: everything before its first NUL. */
  function CStr(line: string): (c: string)
    ensures |c| <= |line|
  {
    line[..FirstOf(line, Nul)]
  }

  function Is(d: char): char -> bool { c => c == d }

  // cut

  /** A line without the delimiter passes whole, a missing field is empty. */
  function CutField(line: string, delim: char, field: nat): (r: string)
    requires field >= 1
  {
    var c := CStr(line);
    if delim !in c then line
    else
      var fields := SplitBy(c, Is(delim));
      if field <= |fields| then fields[field - 1] else ""
  }

  /** The field reached by stepping over `skip` delimiters. */
  function Nth(c: string, p: char -> bool, skip: nat): (r: string)
    decreases skip
  {
    var k := FirstOf(c, p);
    if skip == 0 then c[..k] else if k == |c| then "" else Nth(c[k + 1..], p, skip - 1)
  }

  lemma {:induction false} NthIsPiece(c: string, p: char -> bool, skip: nat)
    ensures var fields := SplitBy(c, p);
            Nth(c, p, skip) == if skip < |fields| then fields[skip] else ""
    decreases skip
  {
    hide FirstOf, SplitBy;
    SplitFirst(c, p);
    var k := FirstOf(c, p);
    if skip > 0 && k < |c| {
      NthIsPiece(c[k + 1..], p, skip - 1);
    }
    assert k == |c| ==> c[..k] == c;
  }

  /** A line buffer as the reader leaves it. */
  ghost predicate Holds(buf: array<char>, len: nat)
    reads buf
  {
    len < buf.Length && buf[len] == '\0'
  }

  lemma CStrLimit(line: string, c: string, i: nat)
    requires c == CStr(line) && i <= |c|
    ensures i < |c| ==> line[i] == c[i] && line[i] != '\0'
    ensures i == |c| && i < |line| ==> line[i] == '\0'
  {
    assert i < |c| ==> c[i] == line[i];
  }

  /** Steps to the next delimiter or the NUL. */
  method Advance(buf: array<char>, len: nat, delim: char, start: nat) returns (e: nat)
    requires Holds(buf, len) && start <= |CStr(buf[..len])|
    ensures e == start + FirstOf(CStr(buf[..len])[start..], Is(delim))
  {
    hide CStr, FirstOf, Free;
    e := start;
    ghost var line := buf[..len];
    ghost var c := CStr(line);
    StopAt(c, start, start, Is(delim));
    CStrLimit(line, c, e);
    while buf[e] != '\0' && buf[e] != delim
      invariant start <= e <= |c| <= len
      invariant Free(c[start..e], Is(delim))
      invariant e < |c| ==> buf[e] == c[e] && buf[e] != '\0'
      invariant e == |c| ==> buf[e] == '\0'
      decreases |c| - e
    {
      StopAt(c, start, e + 1, Is(delim));
      e := e + 1;
      CStrLimit(line, c, e);
    }
    StopsThere(c, start, e, Is(delim));
  }

  lemma StopAt(c: string, start: nat, e: nat, p: char -> bool)
    requires start <= e <= |c|
    ensures e == start ==> Free(c[start..e], p)
    ensures e > start && Free(c[start..e - 1], p) && !p(c[e - 1]) ==> Free(c[start..e], p)
  {
    assert e > start ==> c[start..e] == c[start..e - 1] + [c[e - 1]];
  }

  lemma StopsThere(c: string, start: nat, e: nat, p: char -> bool)
    requires start <= e <= |c| && Free(c[start..e], p) && (e < |c| ==> p(c[e]))
    ensures FirstOf(c[start..], p) == e - start
  {
    FirstOfIs(c[start..e], c[e..], p);
    assert c[start..] == c[start..e] + c[e..];
  }

  /** Whether the delimiter occurs before the NUL. */
  method Occurs(buf: array<char>, len: nat, delim: char) returns (r: bool)
    requires Holds(buf, len)
    ensures r <==> delim in CStr(buf[..len])
  {
    hide CStr, FirstOf;
    ghost var c := CStr(buf[..len]);
    CStrLimit(buf[..len], c, 0);
    var i := 0;
    while buf[i] != '\0'
      invariant 0 <= i <= |c| && delim !in c[..i]
      invariant i < |c| ==> buf[i] == c[i] && buf[i] != '\0'
      invariant i == |c| ==> buf[i] == '\0'
      decreases |c| - i
    {
      if buf[i] == delim {
        return true;
      }
      assert c[..i + 1] == c[..i] + [c[i]];
      i := i + 1;
      CStrLimit(buf[..len], c, i);
    }
    assert c[..i] == c;
    return false;
  }

  lemma NthStep(c: string, s: nat, p: char -> bool, skip: nat)
    requires s <= |c| && skip > 0
    ensures var k := s + FirstOf(c[s..], p);
            Nth(c[s..], p, skip) == if k == |c| then "" else Nth(c[k + 1..], p, skip - 1)
  {
    hide FirstOf;
    var k := s + FirstOf(c[s..], p);
    assert k < |c| ==> c[s..][k - s + 1..] == c[k + 1..];
  }

  /** Passes field - 1 delimiters; where the field starts, or the length of the line when there are too few. */
  method FieldStart(buf: array<char>, len: nat, delim: char, field: nat) returns (s: nat, found: bool)
    requires Holds(buf, len) && field >= 1
    ensures var c := CStr(buf[..len]);
            && (found ==> s <= |c|) && (!found ==> s == len)
            && Nth(c, Is(delim), field - 1) == if found then Nth(c[s..], Is(delim), 0) else ""
  {
    hide CStr, FirstOf, Nth;
    ghost var c := CStr(buf[..len]);
    ghost var p := Is(delim);
    var f := 1;
    s := 0;
    assert c[0..] == c;
    while f < field
      invariant 1 <= f <= field && s <= |c| <= len
      invariant Nth(c, p, field - 1) == Nth(c[s..], p, field - f)
    {
      NthStep(c, s, p, field - f);
      s := Advance(buf, len, delim, s);
      CStrLimit(buf[..len], c, s);
      if buf[s] == '\0' {
        return len, false;
      }
      s := s + 1;
      f := f + 1;
    }
    return s, true;
  }

  method CutLine(buf: array<char>, len: nat, delim: char, field: nat) returns (r: string)
    requires Holds(buf, len) && field >= 1
    ensures r == CutField(buf[..len], delim, field)
  {
    hide CStr, FirstOf, SplitBy;
    ghost var c := CStr(buf[..len]);
    var any := Occurs(buf, len, delim);
    if !any {
      return buf[..len];
    }
    NthIsPiece(c, Is(delim), field - 1);
    var s, found := FieldStart(buf, len, delim, field);
    if !found {
      return "";
    }
    var e := Advance(buf, len, delim, s);
    CStrIs(buf[..len], s, e);
    Slices(c, s, e);
    assert buf[..len][s..e] == buf[s..e];
    return buf[s..e];
  }

  lemma Slices(c: string, s: nat, e: nat)
    requires s <= e <= |c|
    ensures c[s..][..e - s] == c[s..e]
  {}

  lemma CStrIs(line: string, s: nat, e: nat)
    requires s <= e <= |CStr(line)|
    ensures CStr(line)[s..e] == line[s..e]
  {}

  // awk

  predicate Blank(c: char) { c == ' ' || c == '\t' }

  /** The maximal runs of non-blank characters. */
  function Tokens(c: string): (ts: seq<string>) { NonEmpty(SplitBy(c, Blank)) }

  lemma TokensSkip(c: string)
    requires c != "" && Blank(c[0])
    ensures Tokens(c) == Tokens(c[1..])
  {
    hide SplitBy, NonEmpty;
    NonEmptySplit(c, Blank);
  }

  lemma NoTokens()
    ensures Tokens("") == []
  {
    hide SplitBy, NonEmpty;
    NonEmptySplit("", Blank);
  }

  /** Words are separated by spaces and tabs, and by nothing else. */
  lemma WordsAre(word: string, sep: char, rest: string)
    requires word != "" && ' ' !in word && '\t' !in word && (sep == ' ' || sep == '\t')
    ensures Tokens(word) == [word]
    ensures Tokens(word + [sep] + rest) == [word] + Tokens(rest)
    ensures Tokens([sep] + rest) == Tokens(rest)
  {
    hide Tokens, FirstOf;
    assert Free(word, Blank);
    assert ([sep] + rest)[1..] == rest;
    TokensSkip([sep] + rest);
    assert word == word + "";
    FirstOfIs(word, "", Blank);
    TokensTake(word);
    NoTokens();
    var s := word + ([sep] + rest);
    FirstOfIs(word, [sep] + rest, Blank);
    TokensTake(s);
    assert s == word + [sep] + rest && s[..|word|] == word && s[|word|..] == [sep] + rest;
  }

  lemma TokensTake(c: string)
    requires FirstOf(c, Blank) > 0
    ensures var k := FirstOf(c, Blank); Tokens(c) == [c[..k]] + Tokens(c[k..])
  {
    hide SplitBy, NonEmpty, FirstOf;
    NonEmptySplit(c, Blank);
    var k := FirstOf(c, Blank);
    if k < |c| {
      TokensSkip(c[k..]);
      assert c[k..][1..] == c[k + 1..];
    } else {
      assert c[k..] == "";
      NoTokens();
    }
  }

  /** Skips blanks. */
  method SkipBlanks(buf: array<char>, len: nat, start: nat) returns (i: nat)
    requires Holds(buf, len) && start <= |CStr(buf[..len])|
    ensures start <= i <= |CStr(buf[..len])| && !Blank(buf[i])
    ensures Tokens(CStr(buf[..len])[i..]) == Tokens(CStr(buf[..len])[start..])
  {
    hide CStr, Tokens;
    ghost var c := CStr(buf[..len]);
    i := start;
    CStrLimit(buf[..len], c, i);
    while Blank(buf[i])
      invariant start <= i <= |c| <= len
      invariant i < |c| ==> buf[i] == c[i]
      invariant i == |c| ==> buf[i] == '\0'
      invariant Tokens(c[i..]) == Tokens(c[start..])
      decreases |c| - i
    {
      TokensSkip(c[i..]);
      assert c[i..][1..] == c[i + 1..];
      i := i + 1;
      CStrLimit(buf[..len], c, i);
    }
  }

  /** Passes a word. */
  method PassWord(buf: array<char>, len: nat, start: nat) returns (i: nat)
    requires Holds(buf, len) && start < |CStr(buf[..len])| && !Blank(buf[start])
    ensures start < i <= |CStr(buf[..len])|
    ensures Tokens(CStr(buf[..len])[start..]) == [buf[start..i]] + Tokens(CStr(buf[..len])[i..])
  {
    hide CStr, Tokens, FirstOf, Free;
    ghost var line := buf[..len];
    ghost var c := CStr(line);
    i := start;
    StopAt(c, start, start, Blank);
    CStrLimit(line, c, i);
    while buf[i] != '\0' && buf[i] != ' ' && buf[i] != '\t'
      invariant start <= i <= |c| <= len
      invariant Free(c[start..i], Blank)
      invariant i == start ==> buf[i] != '\0' && !Blank(buf[i])
      invariant i < |c| ==> buf[i] == c[i] && buf[i] != '\0'
      invariant i == |c| ==> buf[i] == '\0'
      decreases |c| - i
    {
      StopAt(c, start, i + 1, Blank);
      i := i + 1;
      CStrLimit(line, c, i);
    }
    StopsThere(c, start, i, Blank);
    TokensTake(c[start..]);
    assert c[start..][i - start..] == c[i..];
    CStrIs(line, start, i);
    assert line[start..i] == buf[start..i];
    assert c[start..][..i - start] == c[start..i];
  }

  /** Counts the words of a line and finds the wanted one; -1 when there is no such word. */
  method AwkLine(buf: array<char>, len: nat, field: int) returns (nf: nat, fs: int, fe: int)
    requires Holds(buf, len)
    ensures var ts := Tokens(CStr(buf[..len]));
            && nf == |ts|
            && (if 1 <= field <= |ts| then 0 <= fs <= fe <= len && buf[fs..fe] == ts[field - 1] else fs == -1)
  {
    hide CStr, Tokens;
    ghost var c := CStr(buf[..len]);
    ghost var ts := Tokens(c);
    ghost var passed: seq<string> := [];
    nf, fs, fe := 0, -1, -1;
    var i := 0;
    CStrLimit(buf[..len], c, 0);
    assert c[0..] == c && passed + ts == ts;
    NoTokens();
    while buf[i] != '\0'
      invariant 0 <= i <= |c| <= len && |passed| == nf && ts == passed + Tokens(c[i..])
      invariant i < |c| ==> buf[i] != '\0'
      invariant i == |c| ==> buf[i] == '\0'
      invariant if 1 <= field <= nf then 0 <= fs <= fe <= len && buf[fs..fe] == passed[field - 1] else fs == -1
      decreases |c| - i
    {
      i := SkipBlanks(buf, len, i);
      CStrLimit(buf[..len], c, i);
      if buf[i] == '\0' {
        break;
      }
      nf := nf + 1;
      if nf == field {
        fs := i;
      }
      ghost var start := i;
      i := PassWord(buf, len, i);
      CStrLimit(buf[..len], c, i);
      passed := passed + [buf[start..i]];
      if nf == field {
        fe := i;
      }
    }
    assert c[i..] == "";
  }

  // The applets

  function CutRows(lines: seq<string>, delim: char, field: nat): (rows: seq<string>)
    requires field >= 1
    ensures |rows| == |lines|
  {
    if lines == [] then [] else [CutField(lines[0], delim, field)] + CutRows(lines[1..], delim, field)
  }

  /** What awk prints for a line: the number of words, or one word, empty when there is none. */
  datatype Row = Count(nf: nat) | Text(text: string)

  const NF_MODE: int := -2

  function AwkField(line: string, field: int): (r: Row) {
    var ts := Tokens(CStr(line));
    if field == NF_MODE then Count(|ts|) else if 1 <= field <= |ts| then Text(ts[field - 1]) else Text("")
  }

  function AwkRows(lines: seq<string>, field: int): (rows: seq<Row>)
    ensures |rows| == |lines|
  {
    if lines == [] then [] else [AwkField(lines[0], field)] + AwkRows(lines[1..], field)
  }

  /** The rows printed depend on the input only through its lines, however it arrives. */
  method RunCut(r: Reader, delim: char, field: nat) returns (rows: seq<string>)
    requires r.Valid() && field >= 1
    modifies r, r.buf
    ensures rows == CutRows(Lines(old(r.Pending()), LINE), delim, field)
  {
    hide CutField, NextLine;
    var line := new char[LINE];
    rows := [];
    ghost var whole := Lines(r.Pending(), LINE);
    while true
      invariant r.Valid() && line != r.buf
      invariant CutRows(whole, delim, field) == rows + CutRows(Lines(r.Pending(), LINE), delim, field)
      decreases |r.Pending()|
    {
      ghost var before := rows;
      ghost var n := NextLine(r.Pending(), LINE);
      var len := r.ReadLine(line, LINE);
      if len < 0 {
        break;
      }
      var row := CutLine(line, len, delim, field);
      rows := rows + [row];
      assert before + ([row] + CutRows(Lines(n.rest, LINE), delim, field)) == rows + CutRows(Lines(n.rest, LINE), delim, field);
    }
    assert rows + [] == rows;
  }

  method AwkRow(buf: array<char>, len: nat, field: int) returns (row: Row)
    requires Holds(buf, len)
    ensures row == AwkField(buf[..len], field)
  {
    hide CStr, Tokens;
    var nf, fs, fe := AwkLine(buf, len, field);
    if field == NF_MODE {
      return Count(nf);
    } else if fs >= 0 {
      return Text(buf[fs..fe]);
    } else {
      return Text("");
    }
  }

  method RunAwk(r: Reader, field: int) returns (rows: seq<Row>)
    requires r.Valid()
    modifies r, r.buf
    ensures rows == AwkRows(Lines(old(r.Pending()), LINE), field)
  {
    hide AwkField, NextLine;
    var line := new char[LINE];
    rows := [];
    ghost var whole := Lines(r.Pending(), LINE);
    while true
      invariant r.Valid() && line != r.buf
      invariant AwkRows(whole, field) == rows + AwkRows(Lines(r.Pending(), LINE), field)
      decreases |r.Pending()|
    {
      ghost var before := rows;
      ghost var n := NextLine(r.Pending(), LINE);
      var len := r.ReadLine(line, LINE);
      if len < 0 {
        break;
      }
      var row := AwkRow(line, len, field);
      rows := rows + [row];
      assert before + ([row] + AwkRows(Lines(n.rest, LINE), field)) == rows + AwkRows(Lines(n.rest, LINE), field);
    }
    assert rows + [] == rows;
  }

  /** Lines that fit and hold no NUL: the rows are the reference split of each newline-separated piece. */
  lemma PlainInput(input: string, delim: char, field: nat, i: nat)
    requires field >= 1 && i < |Pieces(input)|
    requires forall j :: 0 <= j < |Pieces(input)| ==> |Pieces(input)[j]| < LINE && '\0' !in Pieces(input)[j]
    ensures Lines(input, LINE) == Pieces(input)
    ensures var piece := Pieces(input)[i];
            var fields := SplitBy(piece, Is(delim));
            && CutRows(Lines(input, LINE), delim, field)[i]
               == (if delim !in piece then piece else if field <= |fields| then fields[field - 1] else "")
            && AwkRows(Lines(input, LINE), NF_MODE)[i] == Count(|Tokens(piece)|)
            && AwkRows(Lines(input, LINE), field)[i] == Text(if field <= |Tokens(piece)| then Tokens(piece)[field - 1] else "")
  {
    hide SplitBy, Pieces, Tokens, Lines, FirstOf;
    LinesArePieces(input, LINE);
    assert CutAll(Pieces(input), LINE) == Pieces(input);
    var piece := Pieces(input)[i];
    WholeCStr(piece);
    CutRowAt(Pieces(input), delim, field, i);
    AwkRowAt(Pieces(input), NF_MODE, i);
    AwkRowAt(Pieces(input), field, i);
  }

  lemma WholeCStr(s: string)
    requires '\0' !in s
    ensures CStr(s) == s
  {
    FirstOfIs(s, "", Nul);
    assert s + "" == s;
  }

  lemma {:induction false} CutRowAt(lines: seq<string>, delim: char, field: nat, i: nat)
    requires field >= 1 && i < |lines|
    ensures CutRows(lines, delim, field)[i] == CutField(lines[i], delim, field)
  {
    hide CutField;
    if i > 0 {
      CutRowAt(lines[1..], delim, field, i - 1);
    }
  }

  lemma {:induction false} AwkRowAt(lines: seq<string>, field: int, i: nat)
    requires i < |lines|
    ensures AwkRows(lines, field)[i] == AwkField(lines[i], field)
  {
    hide AwkField;
    if i > 0 {
      AwkRowAt(lines[1..], field, i - 1);
    }
  }
}
