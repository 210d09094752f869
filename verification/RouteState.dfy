/** The route state file of netfast's `ip route`: lines of destination, gateway and device. */
module RouteText {
  import opened Options
  import opened Splits
  import opened LineReader

  import opened FieldTools

  predicate Space(c: char) { c == ' ' }

  /** The lines of the file; empty ones are skipped. */
  function StateLines(content: string): (ls: seq<string>) { NonEmpty(SplitBy(content, Newline)) }

  function Key(line: string): (k: string) { line[..FirstOf(line, Space)] }

  function Without(lines: seq<string>, dest: string): (ls: seq<string>) {
    if lines == [] then []
    else if Key(lines[0]) == dest then Without(lines[1..], dest)
    else [lines[0]] + Without(lines[1..], dest)
  }

  /** A line, its newline, and what follows. */
  function Above(line: string, after: string): (s: string)
    ensures |s| == |line| + 1 + |after|
  {
    line + "\n" + after
  }

  function Unlines(lines: seq<string>): (s: string) {
    if lines == [] then "" else Above(lines[0], Unlines(lines[1..]))
  }

  const OLD: nat := 16384
  const NEXT: nat := 20480

  function OrUnderscore(f: Option<string>): (s: string) { if f.Some? then f.value else "_" }

  /** Traffic to a loopback gateway leaves by the loopback device unless another is named. */
  function Device(gw: Option<string>, dev: Option<string>): (d: Option<string>) {
    if dev.None? && gw.Some? && ("127." <= gw.value || gw.value == "::1") then Some("lo") else dev
  }

  function NewLine(dest: string, gw: Option<string>, dev: Option<string>): (l: string) {
    dest + " " + OrUnderscore(gw) + " " + OrUnderscore(Device(gw, dev))
  }

  function KeptLines(lines: seq<string>, dest: string): (s: string) { Unlines(Without(lines, dest)) }

  function Kept(content: string, dest: string): (s: string) { KeptLines(StateLines(content), dest) }

  predicate Fits(content: string, dest: string, line: string) { |Kept(content, dest)| + |line| + 1 < NEXT }

  /** The file after adding or deleting a route. */
  function Changed(content: string, deleting: bool, dest: string, gw: Option<string>, dev: Option<string>): (s: string) {
    var line := NewLine(dest, gw, dev);
    if |content| >= OLD - 1 then content
    else if !deleting && Fits(content, dest, line) then Kept(content, dest) + line + "\n"
    else Kept(content, dest)
  }

  // What `show` prints of a line

  datatype Row = Row(dest: string, via: Option<string>, dev: Option<string>)

  const FIELD: nat := 128

  /** Field i of a split line, cut to its buffer; missing fields are empty. */
  function FieldAt(fs: seq<string>, i: nat): (f: string) { if i < |fs| then Cut(fs[i], FIELD) else "" }

  /** An empty field or an underscore is not shown. */
  function Shown(f: string): (r: Option<string>) { if f == "" || CStr(f) == "_" then None else Some(f) }

  function RowOf(fs: seq<string>): (r: Row) { Row(FieldAt(fs, 0), Shown(FieldAt(fs, 1)), Shown(FieldAt(fs, 2))) }

  /** Lines without a destination are passed over. */
  function Rows(lines: seq<string>): (rows: seq<Row>) {
    if lines == [] then []
    else
      var fs := SplitBy(lines[0], Space);
      if FieldAt(fs, 0) == "" then Rows(lines[1..]) else [RowOf(fs)] + Rows(lines[1..])
  }

  // Reading the lines one at a time

  lemma WithoutFirst(line: string, lines: seq<string>, dest: string)
    ensures Without([line] + lines, dest) == if Key(line) == dest then Without(lines, dest) else [line] + Without(lines, dest)
  {
    hide Key;
    assert ([line] + lines)[1..] == lines;
  }

  lemma UnlinesFirst(line: string, lines: seq<string>)
    ensures Unlines([line] + lines) == Above(line, Unlines(lines))
  {
    assert ([line] + lines)[1..] == lines;
  }

  /** The bytes kept of a first line and of the lines after it. */
  lemma KeptLine(line: string, rest: seq<string>, dest: string)
    ensures KeptLines([line] + rest, dest) == if Key(line) == dest then KeptLines(rest, dest) else Above(line, KeptLines(rest, dest))
  {
    hide Key, Without, Unlines, Above;
    WithoutFirst(line, rest, dest);
    if Key(line) != dest {
      UnlinesFirst(line, Without(rest, dest));
    }
  }

  /** What comes before the first newline, and what comes after it. */
  function First(s: string): (line: string) { s[..FirstOf(s, Newline)] }

  function Rest(s: string): (t: string) {
    var k := FirstOf(s, Newline);
    if k < |s| then s[k + 1..] else ""
  }

  /** Where the reading loops stand after a line. */
  lemma NextLineAt(all: string, start: nat, end: nat)
    requires start <= |all| && end == start + FirstOf(all[start..], Newline)
    ensures end <= |all| && all[start..end] == First(all[start..])
    ensures Rest(all[start..]) == all[if end < |all| then end + 1 else end..]
  {
    hide FirstOf, Free;
    var rest := all[start..];
    assert rest[..end - start] == all[start..end];
    assert end < |all| ==> rest[end - start + 1..] == all[end + 1..];
  }

  lemma LinesStep(s: string)
    ensures StateLines(s) == if First(s) == "" then StateLines(Rest(s)) else [First(s)] + StateLines(Rest(s))
  {
    hide FirstOf, NonEmpty, SplitBy, Free;
    NonEmptySplit(s, Newline);
    NonEmptySplit("", Newline);
  }

  /** The bytes kept of what is left of the file, one line on. */
  lemma KeptStep(s: string, dest: string)
    ensures Kept(s, dest)
            == if First(s) == "" || Key(First(s)) == dest then Kept(Rest(s), dest) else Above(First(s), Kept(Rest(s), dest))
  {
    hide First, Rest, Key, StateLines, KeptLines, Above;
    LinesStep(s);
    KeptLine(First(s), StateLines(Rest(s)), dest);
  }

  lemma NoLines(dest: string)
    ensures KeptLines([], dest) == "" && Unlines([]) == ""
  {}

  /** Filtering never needs more room than the file took, give or take a final newline. */
  lemma {:induction false} KeptFits(s: string, dest: string)
    ensures |Kept(s, dest)| <= |s| + 1
    ensures s == "" ==> Kept(s, dest) == ""
    decreases |s|
  {
    hide FirstOf, Kept, Key, Above, Free;
    if s == "" {
      NoBytes(dest);
    } else {
      KeptStep(s, dest);
      KeptFits(Rest(s), dest);
    }
  }

  lemma NoBytes(dest: string)
    ensures Kept("", dest) == ""
  {
    hide NonEmpty, SplitBy, FirstOf, KeptLines;
    NonEmptySplit("", Newline);
    NoLines(dest);
  }

  /** A new line always finds room exactly when its fields take fewer than 4094 bytes. */
  lemma AlwaysFitsIff(dest: string, gw: Option<string>, dev: Option<string>)
    requires dest != ""
    ensures var total := |dest| + |OrUnderscore(gw)| + |OrUnderscore(Device(gw, dev))|;
            (forall content | |content| < OLD - 1 :: Fits(content, dest, NewLine(dest, gw, dev))) <==> total < 4094
  {
    hide Kept, Device;
    var total := |dest| + |OrUnderscore(gw)| + |OrUnderscore(Device(gw, dev))|;
    if total < 4094 {
      forall content | |content| < OLD - 1 ensures Fits(content, dest, NewLine(dest, gw, dev)) { KeptFits(content, dest); }
    } else {
      var content := Filler(dest);
      assert !Fits(content, dest, NewLine(dest, gw, dev));
    }
  }

  /** One long line of another destination. */
  lemma Filler(dest: string) returns (content: string)
    requires dest != ""
    ensures |content| == OLD - 2 && |Kept(content, dest)| == OLD - 1
  {
    hide Kept, FirstOf;
    var c := if dest[0] == 'x' then 'y' else 'x';
    content := seq(OLD - 2, _ => c);
    assert content + "" == content;
    FirstOfIs(content, "", Newline);
    FirstOfIs(content, "", Space);
    assert content[..|content|] == content;
    assert Key(content)[0] == c;
    KeptStep(content, dest);
    NoBytes(dest);
  }

  lemma NoFields()
    ensures SplitBy("", Space) == [""] && FieldAt([""], 0) == "" && FieldAt([""], 1) == "" && FieldAt([""], 2) == ""
  {}

  lemma FieldsSnoc(s: string, c: char)
    ensures var fs, gs := SplitBy(s, Space), SplitBy(s + [c], Space);
            if c == ' ' then |gs| == |fs| + 1 && (forall i: nat :: FieldAt(gs, i) == FieldAt(fs, i))
            else && |gs| == |fs|
                 && (forall i: nat :: i != |fs| - 1 ==> FieldAt(gs, i) == FieldAt(fs, i))
                 && var f := FieldAt(fs, |fs| - 1);
                 FieldAt(gs, |fs| - 1) == if |f| < 127 then f + [c] else f
  {
    hide SplitBy;
    SplitSnoc(s, c, Space);
  }

  lemma NoRows()
    ensures Rows(StateLines("")) == []
  {
    hide NonEmpty, SplitBy;
    NonEmptySplit("", Newline);
  }

  lemma RowsStep(s: string)
    ensures var fs := SplitBy(First(s), Space);
            var after := Rows(StateLines(Rest(s)));
            Rows(StateLines(s)) == if FieldAt(fs, 0) == "" then after else [RowOf(fs)] + after
  {
    hide First, Rest, StateLines, SplitBy, RowOf, FieldAt;
    LinesStep(s);
    var lines := StateLines(Rest(s));
    if First(s) == "" {
      NoFields();
    } else {
      assert ([First(s)] + lines)[1..] == lines;
    }
  }
}

/** The commands of `ip route` on the state file, through their two fixed buffers. */
module RouteFile {
  import opened Options
  import opened Splits
  import opened CText
  import opened LineReader
  import opened RouteText

  /** Copies text into a buffer. */
  method Copy(to: array<char>, at: nat, text: string)
    requires at + |text| <= to.Length
    modifies to
    ensures to[..at] == old(to[..at]) && to[at..at + |text|] == text
    ensures to[..at + |text|] == old(to[..at]) + text
  {
    for i := 0 to |text|
      invariant to[..at] == old(to[..at])
      invariant to[at..at + i] == text[..i]
    {
      to[at + i] := text[i];
    }
    assert to[..at + |text|] == to[..at] + to[at..at + |text|];
  }

  class RouteStore {
    var file: string
    const previous: array<char>
    const next: array<char>

    ghost predicate Valid()
      reads this
    {
      previous.Length == OLD && next.Length == NEXT && previous != next
    }

    constructor (content: string)
      ensures Valid() && file == content && fresh(previous) && fresh(next)
    {
      file := content;
      previous := new char[OLD];
      next := new char[NEXT];
    }

    /** Reads as much of the file as fits, however many bytes each read delivers. */
    method ReadState(max: nat) returns (total: nat)
      requires Valid() && max <= OLD
      modifies previous
      ensures total == (if |file| < max then |file| else max) && previous[..total] == file[..total]
    {
      total := 0;
      while total < |file| && total < max
        invariant total <= |file| && total <= max && previous[..total] == file[..total]
      {
        var r: nat :| 1 <= r <= |file| - total && r <= max - total;
        Copy(previous, total, file[total..total + r]);
        assert file[..total] + file[total..total + r] == file[..total + r];
        total := total + r;
      }
    }

    /** Index of the first c in previous[from..to], or to. */
    method Seek(from: nat, to: nat, p: char -> bool) returns (k: nat)
      requires Valid() && from <= to <= OLD
      ensures k == from + FirstOf(previous[from..to], p)
    {
      hide FirstOf;
      k := from;
      while k < to && !p(previous[k])
        invariant from <= k <= to && forall i :: from <= i < k ==> !p(previous[i])
      {
        k := k + 1;
      }
      assert previous[from..to] == previous[from..k] + previous[k..to];
      FirstOfIs(previous[from..k], previous[k..to], p);
    }

    /** Copies one line unless it is empty, is about the destination, or does not fit. */
    method CopyLine(start: nat, end: nat, no: nat, dest: CString) returns (n: nat)
      requires Valid() && start <= end < OLD && no <= NEXT
      modifies next
      ensures n <= NEXT && n <= no + (end - start) + 1
      ensures var line := previous[start..end];
              next[..n] == if line == "" || Key(line) == dest || no + |line| + 1 >= NEXT then old(next[..no])
                           else old(next[..no]) + Above(line, "")
    {
      hide FirstOf;
      n := no;
      var sp := Seek(start, end, Space);
      ghost var line := previous[start..end];
      assert previous[start..sp] == line[..sp - start] == Key(line);
      if !(sp - start == |dest| && previous[start..sp] == dest) {
        if end > start && no + (end - start) + 1 < NEXT {
          Copy(next, no, previous[start..end]);
          n := no + (end - start);
          next[n] := '\n';
          n := n + 1;
          assert next[..n] == old(next[..no]) + line + "\n";
          assert old(next[..no]) + line + "\n" == old(next[..no]) + Above(line, "");
        }
      }
    }

    /** Copies every line that is not about the destination; none is dropped for lack of room. */
    method FilterLines(olen: nat, dest: CString) returns (no: nat)
      requires Valid() && olen < OLD - 1
      modifies next
      ensures no <= olen + 1 && next[..no] == Kept(previous[..olen], dest)
    {
      hide FirstOf, Kept, Above, Key, Free, First, Rest;
      no := 0;
      var p := 0;
      ghost var all := previous[..olen];
      ghost var whole := Kept(all, dest);
      assert all[0..] == all && next[..0] + whole == whole;
      while p < olen
        invariant 0 <= p <= olen && (no <= p || (p == olen && no <= p + 1)) && no < NEXT
        invariant all == previous[..olen]
        invariant whole == next[..no] + Kept(all[p..], dest)
      {
        ghost var rest, sofar := all[p..], next[..no];
        KeptStep(rest, dest);
        var start := p;
        Sliced(all, previous[..], start, olen);
        assert previous[..][start..olen] == previous[start..olen];
        p := Seek(p, olen, Newline);
        NextLineAt(all, start, p);
        Sliced(all, previous[..], start, p);
        assert previous[..][start..p] == previous[start..p];
        no := CopyLine(start, p, no, dest);
        if p < olen {
          p := p + 1;
        }
        AboveParts(sofar, First(rest), Kept(Rest(rest), dest));
      }
      NoBytes(dest);
      assert all[p..] == "";
    }

    /** Appends text to what is already in the new state. */
    method AppendText(at: nat, text: string) returns (n: nat)
      requires Valid() && at + |text| <= NEXT
      modifies next
      ensures n == at + |text| && next[..n] == old(next[..at]) + text
    {
      Copy(next, at, text);
      n := at + |text|;
    }

    /** Appends the new line when there is room for it. */
    method AppendRoute(start: nat, dest: CString, gw: CString, dev: CString) returns (no: nat)
      requires Valid() && start < NEXT
      modifies next
      ensures no <= NEXT
      ensures var line := dest + " " + gw + " " + dev;
              next[..no] == if start + |line| + 1 < NEXT then old(next[..start]) + line + "\n" else old(next[..start])
    {
      no := start;
      if no + |dest| + |gw| + |dev| + 3 < NEXT {
        ghost var before := next[..no];
        no := AppendText(no, dest);
        no := AppendText(no, " ");
        no := AppendText(no, gw);
        no := AppendText(no, " ");
        no := AppendText(no, dev);
        no := AppendText(no, "\n");
        Assembled(before, dest, gw, dev);
      }
    }

    /** Adds, replaces or deletes a route. A state too large to hold is left alone, and so is everything
        when no destination is given. */
    method Change(deleting: bool, dest: Option<CString>, gw: Option<CString>, dev: Option<CString>) returns (status: int)
      requires Valid()
      modifies this`file, previous, next
      ensures Valid()
      ensures if dest.None? || dest.value == "" then file == old(file) && status == (if deleting then 0 else 1)
              else && file == Changed(old(file), deleting, dest.value, gw, dev)
                   && status == (if |old(file)| >= OLD - 1 then -1 else 0)
    {
      hide Kept;
      if dest.None? || dest.value == "" {
        return if deleting then 0 else 1;
      }
      var dv: Option<CString> := dev;
      if !deleting && dev.None? && gw.Some? && ("127." <= gw.value || gw.value == "::1") {
        dv := Some("lo");
      }
      var olen := ReadState(OLD - 1);
      if olen >= OLD - 1 {
        return -1;
      }
      assert previous[..olen] == file;
      var no := FilterLines(olen, dest.value);
      if !deleting {
        no := AppendRoute(no, dest.value, if gw.Some? then gw.value else "_", if dv.Some? then dv.value else "_");
      }
      file := next[..no];
      return 0;
    }

    /** One line of the listing, character by character. */
    method ShowLine(start: nat, olen: nat) returns (p: nat, dest: string, gw: string, dv: string)
      requires Valid() && start < olen <= OLD
      ensures p == start + FirstOf(previous[start..olen], Newline)
      ensures var fs := SplitBy(previous[start..p], Space);
              dest == FieldAt(fs, 0) && gw == FieldAt(fs, 1) && dv == FieldAt(fs, 2)
    {
      hide SplitBy, FirstOf, Free, FieldAt;
      var f := 0;
      p, dest, gw, dv := start, "", "", "";
      ghost var fs := SplitBy("", Space);
      NoFields();
      assert previous[start..start] == "";
      while p < olen && previous[p] != '\n'
        invariant start <= p <= olen && forall i :: start <= i < p ==> previous[i] != '\n'
        invariant fs == SplitBy(previous[start..p], Space) && f == |fs| - 1
        invariant dest == FieldAt(fs, 0) && gw == FieldAt(fs, 1) && dv == FieldAt(fs, 2)
      {
        var c := previous[p];
        ghost var before := fs;
        fs := SplitBy(previous[start..p + 1], Space);
        assert previous[start..p + 1] == previous[start..p] + [c];
        FieldsSnoc(previous[start..p], c);
        p := p + 1;
        if c == ' ' {
          f := f + 1;
        } else if f == 0 && |dest| < 127 {
          dest := dest + [c];
        } else if f == 1 && |gw| < 127 {
          gw := gw + [c];
        } else if f == 2 && |dv| < 127 {
          dv := dv + [c];
        }
      }
      assert previous[start..olen] == previous[start..p] + previous[p..olen];
      ghost var line := previous[start..p];
      forall i | 0 <= i < |line| ensures line[i] != '\n' { assert line[i] == previous[start + i]; }
      NoNewlines(line);
      assert p < olen ==> previous[p..olen][0] == previous[p];
      FirstOfIs(previous[start..p], previous[p..olen], Newline);
    }

    /** Lists the routes of as much of the file as fits the buffer. */
    method Show() returns (rows: seq<Row>)
      requires Valid()
      modifies previous
      ensures rows == Rows(StateLines(if |file| < OLD - 1 then file else file[..OLD - 1]))
    {
      hide FirstOf, Free, SplitBy, StateLines, Rows, FieldAt, Shown, First, Rest;
      var olen := ReadState(OLD - 1);
      ghost var all := previous[..olen];
      assert all == if |file| < OLD - 1 then file else file[..OLD - 1];
      var p := 0;
      rows := [];
      assert all[0..] == all && rows + Rows(StateLines(all)) == Rows(StateLines(all));
      while p < olen
        invariant p <= olen && all == previous[..olen]
        invariant Rows(StateLines(all)) == rows + Rows(StateLines(all[p..]))
      {
        ghost var rest, sofar := all[p..], rows;
        assert rest == previous[p..olen];
        RowsStep(rest);
        var start := p;
        var dest, gw, dv;
        p, dest, gw, dv := ShowLine(p, olen);
        NextLineAt(all, start, p);
        Sliced(all, previous[..], start, p);
        assert previous[..][start..p] == previous[start..p];
        if p < olen {
          p := p + 1;
        }
        if dest == "" {
          continue;
        }
        rows := rows + [Row(dest, Shown(gw), Shown(dv))];
        assert sofar + ([Row(dest, Shown(gw), Shown(dv))] + Rows(StateLines(Rest(rest)))) == rows + Rows(StateLines(Rest(rest)));
      }
      assert all[p..] == "";
      NoRows();
      assert rows + [] == rows;
    }

    method Flush() returns (status: int)
      modifies this`file
      ensures file == "" && status == 0
    {
      file := "";
      return 0;
    }
  }

  lemma Sliced(part: string, whole: string, i: nat, j: nat)
    requires part <= whole && i <= j <= |part|
    ensures part[i..j] == whole[i..j] && part[i..] == whole[i..|part|]
  {}

  lemma Assembled(a: string, dest: string, gw: string, dev: string)
    ensures a + dest + " " + gw + " " + dev + "\n" == a + (dest + " " + gw + " " + dev) + "\n"
  {}

  lemma AboveParts(a: string, line: string, after: string)
    ensures a + Above(line, after) == a + Above(line, "") + after
  {}

  lemma NoNewlines(s: string)
    requires forall i :: 0 <= i < |s| ==> s[i] != '\n'
    ensures Free(s, Newline)
  {}
}
