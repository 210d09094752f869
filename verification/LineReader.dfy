/** The buffered line reader behind netfast's cut, awk and grep. */
module LineReader {
  import opened Options
  import opened Splits

  const CAPACITY: nat := 8192

  function Concat(chunks: seq<string>): string {
    if chunks == [] then "" else chunks[0] + Concat(chunks[1..])
  }

  // What is read, whatever the chunks

  predicate Newline(c: char) { c == '\n' }

  predicate OneLine(s: string) { Free(s, Newline) }

  function LineEnd(p: string): (k: nat)
    ensures k <= |p| && OneLine(p[..k]) && (k < |p| ==> p[k] == '\n')
  {
    FirstOf(p, Newline)
  }

  /** The part of a line that fits a buffer of max bytes with its NUL. */
  function Cut(line: string, max: nat): (t: string)
    requires max >= 1
    ensures |t| <= max - 1
  {
    if |line| <= max - 1 then line else line[..max - 1]
  }

  datatype Next = Eof | Line(text: string, rest: string)

  /** One call on the bytes still to come. */
  function NextLine(p: string, max: nat): (n: Next)
    requires max >= 1
    ensures n.Line? ==> |n.rest| < |p|
  {
    var k := LineEnd(p);
    if k < |p| then Line(Cut(p[..k], max), p[k + 1..])
    else if Cut(p, max) == "" then Eof
    else Line(Cut(p, max), "")
  }

  /** The lines a caller sees before the end. */
  function Lines(p: string, max: nat): (ls: seq<string>)
    requires max >= 1
    decreases |p|
  {
    var n := NextLine(p, max);
    if n.Eof? then [] else [n.text] + Lines(n.rest, max)
  }

  /** Reference: the pieces between newlines, without the empty piece a final newline leaves. */
  function Pieces(p: string): (ls: seq<string>) { Segments(p, Newline) }

  function CutAll(ls: seq<string>, max: nat): (cs: seq<string>)
    requires max >= 1
    ensures |cs| == |ls| && forall i :: 0 <= i < |ls| ==> cs[i] == Cut(ls[i], max)
  {
    seq(|ls|, i requires 0 <= i < |ls| => Cut(ls[i], max))
  }

  /** The lines delivered are the newline-separated pieces, each cut to the buffer. */
  lemma {:induction false} LinesArePieces(p: string, max: nat)
    requires max >= 2
    ensures Lines(p, max) == CutAll(Pieces(p), max)
    decreases |p|
  {
    hide Segments, FirstOf;
    SegmentsStep(p, Newline);
    var k := LineEnd(p);
    if k < |p| {
      LinesArePieces(p[k + 1..], max);
      assert CutAll([p[..k]] + Pieces(p[k + 1..]), max) == [Cut(p[..k], max)] + CutAll(Pieces(p[k + 1..]), max);
    } else if p != "" {
      assert NextLine(p, max) == Line(Cut(p, max), "");
      assert Lines("", max) == [];
      assert CutAll([p], max) == [Cut(p, max)];
    }
  }

  /** Standard input as the reads still to come, and the buffer they are read through. */
  class Reader {
    var chunks: seq<string>
    const buf: array<char>
    var len: nat
    var pos: nat

    ghost predicate Valid()
      reads this
    {
      && buf.Length == CAPACITY && pos <= len <= CAPACITY
      && forall i :: 0 <= i < |chunks| ==> 1 <= |chunks[i]| <= CAPACITY
    }

    ghost function Pending(): string
      requires Valid()
      reads this, buf
    {
      buf[pos..len] + Concat(chunks)
    }

    constructor (input: seq<string>)
      requires forall i :: 0 <= i < |input| ==> 1 <= |input[i]| <= CAPACITY
      ensures Valid() && Pending() == Concat(input) && fresh(buf)
    {
      chunks := input;
      buf := new char[CAPACITY];
      len, pos := 0, 0;
      new;
      assert buf[pos..len] + Concat(chunks) == Concat(input);
    }

    /** One read into the buffer: the next chunk, or nothing at the end. */
    method Fill()
      requires Valid() && pos == len
      modifies this, buf
      ensures Valid() && pos == 0 && Pending() == old(Pending())
      ensures len == 0 <==> Pending() == ""
    {
      pos := 0;
      if chunks == [] {
        len := 0;
      } else {
        var c := chunks[0];
        for i := 0 to |c|
          invariant buf[..i] == c[..i]
          invariant chunks == old(chunks) && pos == 0
        {
          buf[i] := c[i];
        }
        chunks := chunks[1..];
        len := |c|;
        assert buf[0..len] == c;
      }
    }

    /** Copies buffered bytes until a newline or the end of the buffer; `taken` is the line so far. */
    method Drain(out: array<char>, max: nat, start: nat, ghost taken: string) returns (o: nat, done: bool, ghost more: string)
      requires Valid() && out != buf && 1 <= max <= out.Length
      requires start == |Cut(taken, max)| && out[..start] == Cut(taken, max) && OneLine(taken)
      modifies this`pos, out
      ensures Valid() && OneLine(more) && o == |Cut(more, max)| && out[..o] == Cut(more, max)
      ensures taken + old(Pending()) == (if done then more + ['\n'] else more) + Pending()
      ensures !done ==> pos == len
      ensures old(pos) < len ==> |Pending()| < old(|Pending()|)
    {
      hide Cut, Concat, OneLine;
      o, more, done := start, taken, false;
      ghost var bytes := buf[..len];
      while pos < len && !done
        invariant Valid() && old(pos) <= pos && bytes == buf[..len] && (done ==> old(pos) < pos)
        invariant OneLine(more) && o == |Cut(more, max)| && out[..o] == Cut(more, max)
        invariant taken + bytes[old(pos)..] == (if done then more + ['\n'] else more) + bytes[pos..]
        decreases len - pos
      {
        ghost var before := more;
        o, done, more := Step(out, max, o, more);
        assert bytes[pos - 1..] == [bytes[pos - 1]] + bytes[pos..];
      }
      assert bytes[old(pos)..] == old(buf[pos..len]) && bytes[pos..] == buf[pos..len];
      Append(taken, bytes[old(pos)..], if done then more + ['\n'] else more, bytes[pos..], Concat(chunks));
    }

    /** One byte: the newline ends the line, any other is kept while there is room. */
    method Step(out: array<char>, max: nat, start: nat, ghost taken: string) returns (o: nat, done: bool, ghost more: string)
      requires Valid() && out != buf && 1 <= max <= out.Length && pos < len
      requires start == |Cut(taken, max)| && out[..start] == Cut(taken, max) && OneLine(taken)
      modifies this`pos, out
      ensures Valid() && pos == old(pos) + 1 && OneLine(more) && o == |Cut(more, max)| && out[..o] == Cut(more, max)
      ensures done == (buf[pos - 1] == '\n') && more == if done then taken else taken + [buf[pos - 1]]
    {
      hide Cut, OneLine;
      o, more, done := start, taken, false;
      var c := buf[pos];
      pos := pos + 1;
      if c == '\n' {
        done := true;
        return;
      }
      CutSnoc(taken, c, max);
      OneLineSnoc(taken, c);
      more := taken + [c];
      if o < max - 1 {
        out[o] := c;
        o := o + 1;
        assert out[..o] == Cut(taken, max) + [c];
      }
    }

    /** Returns the length of the line, or -1 at the end; the line is left NUL-terminated in `out`. */
    method ReadLine(out: array<char>, max: nat) returns (r: int)
      requires Valid() && out != buf && 1 <= max <= out.Length
      modifies this, buf, out
      ensures Valid()
      ensures var n := NextLine(old(Pending()), max);
              if n.Eof? then r == -1 && Pending() == ""
              else && 0 <= r < max && out[..r] == n.text && out[r] == '\0' && Pending() == n.rest
    {
      hide Concat, OneLine, Cut, NextLine;
      NothingTaken(max);
      ghost var taken := "";
      ghost var whole := Pending();
      var o := 0;
      var done := false;
      while true
        invariant Valid() && o == |Cut(taken, max)| && out[..o] == Cut(taken, max) && OneLine(taken)
        invariant whole == taken + Pending()
        decreases |Pending()|
      {
        if pos >= len {
          Fill();
          if len == 0 {
            assert whole == taken;
            NoNewline(whole, max);
            if o == 0 {
              return -1;
            }
            out[o] := '\0';
            assert out[..o] == Cut(taken, max);
            return o;
          }
        }
        o, done, taken := Drain(out, max, o, taken);
        if done {
          assert whole == taken + ['\n'] + Pending();
          EndsAt(taken, Pending(), max);
          out[o] := '\0';
          assert out[..o] == Cut(taken, max);
          return o;
        }
        assert whole == taken + Pending();
      }
    }
  }

  lemma NoNewline(p: string, max: nat)
    requires max >= 1 && OneLine(p)
    ensures NextLine(p, max) == if Cut(p, max) == "" then Eof else Line(Cut(p, max), "")
  {}

  lemma EndsAt(line: string, rest: string, max: nat)
    requires max >= 1 && OneLine(line)
    ensures NextLine(line + ['\n'] + rest, max) == Line(Cut(line, max), rest)
  {
    hide FirstOf;
    var p := line + ['\n'] + rest;
    assert p == line + (['\n'] + rest);
    FirstOfIs(line, ['\n'] + rest, Newline);
    assert p[..|line|] == line && p[|line| + 1..] == rest;
  }

  lemma Append(a: string, b: string, c: string, d: string, e: string)
    requires a + b == c + d
    ensures a + (b + e) == c + (d + e)
  {
    assert a + (b + e) == a + b + e && c + (d + e) == c + d + e;
  }

  lemma OneLineSnoc(line: string, c: char)
    requires OneLine(line) && c != '\n'
    ensures OneLine(line + [c])
  {}

  lemma NothingTaken(max: nat)
    requires max >= 1
    ensures OneLine("") && Cut("", max) == ""
  {}

  lemma CutSnoc(line: string, c: char, max: nat)
    requires max >= 1
    ensures Cut(line + [c], max) == if |Cut(line, max)| < max - 1 then Cut(line, max) + [c] else Cut(line, max)
  {}
}
