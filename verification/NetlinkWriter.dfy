/** The probe's in-place request writer: it appends to one flat buffer and goes back to fill in
    the length of an attribute or message once its content is written. */
module NetlinkWriter {
  import opened Bytes
  import opened NetlinkFormat

  lemma Pad4Shift(at: nat, n: nat)
    requires at % 4 == 0
    ensures Pad4(at + n) == Pad4(n)
  {}

  /** The attribute as the writer leaves it at any position: padding takes the position, not the length, to a
      multiple of four. */
  function TlvAt(at: nat, kind: nat, payload: seq<Byte>): (s: seq<Byte>)
    ensures |s| == 4 + |payload| + Pad4(at + 4 + |payload|)
  {
    Le(4 + |payload|, 2) + Le(kind, 2) + payload + Zeros(Pad4(at + 4 + |payload|))
  }

  /** At a multiple of four that is the attribute of the format. */
  lemma TlvAligned(at: nat, kind: nat, payload: seq<Byte>)
    requires at % 4 == 0
    ensures TlvAt(at, kind, payload) == Tlv(kind, payload)
  {
    hide Le, Zeros;
    Pad4Shift(at, 4 + |payload|);
    Pad4Shift(4, |payload|);
  }

  /** Bytes that are a C string with its terminating NUL. */
  predicate IsCString(payload: seq<Byte>) {
    payload != [] && payload[|payload| - 1] == 0 && 0 !in payload[..|payload| - 1]
  }

  class Request {
    const buf: array<Byte>
    var pos: nat

    constructor (size: nat)
      ensures fresh(buf) && buf.Length == size && pos == 0
    {
      buf := new Byte[size](_ => 0);
      pos := 0;
    }

    method PutU16(off: nat, value: nat)
      requires off + 2 <= buf.Length
      modifies buf
      ensures buf[..] == Splice(old(buf[..]), off, Le(value, 2))
    {
      buf[off] := value % 256;
      buf[off + 1] := value / 256 % 256;
      LeTwo(value);
    }

    method PutU32(off: nat, value: nat)
      requires off + 4 <= buf.Length
      modifies buf
      ensures buf[..] == Splice(old(buf[..]), off, Le(value, 4))
    {
      buf[off] := value % 256;
      buf[off + 1] := value / 0x100 % 256;
      buf[off + 2] := value / 0x1_0000 % 256;
      buf[off + 3] := value / 0x100_0000 % 256;
      LeFour(value);
    }

    /** Zero bytes until the position is a multiple of four. */
    method PadToFour()
      requires pos + Pad4(pos) <= buf.Length
      modifies this`pos, buf
      ensures pos == old(pos) + Pad4(old(pos))
      ensures buf[..] == Splice(old(buf[..]), old(pos), Zeros(Pad4(old(pos))))
    {
      hide Splice;
      var from := pos;
      SpliceNothing(buf[..], pos);
      assert Zeros(0) == [];
      while pos % 4 != 0
        invariant from <= pos <= from + Pad4(from)
        invariant buf[..] == Splice(old(buf[..]), from, Zeros(pos - from))
        decreases from + Pad4(from) - pos
      {
        SpliceSnoc(old(buf[..]), from, Zeros(pos - from), 0);
        assert Zeros(pos + 1 - from) == Zeros(pos - from) + [0];
        buf[pos] := 0;
        pos := pos + 1;
      }
    }

    method AttrStart(kind: nat) returns (start: nat)
      requires pos + 4 <= buf.Length
      modifies this`pos, buf
      ensures start == old(pos) && pos == old(pos) + 4
      ensures buf[..] == Splice(old(buf[..]), start, Le(0, 2) + Le(kind, 2))
    {
      start := pos;
      PutU16(start, 0);
      PutU16(start + 2, kind);
      SpliceJoin(old(buf[..]), start, Le(0, 2), Le(kind, 2));
      pos := pos + 4;
    }

    /** Back-patches the length at `start`, then pads. */
    method AttrEnd(start: nat)
      requires start + 2 <= pos
      requires pos + Pad4(pos) <= buf.Length
      modifies this`pos, buf
      ensures pos == old(pos) + Pad4(old(pos))
      ensures buf[..] == Splice(Splice(old(buf[..]), start, Le(old(pos) - start, 2)), old(pos), Zeros(Pad4(old(pos))))
    {
      PutU16(start, pos - start);
      PadToFour();
    }

    method CopyIn(bytes: seq<Byte>)
      requires pos + |bytes| <= buf.Length
      modifies buf
      ensures buf[..] == Splice(old(buf[..]), pos, bytes)
    {
      hide Splice;
      SpliceNothing(buf[..], pos);
      for i := 0 to |bytes|
        invariant buf[..] == Splice(old(buf[..]), pos, bytes[..i])
      {
        SpliceSnoc(old(buf[..]), pos, bytes[..i], bytes[i]);
        buf[pos + i] := bytes[i];
        assert bytes[..i + 1] == bytes[..i] + [bytes[i]];
      }
      assert bytes[..|bytes|] == bytes;
    }

    method PushAttr(kind: nat, payload: seq<Byte>)
      requires pos + |TlvAt(pos, kind, payload)| <= buf.Length
      modifies this`pos, buf
      ensures pos == old(pos) + |TlvAt(old(pos), kind, payload)| && pos % 4 == 0
      ensures buf[..] == Splice(old(buf[..]), old(pos), TlvAt(old(pos), kind, payload))
    {
      hide Le, TlvAt, Splice, Pad4;
      ghost var was := buf[..];
      var start := AttrStart(kind);
      CopyIn(payload);
      pos := pos + |payload|;
      AttrEnd(start);
      CloseTlv(was, start, kind, payload);
    }

    /** A C string goes out with its terminating NUL. */
    method PushAttrString(kind: nat, value: seq<Byte>)
      requires pos + |TlvAt(pos, kind, value + [0])| <= buf.Length
      modifies this`pos, buf
      ensures pos == old(pos) + |TlvAt(old(pos), kind, value + [0])| && pos % 4 == 0
      ensures buf[..] == Splice(old(buf[..]), old(pos), TlvAt(old(pos), kind, value + [0]))
    {
      hide Le, TlvAt, Splice, Pad4;
      ghost var was := buf[..];
      var start := AttrStart(kind);
      AppendCString(value);
      AttrEnd(start);
      CloseTlv(was, start, kind, value + [0]);
    }

    method AppendCString(value: seq<Byte>)
      requires pos + |value| + 1 <= buf.Length
      modifies this`pos, buf
      ensures pos == old(pos) + |value| + 1
      ensures buf[..] == Splice(old(buf[..]), old(pos), value + [0])
    {
      hide Splice;
      SpliceNothing(buf[..], pos);
      for i := 0 to |value|
        invariant pos == old(pos) + i
        invariant buf[..] == Splice(old(buf[..]), old(pos), value[..i])
      {
        SpliceSnoc(old(buf[..]), old(pos), value[..i], value[i]);
        buf[pos] := value[i];
        pos := pos + 1;
        assert value[..i + 1] == value[..i] + [value[i]];
      }
      assert value[..|value|] == value;
      SpliceSnoc(old(buf[..]), old(pos), value, 0);
      buf[pos] := 0;
      pos := pos + 1;
    }

    /** Any attribute tree: a nest is opened, filled and closed with the primitives above. A payload that is a C
        string may go out through either leaf writer. */
    method WriteAttr(a: Attr)
      requires pos % 4 == 0
      requires pos + |EncodeAttr(a)| <= buf.Length
      modifies this`pos, buf
      ensures pos == old(pos) + |EncodeAttr(a)|
      ensures buf[..] == Splice(old(buf[..]), old(pos), EncodeAttr(a))
      decreases a, 1
    {
      hide Le, Tlv, TlvAt, EncodeAttrs, Splice, Pad4;
      match a {
        case Leaf(kind, payload) =>
          TlvAligned(pos, kind, payload);
          if {
            case IsCString(payload) =>
              assert payload[..|payload| - 1] + [0] == payload;
              PushAttrString(kind, payload[..|payload| - 1]);
            case true =>
              PushAttr(kind, payload);
          }
        case Nest(kind, children) =>
          ghost var was := buf[..];
          ghost var body := EncodeAttrs(children);
          var start := AttrStart(WithNested(kind));
          WriteAttrs(children);
          Pad4Shift(start, 4 + |body|);
          TlvAligned(start, WithNested(kind), body);
          AttrEnd(start);
          CloseTlv(was, start, WithNested(kind), body);
      }
    }

    method WriteAttrs(attrs: seq<Attr>)
      requires pos % 4 == 0
      requires pos + |EncodeAttrs(attrs)| <= buf.Length
      modifies this`pos, buf
      ensures pos == old(pos) + |EncodeAttrs(attrs)|
      ensures buf[..] == Splice(old(buf[..]), old(pos), EncodeAttrs(attrs))
      decreases attrs, 0
    {
      hide EncodeAttr, Splice;
      if attrs == [] {
        SpliceNothing(buf[..], pos);
      } else {
        ghost var was, at := buf[..], pos;
        WriteAttr(attrs[0]);
        WriteAttrs(attrs[1..]);
        SpliceJoin(was, at, EncodeAttr(attrs[0]), EncodeAttrs(attrs[1..]));
      }
    }

    method NlmsgStart(kind: nat, flags: nat, number: nat) returns (start: nat)
      requires pos + 16 <= buf.Length
      modifies this`pos, buf
      ensures start == old(pos) && pos == old(pos) + 16
      ensures buf[..] == Splice(old(buf[..]), start,
                                Le(0, 4) + Le(kind, 2) + Le(flags, 2) + Le(number, 4) + Le(0, 4))
    {
      hide Le, Splice;
      ghost var was := buf[..];
      start := pos;
      PutU32(start, 0);
      PutU16(start + 4, kind);
      SpliceJoin(was, start, Le(0, 4), Le(kind, 2));
      PutU16(start + 6, flags);
      SpliceJoin(was, start, Le(0, 4) + Le(kind, 2), Le(flags, 2));
      PutU32(start + 8, number);
      SpliceJoin(was, start, Le(0, 4) + Le(kind, 2) + Le(flags, 2), Le(number, 4));
      PutU32(start + 12, 0);
      SpliceJoin(was, start, Le(0, 4) + Le(kind, 2) + Le(flags, 2) + Le(number, 4), Le(0, 4));
      pos := pos + 16;
    }

    method PushNfgenmsg()
      requires pos + 4 <= buf.Length
      modifies this`pos, buf
      ensures pos == old(pos) + 4
      ensures buf[..] == Splice(old(buf[..]), old(pos), [2, 0, 0, 0])
    {
      buf[pos] := 2;
      buf[pos + 1] := 0;
      buf[pos + 2] := 0;
      buf[pos + 3] := 0;
      pos := pos + 4;
    }

    method NlmsgEnd(start: nat)
      requires start + 4 <= pos
      requires pos + Pad4(pos) <= buf.Length
      modifies this`pos, buf
      ensures pos == old(pos) + Pad4(old(pos))
      ensures buf[..] == Splice(Splice(old(buf[..]), start, Le(old(pos) - start, 4)), old(pos), Zeros(Pad4(old(pos))))
    {
      PutU32(start, pos - start);
      PadToFour();
    }

    method WriteMessage(m: Message)
      requires pos % 4 == 0
      requires pos + |EncodeMessage(m)| <= buf.Length
      modifies this`pos, buf
      ensures pos == old(pos) + |EncodeMessage(m)|
      ensures buf[..] == Splice(old(buf[..]), old(pos), EncodeMessage(m))
    {
      hide Le, EncodeAttrs, Splice, Pad4;
      ghost var was := buf[..];
      var start := NlmsgStart(m.kind, m.flags, m.number);
      PushNfgenmsg();
      WriteAttrs(m.attrs);
      NlmsgEnd(start);
      CloseMessage(was, start, m);
    }

    /** A whole request: every message lands after the one before it, nothing before the starting
        position or after the final one changes. */
    method WriteMessages(ms: seq<Message>)
      requires pos % 4 == 0
      requires pos + |EncodeMessages(ms)| <= buf.Length
      modifies this`pos, buf
      ensures pos == old(pos) + |EncodeMessages(ms)|
      ensures buf[..] == Splice(old(buf[..]), old(pos), EncodeMessages(ms))
    {
      hide EncodeMessage, Splice;
      if ms == [] {
        SpliceNothing(buf[..], pos);
      } else {
        ghost var was, at := buf[..], pos;
        WriteMessage(ms[0]);
        WriteMessages(ms[1..]);
        SpliceJoin(was, at, EncodeMessage(ms[0]), EncodeMessages(ms[1..]));
      }
    }
  }

  lemma LeTwo(v: nat)
    ensures Le(v, 2) == [v % 256, v / 256 % 256]
  {
    assert Le(v / 256, 1) == [v / 256 % 256] + Le(v / 256 / 256, 0);
  }

  lemma LeFour(v: nat)
    ensures Le(v, 4) == [v % 256, v / 0x100 % 256, v / 0x1_0000 % 256, v / 0x100_0000 % 256]
  {
    LeTwo(v / 0x1_0000);
    assert v / 256 / 256 == v / 0x1_0000;
    assert v / 0x1_0000 / 256 == v / 0x100_0000;
    assert Le(v, 4) == [v % 256] + Le(v / 256, 3);
    assert Le(v / 256, 3) == [v / 256 % 256] + Le(v / 256 / 256, 2);
  }

  /** The four bytes every attribute begins with: its length without padding and its kind, low byte first, a nest
      with the top bit of its kind set. */
  lemma HeaderBytes(a: Attr)
    ensures var e := EncodeAttr(a);
            && e[0] as int + 256 * (e[1] as int) == AttrLen(a) % 65536
            && (a.Leaf? ==> e[2] as int + 256 * (e[3] as int) == a.kind % 65536)
            && (a.Nest? ==> e[3] >= 128 && (a.kind < 0x8000 ==> e[2] as int + 256 * (e[3] as int) == a.kind + 0x8000))
  {
    hide Le, EncodeAttrs, Zeros, Pad4, WithNested;
    var kind := if a.Leaf? then a.kind else WithNested(a.kind);
    TwoBytes(AttrLen(a));
    TwoBytes(kind);
    if a.Nest? {
      NestBit(a.kind);
    }
  }

  lemma TwoBytes(v: nat)
    ensures var b := Le(v, 2); |b| == 2 && b[0] as int + 256 * (b[1] as int) == v % 65536
  {
    LeTwo(v);
  }

  lemma NestBit(kind: nat)
    ensures WithNested(kind) % 65536 >= 0x8000 && (kind < 0x8000 ==> WithNested(kind) == kind + 0x8000)
  {
    var k := WithNested(kind);
    UpperHalf(k, k / 0x8000, k % 0x8000);
  }

  lemma UpperHalf(k: nat, q: nat, r: nat)
    requires k == q * 0x8000 + r && r < 0x8000 && q % 2 == 1
    ensures k % 65536 == 0x8000 + r
  {
    DivModUnique(k, 65536, q / 2, 0x8000 + r);
  }

  /** Header, body, back-patched length and padding together are one attribute. */
  lemma CloseTlv(s: seq<Byte>, start: nat, kind: nat, body: seq<Byte>)
    requires start + |TlvAt(start, kind, body)| <= |s|
    ensures var head := Le(0, 2) + Le(kind, 2);
            var end := start + 4 + |body|;
            && Splice(Splice(Splice(Splice(s, start, head), start + 4, body), start, Le(end - start, 2)),
                      end, Zeros(Pad4(end)))
            == Splice(s, start, TlvAt(start, kind, body))
  {
    hide Le, Pad4, Splice;
    var end := start + 4 + |body|;
    var head := Le(0, 2) + Le(kind, 2);
    SpliceJoin(s, start, head, body);
    SplicePatch(s, start, head + body, Le(end - start, 2));
    assert (head + body)[2..] == Le(kind, 2) + body;
    var full := Le(end - start, 2) + (Le(kind, 2) + body);
    SpliceJoin(s, start, full, Zeros(Pad4(end)));
    assert full + Zeros(Pad4(end)) == TlvAt(start, kind, body);
  }

  lemma CloseMessage(s: seq<Byte>, start: nat, m: Message)
    requires start % 4 == 0 && start + |EncodeMessage(m)| <= |s|
    ensures var body := EncodeAttrs(m.attrs);
            var head := Le(0, 4) + Le(m.kind, 2) + Le(m.flags, 2) + Le(m.number, 4) + Le(0, 4);
            var end := start + 20 + |body|;
            && Pad4(end) == 0
            && Splice(Splice(Splice(Splice(Splice(s, start, head), start + 16, [2, 0, 0, 0]), start + 20, body),
                             start, Le(end - start, 4)), end, Zeros(Pad4(end)))
            == Splice(s, start, EncodeMessage(m))
  {
    hide Le, EncodeAttrs, Splice;
    var body := EncodeAttrs(m.attrs);
    var head := Le(0, 4) + Le(m.kind, 2) + Le(m.flags, 2) + Le(m.number, 4) + Le(0, 4);
    var end := start + 20 + |body|;
    SpliceJoin(s, start, head, [2, 0, 0, 0]);
    SpliceJoin(s, start, head + [2, 0, 0, 0], body);
    var all := head + [2, 0, 0, 0] + body;
    SplicePatch(s, start, all, Le(end - start, 4));
    assert Le(end - start, 4) + all[4..] == EncodeMessage(m);
    assert Zeros(0) == [];
    SpliceNothing(Splice(s, start, EncodeMessage(m)), end);
  }
}
