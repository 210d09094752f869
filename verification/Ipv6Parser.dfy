/** The address parsers of netfast, working in place on their group and output buffers. */
module Ipv6Parser {
  import opened Options
  import opened Bytes
  import opened CText
  import opened Ipv6Text

  /** Each group as two octets, high one first. */
  function Wire(a: seq<Group>): (bs: seq<Byte>)
    ensures |bs| == 2 * |a|
  {
    if a == [] then [] else [a[0] / 256, a[0] % 256] + Wire(a[1..])
  }

  lemma {:induction false} WireAt(a: seq<Group>, i: nat)
    requires i < |a|
    ensures Wire(a)[2 * i] == a[i] / 256 && Wire(a)[2 * i + 1] == a[i] % 256
  {
    if i > 0 {
      WireAt(a[1..], i - 1);
    }
  }

  lemma {:induction false} WireZero(n: nat)
    ensures Wire(ZeroGroups(n)) == Zeros(2 * n)
  {
    if n > 0 {
      WireZero(n - 1);
      assert ZeroGroups(n)[1..] == ZeroGroups(n - 1);
    }
  }

  method ParseU64(text: CString, p: nat) returns (n: nat, v: nat)
    requires p <= |text|
    ensures n == DigitRun(text[p..]) && v == Decimal(text[p..][..n])
  {
    var s := text[p..];
    n, v := 0, 0;
    while n < |s| && IsDigit(s[n])
      invariant n <= DigitRun(s)
      invariant v == Decimal(s[..n])
    {
      assert s[..n + 1][..n] == s[..n];
      v := (v * 10 + (s[n] as int - '0' as int)) % TWO64;
      n := n + 1;
    }
  }

  /** What the parts read so far and the rest of the text give together. */
  function Joined(parts: seq<Byte>, rest: Option<seq<Byte>>): (r: Option<seq<Byte>>) {
    if rest.None? then None else Some(parts + rest.value)
  }

  lemma NextField(parts: seq<Byte>, s: string, n: nat)
    requires n > 0
    ensures var d := DigitRun(s);
            Joined(parts, Fields(s, n))
            == if d == 0 || Decimal(s[..d]) > 255 then None
               else if n > 1 && At(s, d) != '.' then None
               else Joined(parts + [Decimal(s[..d]) as Byte], Fields(if n > 1 then s[d + 1..] else s[d..], n - 1))
  {
    hide DigitRun, Decimal;
    var d := DigitRun(s);
    if d > 0 && Decimal(s[..d]) <= 255 && (n > 1 ==> At(s, d) == '.') {
      assert n > 1 ==> s[d..][1..] == s[d + 1..];
      var rest := Fields(if n > 1 then s[d + 1..] else s[d..], n - 1);
      if rest.Some? {
        assert parts + ([Decimal(s[..d]) as Byte] + rest.value) == parts + [Decimal(s[..d]) as Byte] + rest.value;
      }
    }
  }

  /** The four parts, or nothing. */
  method ParseIpv4(text: CString, start: nat) returns (r: Option<seq<Byte>>)
    requires start <= |text|
    ensures r == Quad(text[start..])
  {
    hide DigitRun, Decimal, Fields;
    var parts: seq<Byte> := [];
    var p := start;
    var i := 0;
    ghost var whole := Quad(text[start..]);
    assert whole.Some? ==> parts + whole.value == whole.value;
    while i < 4
      invariant 0 <= i <= 4 && |parts| == i && start <= p <= |text|
      invariant whole == Joined(parts, Fields(text[p..], 4 - i))
    {
      NextField(parts, text[p..], 4 - i);
      var n, v := ParseU64(text, p);
      if n == 0 || v > 255 {
        return None;
      }
      parts := parts + [v];
      assert text[p..][n..] == text[p + n..];
      assert At(text[p..], n) == At(text, p + n);
      p := p + n;
      if i < 3 {
        if At(text, p) != '.' {
          return None;
        }
        assert text[p - n..][n + 1..] == text[p + 1..];
        p := p + 1;
      }
      i := i + 1;
    }
    NoMoreFields(text[p..]);
    assert parts + [] == parts;
    if p < |text| {
      return None;
    }
    return Some(parts);
  }

  /** Up to four hexadecimal digits from p. */
  method ReadGroup(text: CString, p: nat) returns (n: nat, v: nat)
    requires p <= |text|
    ensures n == HexRun(text[p..], 4) && v == Hex(text[p..][..n])
  {
    var s := text[p..];
    n, v := 0, 0;
    while n < |s| && IsHex(s[n]) && n < 4
      invariant n <= HexRun(s, 4)
      invariant v == Hex(s[..n])
    {
      assert s[..n + 1][..n] == s[..n];
      v := v * 16 + HexVal(s[n]);
      n := n + 1;
    }
  }

  /** The reading loop on its whole text: a dot anywhere makes all of it a dotted quad. */
  function Scanned(body: string, gap: int): Scan {
    if '.' !in body then Groups(body, [], gap)
    else if Quad(body).None? then Bad
    else Done(QuadGroups(Quad(body).value), gap)
  }

  lemma GroupStep(s: string, seen: seq<Group>, gap: int)
    requires s != ""
    ensures var n := HexRun(s, 4);
            Groups(s, seen, gap)
            == if n == 0 || |seen| >= 8 then Bad
               else
                 var now, t := seen + [Hex(s[..n])], s[n..];
                 if t == "" then Groups("", now, gap)
                 else if t[0] != ':' || |t| == 1 then Bad
                 else if t[1] != ':' then Groups(t[1..], now, gap)
                 else if gap >= 0 then Bad
                 else Groups(t[2..], now, |now|)
  {
    hide HexRun, Hex;
  }

  /** One group and the colons after it. */
  method TakeGroup(text: CString, start: nat, count: nat, gap0: int, groups: array<Group>) returns (ok: bool, p: nat, gap: int)
    requires start < |text| && count <= 8 && gap0 <= count && groups.Length == 8
    modifies groups
    ensures ok ==> count < 8 && gap <= count + 1 && start < p <= |text|
    ensures Groups(text[start..], old(groups[..count]), gap0)
            == if ok then Groups(text[p..], groups[..count + 1], gap) else Bad
  {
    hide Hex, HexRun, Groups;
    ghost var s, seen := text[start..], groups[..count];
    GroupStep(s, seen, gap0);
    var n, v := ReadGroup(text, start);
    ok, p, gap := false, start + n, gap0;
    if n == 0 || count >= 8 {
      return;
    }
    groups[count] := v;
    assert groups[..count + 1] == seen + [v];
    ghost var t := s[n..];
    assert t == text[p..];
    assert s[..n] == text[start..][..n];
    if At(text, p) == ':' {
      p := p + 1;
      assert t[1..] == text[p..];
      if At(text, p) == ':' {
        if gap >= 0 {
          return;
        }
        gap := count + 1;
        p := p + 1;
        assert t[2..] == text[p..];
      } else if p == |text| {
        return;
      }
    } else if p < |text| {
      return;
    }
    ok := true;
  }

  method ParseGroups(text: CString, start: nat, gap0: int, groups: array<Group>) returns (ok: bool, count: nat, gap: int)
    requires start <= |text| && gap0 <= 0 && groups.Length == 8
    modifies groups
    ensures count <= 8 && gap <= count
    ensures Scanned(text[start..], gap0) == if ok then Done(groups[..count], gap) else Bad
  {
    hide Hex, HexRun, Fields, Groups;
    ok, count, gap := true, 0, gap0;
    var p := start;
    ghost var body := text[start..];
    while p < |text|
      invariant start <= p <= |text| && count <= 8 && gap <= count && ok
      invariant '.' in body ==> p == start && count == 0 && gap == gap0
      invariant '.' !in body ==> Groups(body, [], gap0) == Groups(text[p..], groups[..count], gap)
      decreases |text| - p
    {
      assert text[p..] == body[p - start..];
      if '.' in text[p..] {
        var v4 := ParseIpv4(text, p);
        if count > 6 || v4.None? {
          return false, count, gap;
        }
        var q := QuadGroups(v4.value);
        groups[count] := q[0];
        count := count + 1;
        groups[count] := q[1];
        count := count + 1;
        assert groups[..count] == q;
        return;
      }
      ok, p, gap := TakeGroup(text, p, count, gap, groups);
      if !ok {
        return false, 0, 0;
      }
      count := count + 1;
    }
    assert text[p..] == "";
    EmptyScan(groups[..count], gap);
  }

  lemma ReadScanned(text: string, gap: int)
    requires gap == if StartsWith(text, "::") then 0 else -1
    requires text != "::"
    ensures var r := Scanned(if gap == 0 then text[2..] else text, gap);
            (r.Done? ==> r.gap <= |r.groups|) && Read(text) == Filled(r)
  {
    hide Groups, Fields;
    var body := if gap == 0 then text[2..] else text;
    GapInside(body, [], gap);
    assert gap == 0 ==> text == "::" + body;
    if '.' in body && Quad(body).Some? {
      var q := QuadGroups(Quad(body).value);
      assert q[..0] + ZeroGroups(6) + q[0..] == ZeroGroups(6) + q;
    }
  }

  /** Spreads the groups over the eight places and writes them out, most significant octet first. */
  method Spread(groups: array<Group>, count: nat, gap: int, out: array<Byte>)
    requires groups.Length == 8 && out.Length == 16
    requires count <= 8 && gap <= count && (if gap < 0 then count == 8 else count < 8)
    modifies out
    ensures Filled(Done(groups[..count], gap)).Some?
    ensures out[..] == Wire(Filled(Done(groups[..count], gap)).value)
  {
    hide Wire;
    var full := Places(groups, count, gap);
    for i := 0 to 8
      invariant full[..] == Filled(Done(groups[..count], gap)).value
      invariant forall k :: 0 <= k < 2 * i ==> out[k] == Wire(full[..])[k]
    {
      WireAt(full[..], i);
      out[i * 2] := full[i] / 256;
      out[i * 2 + 1] := full[i] % 256;
    }
  }

  method Places(groups: array<Group>, count: nat, gap: int) returns (full: array<Group>)
    requires groups.Length == 8
    requires count <= 8 && gap <= count && (if gap < 0 then count == 8 else count < 8)
    ensures fresh(full) && full.Length == 8
    ensures Filled(Done(groups[..count], gap)) == Some(full[..])
  {
    full := new Group[8];
    if gap < 0 {
      for i := 0 to 8
        invariant full[..i] == groups[..i]
      {
        full[i] := groups[i];
      }
      assert full[..] == groups[..8];
    } else {
      var tail := count - gap;
      for i := 0 to 8
        invariant forall k :: 0 <= k < i ==> full[k] == 0
      {
        full[i] := 0;
      }
      for i := 0 to gap
        invariant forall k :: 0 <= k < i ==> full[k] == groups[k]
        invariant forall k :: i <= k < 8 ==> full[k] == 0
      {
        full[i] := groups[i];
      }
      for i := 0 to tail
        invariant forall k :: 0 <= k < gap ==> full[k] == groups[k]
        invariant forall k :: gap <= k < 8 - tail ==> full[k] == 0
        invariant forall k :: 8 - tail <= k < 8 - tail + i ==> full[k] == groups[gap + k - (8 - tail)]
      {
        full[8 - tail + i] := groups[gap + i];
      }
      SpreadIs(full[..], groups[..count], gap);
    }
  }

  lemma SpreadIs(full: seq<Group>, groups: seq<Group>, gap: nat)
    requires |full| == 8 && gap <= |groups| < 8
    requires forall k :: 0 <= k < gap ==> full[k] == groups[k]
    requires forall k :: gap <= k < 8 - (|groups| - gap) ==> full[k] == 0
    requires forall k :: 8 - (|groups| - gap) <= k < 8 ==> full[k] == groups[gap + k - (8 - (|groups| - gap))]
    ensures Filled(Done(groups, gap)) == Some(full)
  {
    var tail := |groups| - gap;
    assert full[..gap] == groups[..gap];
    assert full[gap..8 - tail] == ZeroGroups(8 - |groups|);
    assert full[8 - tail..] == groups[gap..];
    assert full == full[..gap] + full[gap..8 - tail] + full[8 - tail..];
  }

  /** The sixteen octets of two colons and a dotted quad: twelve zeros and the four numbers in order. */
  lemma DottedOctets(text: string, fs: seq<string>)
    requires IsOpenQuad(text, fs)
    ensures Read(text).Some?
    ensures Wire(Read(text).value)
         == Zeros(12) + [Number(fs[0]) % TWO64, Number(fs[1]) % TWO64, Number(fs[2]) % TWO64, Number(fs[3]) % TWO64]
  {
    hide Read, Dots, Number, IsOpenQuad, Octets, QuadGroups, Wire;
    QuadHasDot(text, fs);
    var q := Octets(fs);
    var a := ZeroGroups(6) + QuadGroups(q);
    DottedIff(text, a);
    assert IsOpenQuad(text, fs) && a == ZeroGroups(6) + QuadGroups(Octets(fs));
    QuadWire(q);
    OctetsInOrder(fs);
  }

  lemma QuadHasDot(text: string, fs: seq<string>)
    requires IsOpenQuad(text, fs)
    ensures '.' in text && |fs| == 4 && AllFields(fs)
  {
    DotsHasDot(fs);
  }

  lemma QuadWire(q: seq<Byte>)
    requires |q| == 4
    ensures Wire(ZeroGroups(6) + QuadGroups(q)) == Zeros(12) + q
  {
    hide Wire;
    var a := ZeroGroups(6) + QuadGroups(q);
    var w := Wire(a);
    forall k | 0 <= k < 8 ensures w[2 * k] == a[k] / 256 && w[2 * k + 1] == a[k] % 256 { WireAt(a, k); }
    forall i | 0 <= i < 16 ensures w[i] == (Zeros(12) + q)[i] {
      var k := i / 2;
      assert w[2 * k] == a[k] / 256 && w[2 * k + 1] == a[k] % 256;
    }
  }

  lemma OctetsInOrder(fs: seq<string>)
    requires |fs| == 4 && AllFields(fs)
    ensures Octets(fs) == [Number(fs[0]) % TWO64, Number(fs[1]) % TWO64, Number(fs[2]) % TWO64, Number(fs[3]) % TWO64]
  {
    hide Number, Decimal;
    var b, c, d := fs[1..], fs[2..], fs[3..];
    assert b[1..] == c && c[1..] == d && d[1..] == [];
    assert Octets(d) == [Octet(fs[3])] && Octets(c) == [Octet(fs[2])] + Octets(d) && Octets(b) == [Octet(fs[1])] + Octets(c);
    forall i | 0 <= i < 4 ensures Octet(fs[i]) == Number(fs[i]) % TWO64 { DecimalIsNumber(fs[i]); }
  }

  /** Accepts exactly what the reference reading accepts; a refused text leaves the output zero. */
  method ParseIpv6(text: CString, out: array<Byte>) returns (ok: bool)
    requires out.Length == 16
    modifies out
    ensures ok == Read(text).Some?
    ensures out[..] == if ok then Wire(Read(text).value) else Zeros(16)
  {
    hide Hex, HexRun, Wire, Fields, Groups;
    for i := 0 to 16
      invariant forall k :: 0 <= k < i ==> out[k] == 0
    {
      out[i] := 0;
    }
    assert out[..] == Zeros(16);
    var groups := new Group[8];
    var count, gap, p := 0, -1, 0;
    if At(text, 0) == ':' && At(text, 1) == ':' {
      assert text[..2] == "::";
      gap, p := 0, 2;
      if |text| == 2 {
        WireZero(8);
        return true;
      }
    }
    assert text[0..] == text;
    ReadScanned(text, gap);
    ok, count, gap := ParseGroups(text, p, gap, groups);
    if !ok || (gap < 0 && count != 8) || (gap >= 0 && count >= 8) {
      return false;
    }
    Spread(groups, count, gap, out);
  }
}
