/** IPv6 text: what an address looks like written out, and what the parser of netfast computes. */
module Ipv6Text {
  import opened Options
  import opened Bytes
  import opened CText

  type Group = v: int | 0 <= v < 65536

  predicate IsHex(c: char) { '0' <= c <= '9' || 'a' <= c <= 'f' || 'A' <= c <= 'F' }

  function HexVal(c: char): (v: nat)
    requires IsHex(c)
    ensures v < 16
  {
    if '0' <= c <= '9' then c as int - '0' as int
    else if 'a' <= c <= 'f' then c as int - 'a' as int + 10
    else c as int - 'A' as int + 10
  }

  /** The sixteen digits in order, in either case. */
  lemma HexDigits(d: nat, c: char)
    requires d < 16
    ensures var low, up := "0123456789abcdef"[d], "0123456789ABCDEF"[d]; IsHex(low) && IsHex(up) && HexVal(low) == HexVal(up) == d
    ensures IsHex(c) ==> c in "0123456789abcdef" || c in "0123456789ABCDEF"
  {
    if IsHex(c) {
      var v := HexVal(c);
      assert c == "0123456789abcdef"[v] || c == "0123456789ABCDEF"[v];
    }
  }

  predicate AllHex(s: string) { forall i :: 0 <= i < |s| ==> IsHex(s[i]) }

  /** One to four hexadecimal digits. */
  predicate IsGroup(s: string) { 1 <= |s| <= 4 && AllHex(s) }

  function Hex(s: string): (v: nat)
    requires AllHex(s)
    ensures |s| <= 4 ==> v < 65536 && (|s| <= 3 ==> v < 4096) && (|s| <= 2 ==> v < 256) && (|s| <= 1 ==> v < 16) && (|s| <= 0 ==> v == 0)
  {
    if s == "" then 0 else Hex(s[..|s| - 1]) * 16 + HexVal(s[|s| - 1])
  }

  predicate AllGroups(gs: seq<string>) { forall i :: 0 <= i < |gs| ==> IsGroup(gs[i]) }

  function Values(gs: seq<string>): (vs: seq<Group>)
    requires AllGroups(gs)
    ensures |vs| == |gs|
  {
    if gs == [] then [] else [Hex(gs[0])] + Values(gs[1..])
  }

  /** Groups with a colon between neighbours. */
  function Colons(gs: seq<string>): string {
    if gs == [] then "" else if |gs| == 1 then gs[0] else gs[0] + ":" + Colons(gs[1..])
  }

  function ZeroGroups(n: nat): (zs: seq<Group>)
    ensures |zs| == n && forall i :: 0 <= i < n ==> zs[i] == 0
  {
    seq(n, i => 0)
  }

  /** Eight groups in full. */
  ghost predicate Full(text: string, gs: seq<string>, a: seq<Group>) {
    AllGroups(gs) && |gs| == 8 && text == Colons(gs) && a == Values(gs)
  }

  /** At most seven groups with one `::` standing for the missing ones. */
  ghost predicate Compressed(text: string, l: seq<string>, r: seq<string>, a: seq<Group>) {
    && AllGroups(l) && AllGroups(r) && |l| + |r| <= 7
    && text == Colons(l) + "::" + Colons(r)
    && a == Values(l) + ZeroGroups(8 - |l| - |r|) + Values(r)
  }

  /** The text forms 1 and 2 of section 2.2 of RFC 4291. */
  ghost predicate Denotes(text: string, a: seq<Group>) {
    || (exists gs :: Full(text, gs, a))
    || (exists l, r :: Compressed(text, l, r, a))
  }

  // What the parser computes

  function HexRun(s: string, limit: nat): (n: nat)
    ensures n <= limit && n <= |s| && AllHex(s[..n])
    ensures n < limit && n < |s| ==> !IsHex(s[n])
  {
    if limit == 0 || s == "" || !IsHex(s[0]) then 0
    else
      var n := 1 + HexRun(s[1..], limit - 1);
      assert forall i :: 1 <= i < n ==> s[i] == s[1..][i - 1];
      n
  }

  datatype Scan = Bad | Done(groups: seq<Group>, gap: int)

  function Groups(s: string, seen: seq<Group>, gap: int): (r: Scan)
    decreases |s|
  {
    if s == "" then Done(seen, gap)
    else
      var n := HexRun(s, 4);
      if n == 0 || |seen| >= 8 then Bad
      else
        var now, t := seen + [Hex(s[..n])], s[n..];
        if t == "" then Done(now, gap)
        else if t[0] != ':' || |t| == 1 then Bad
        else if t[1] != ':' then Groups(t[1..], now, gap)
        else if gap >= 0 then Bad
        else Groups(t[2..], now, |now|)
  }

  function Filled(r: Scan): (a: Option<seq<Group>>)
    requires r.Done? ==> r.gap <= |r.groups|
  {
    if r.Bad? then None
    else if r.gap < 0 then if |r.groups| == 8 then Some(r.groups) else None
    else if |r.groups| >= 8 then None
    else Some(r.groups[..r.gap] + ZeroGroups(8 - |r.groups|) + r.groups[r.gap..])
  }

  lemma GapInside(s: string, seen: seq<Group>, gap: int)
    requires gap <= |seen| <= 8
    ensures var r := Groups(s, seen, gap); r.Done? ==> r.gap <= |r.groups| <= 8
    decreases |s|
  {
  }

  /** The whole parser on text without a dot; with a dot only `::` and a dotted quad can get through. */
  function Read(text: string): (a: Option<seq<Group>>) {
    var open := StartsWith(text, "::");
    var body := if open then text[2..] else text;
    if open && body == "" then Some(ZeroGroups(8))
    else if '.' in body then
      if open && Quad(body).Some? then Some(ZeroGroups(6) + QuadGroups(Quad(body).value)) else None
    else
      GapInside(body, [], if open then 0 else -1);
      Filled(Groups(body, [], if open then 0 else -1))
  }

  // Dotted quads

  predicate IsDigit(c: char) { '0' <= c <= '9' }

  predicate AllDigits(s: string) { forall i :: 0 <= i < |s| ==> IsDigit(s[i]) }

  const TWO64: nat := 0x1_0000_0000_0000_0000

  /** The 64-bit accumulator of the decimal reader wraps. */
  function Decimal(s: string): (v: nat)
    requires AllDigits(s)
    ensures v < TWO64
  {
    if s == "" then 0 else (Decimal(s[..|s| - 1]) * 10 + (s[|s| - 1] as int - '0' as int)) % TWO64
  }

  function DigitRun(s: string): (n: nat)
    ensures n <= |s| && AllDigits(s[..n]) && (n < |s| ==> !IsDigit(s[n]))
  {
    if s == "" || !IsDigit(s[0]) then 0
    else
      var n := 1 + DigitRun(s[1..]);
      assert forall i :: 1 <= i < n ==> s[i] == s[1..][i - 1];
      n
  }

  /** `n` decimal fields separated by dots, nothing after the last. */
  function Fields(s: string, n: nat): (r: Option<seq<Byte>>)
    ensures r.Some? ==> |r.value| == n
  {
    if n == 0 then if s == "" then Some([]) else None
    else
      var d := DigitRun(s);
      if d == 0 || Decimal(s[..d]) > 255 then None
      else
        var t := s[d..];
        if n > 1 && (t == "" || t[0] != '.') then None
        else
          var rest := Fields(if n > 1 then t[1..] else t, n - 1);
          if rest.None? then None else Some([Decimal(s[..d]) as Byte] + rest.value)
  }

  function Quad(s: string): (r: Option<seq<Byte>>)
    ensures r.Some? ==> |r.value| == 4
  {
    Fields(s, 4)
  }

  function QuadGroups(q: seq<Byte>): (gs: seq<Group>)
    requires |q| == 4
  {
    var hi: Group := (q[0] as int) * 256 + q[1] as int;
    var lo: Group := (q[2] as int) * 256 + q[3] as int;
    [hi, lo]
  }

  // Reading a group

  lemma {:induction false} HexRunIs(g: string, rest: string, limit: nat)
    requires AllHex(g) && |g| <= limit && (rest == "" || !IsHex(rest[0]))
    ensures HexRun(g + rest, limit) == |g|
  {
    if g == "" {
      assert g + rest == rest;
    } else {
      HexRunIs(g[1..], rest, limit - 1);
      assert (g + rest)[1..] == g[1..] + rest;
    }
  }

  lemma ColonsStep(g: string, gs: seq<string>)
    ensures Colons([g] + gs) == g + (if gs == [] then "" else ":" + Colons(gs))
  {
    assert ([g] + gs)[1..] == gs;
  }

  lemma ValuesStep(g: string, gs: seq<string>)
    requires IsGroup(g) && AllGroups(gs)
    ensures AllGroups([g] + gs) && Values([g] + gs) == [Hex(g)] + Values(gs)
  {
    assert ([g] + gs)[1..] == gs;
  }

  /** Written groups begin with a digit. */
  lemma ColonsBegin(gs: seq<string>)
    requires AllGroups(gs) && gs != []
    ensures Colons(gs) != "" && IsHex(Colons(gs)[0])
  {
    assert IsGroup(gs[0]);
    assert gs == [gs[0]] + gs[1..];
    ColonsStep(gs[0], gs[1..]);
  }

  // Whatever is accepted is written in one of the two forms

  /** The first group of a scan that succeeds, and where the scan goes on. */
  lemma ScanStep(s: string, seen: seq<Group>, gap: int)
    requires s != "" && Groups(s, seen, gap).Done?
    ensures var n := HexRun(s, 4);
            && IsGroup(s[..n])
            && var now, t := seen + [Hex(s[..n])], s[n..];
            && s == s[..n] + t
            && (t != "" ==> |t| > 1 && t[0] == ':')
            && Groups(s, seen, gap)
               == (if t == "" then Done(now, gap) else if t[1] != ':' then Groups(t[1..], now, gap) else Groups(t[2..], now, |now|))
            && (t != "" && t[1] == ':' ==> gap < 0)
  {
    hide HexRun, Hex;
  }

  lemma {:induction false} GroupsRead(s: string, seen: seq<Group>, gap: nat) returns (gs: seq<string>)
    requires Groups(s, seen, gap).Done?
    ensures AllGroups(gs) && s == Colons(gs) && Groups(s, seen, gap) == Done(seen + Values(gs), gap)
    decreases |s|
  {
    hide HexRun, Hex, Groups;
    if s == "" {
      gs := [];
      EmptyScan(seen, gap);
      assert seen + Values(gs) == seen;
    } else {
      ScanStep(s, seen, gap);
      var n := HexRun(s, 4);
      var g, t := s[..n], s[n..];
      var now := seen + [Hex(g)];
      var rest := [];
      if t != "" {
        rest := GroupsRead(t[1..], now, gap);
        assert rest != [];
        assert t == ":" + Colons(rest);
      }
      gs := [g] + rest;
      ColonsStep(g, rest);
      ValuesStep(g, rest);
      assert now + Values(rest) == seen + Values(gs);
    }
  }

  lemma EmptyScan(seen: seq<Group>, gap: int)
    ensures Groups("", seen, gap) == Done(seen, gap)
  {}

  /** A scan that began without a gap read the groups l, and the groups r after a gap if there was one. */
  ghost predicate Shape(s: string, seen: seq<Group>, d: Scan, l: seq<string>, r: seq<string>) {
    && AllGroups(l) && AllGroups(r) && l != []
    && ((d == Done(seen + Values(l), -1) && r == [] && s == Colons(l))
        || (d == Done(seen + Values(l) + Values(r), |seen| + |l|) && s == Colons(l) + "::" + Colons(r)))
  }

  lemma ShapeLast(g: string, seen: seq<Group>)
    requires IsGroup(g)
    ensures Shape(g, seen, Done(seen + [Hex(g)], -1), [g], [])
  {
    hide Hex;
    assert Values([g]) == [Hex(g)];
  }

  lemma ShapeGap(g: string, seen: seq<Group>, r: seq<string>)
    requires IsGroup(g) && AllGroups(r)
    ensures Shape(g + "::" + Colons(r), seen, Done(seen + [Hex(g)] + Values(r), |seen| + 1), [g], r)
  {
    hide Hex;
    assert Values([g]) == [Hex(g)];
    assert Colons([g]) == g;
  }

  lemma ShapeMore(g: string, s: string, seen: seq<Group>, d: Scan, l: seq<string>, r: seq<string>)
    requires IsGroup(g) && Shape(s, seen + [Hex(g)], d, l, r)
    ensures Shape(g + (":" + s), seen, d, [g] + l, r)
  {
    hide Hex, Colons, Values, IsHex;
    ColonsStep(g, l);
    ValuesStep(g, l);
    assert seen + [Hex(g)] + Values(l) == seen + Values([g] + l);
    assert s == Colons(l) + "::" + Colons(r) ==> g + (":" + s) == g + (":" + Colons(l)) + "::" + Colons(r);
  }

  lemma {:induction false} GapRead(s: string, seen: seq<Group>) returns (l: seq<string>, r: seq<string>)
    requires s != "" && Groups(s, seen, -1).Done?
    ensures Shape(s, seen, Groups(s, seen, -1), l, r)
    decreases |s|
  {
    hide HexRun, Hex, Groups, Shape, Colons, Values, IsHex;
    ScanStep(s, seen, -1);
    var n := HexRun(s, 4);
    var g, t := s[..n], s[n..];
    if t == "" {
      assert s == g;
      ShapeLast(g, seen);
      l, r := [g], [];
    } else if t[1] != ':' {
      l, r := GapRead(t[1..], seen + [Hex(g)]);
      assert s == g + (":" + t[1..]);
      ShapeMore(g, t[1..], seen, Groups(s, seen, -1), l, r);
      l := [g] + l;
    } else {
      r := GroupsRead(t[2..], seen + [Hex(g)], |seen| + 1);
      assert s == g + "::" + Colons(r);
      ShapeGap(g, seen, r);
      l := [g];
    }
  }

  lemma FilledFront(gs: seq<Group>)
    ensures Filled(Done(gs, 0)) == if |gs| >= 8 then None else Some(ZeroGroups(8 - |gs|) + gs)
  {
    if |gs| < 8 {
      assert gs[..0] + ZeroGroups(8 - |gs|) + gs[0..] == ZeroGroups(8 - |gs|) + gs;
    }
  }

  lemma OpenReads(body: string)
    requires '.' !in body
    ensures var d := Groups(body, [], 0);
            && (d.Done? ==> d.gap <= |d.groups|)
            && Read("::" + body) == if body == "" then Some(ZeroGroups(8)) else Filled(d)
  {
    hide Groups, Fields, Filled;
    GapInside(body, [], 0);
    var text := "::" + body;
    assert text[..2] == "::" && text[2..] == body;
  }

  /** What is read after two leading colons. */
  lemma OpenRead(body: string)
    requires '.' !in body && Read("::" + body).Some?
    ensures Read("::" + body).value
            == if body == "" then ZeroGroups(8) else ZeroGroups(8 - |Groups(body, [], 0).groups|) + Groups(body, [], 0).groups
    ensures body != "" ==> Groups(body, [], 0).Done? && Groups(body, [], 0).gap == 0 && |Groups(body, [], 0).groups| < 8
  {
    hide Groups, Read, Colons, Values;
    OpenReads(body);
    if body != "" {
      var r := GroupsRead(body, [], 0);
      FilledFront(Groups(body, [], 0).groups);
    }
  }

  lemma OpenDenotes(text: string)
    requires '.' !in text && StartsWith(text, "::") && Read(text).Some?
    ensures Denotes(text, Read(text).value)
  {
    hide Read, Groups, Colons, Hex, IsGroup;
    var body := text[2..];
    assert text == "::" + body;
    OpenRead(body);
    NoGroups();
    var r: seq<string> := [];
    if body != "" {
      r := GroupsRead(body, [], 0);
      assert [] + Values(r) == Values(r);
    }
    assert Read(text).value == [] + ZeroGroups(8 - |r|) + Values(r);
    assert text == "" + "::" + Colons(r);
    assert Compressed(text, [], r, Read(text).value);
  }

  lemma ClosedDenotes(text: string)
    requires '.' !in text && !StartsWith(text, "::") && Read(text).Some?
    ensures Denotes(text, Read(text).value)
  {
    hide Groups, Colons, HexRun, IsGroup;
    var a := Read(text).value;
    EmptyScan([], -1);
    var l, r := GapRead(text, []);
    assert [] + Values(l) == Values(l);
    var d := Groups(text, [], -1);
    if d.gap < 0 {
      assert Full(text, l, a);
    } else {
      assert d.groups[..|l|] == Values(l) && d.groups[|l|..] == Values(r);
      assert Compressed(text, l, r, a);
    }
  }

  /** Every accepted text without a dot is an address in one of the two forms, and the value is the one it denotes. */
  lemma AcceptedDenotes(text: string)
    requires '.' !in text && Read(text).Some?
    ensures Denotes(text, Read(text).value)
  {
    hide Read, Denotes, StartsWith;
    if StartsWith(text, "::") {
      OpenDenotes(text);
    } else {
      ClosedDenotes(text);
    }
  }

  lemma NoGroups()
    ensures Colons([]) == "" && Values([]) == []
  {}

  // Whatever is written in one of the two forms is accepted

  /** A group followed by the end of the text or a colon. */
  lemma ReadsGroup(g: string, t: string, seen: seq<Group>, gap: int)
    requires IsGroup(g) && |seen| < 8 && (t != "" ==> |t| > 1 && t[0] == ':') && (|t| > 1 && t[1] == ':' ==> gap < 0)
    ensures var now := seen + [Hex(g)];
            Groups(g + t, seen, gap)
            == (if t == "" then Done(now, gap) else if t[1] != ':' then Groups(t[1..], now, gap) else Groups(t[2..], now, |now|))
  {
    hide Hex, HexRun;
    HexRunIs(g, t, 4);
    assert (g + t)[..|g|] == g && (g + t)[|g|..] == t;
  }

  lemma {:induction false} ReadsGroups(gs: seq<string>, seen: seq<Group>, gap: int)
    requires AllGroups(gs) && |seen| + |gs| <= 8
    ensures Groups(Colons(gs), seen, gap) == Done(seen + Values(gs), gap)
  {
    hide Hex, Groups, Colons, Values, IsHex;
    NoGroups();
    if gs == [] {
      EmptyScan(seen, gap);
      assert seen + [] == seen;
    } else {
      var g, more := gs[0], gs[1..];
      assert gs == [g] + more;
      ColonsStep(g, more);
      ValuesStep(g, more);
      var t := if more == [] then "" else ":" + Colons(more);
      if more != [] {
        ColonsBegin(more);
        assert t[1..] == Colons(more);
      }
      ReadsGroup(g, t, seen, gap);
      ReadsGroups(more, seen + [Hex(g)], gap);
      assert seen + [Hex(g)] + Values(more) == seen + Values(gs);
    }
  }

  lemma {:induction false} ReadsGap(l: seq<string>, r: seq<string>, seen: seq<Group>)
    requires AllGroups(l) && AllGroups(r) && l != [] && |seen| + |l| + |r| <= 8
    ensures Groups(Colons(l) + "::" + Colons(r), seen, -1) == Done(seen + Values(l) + Values(r), |seen| + |l|)
  {
    hide Hex, Groups, Colons, Values, IsHex;
    var g, more := l[0], l[1..];
    assert l == [g] + more;
    ColonsStep(g, more);
    ValuesStep(g, more);
    if more == [] {
      NoGroups();
      var t := "::" + Colons(r);
      assert t[2..] == Colons(r) && Colons(l) + "::" + Colons(r) == g + t;
      ReadsGroup(g, t, seen, -1);
      ReadsGroups(r, seen + [Hex(g)], |seen| + 1);
      assert seen + [Hex(g)] == seen + Values(l);
    } else {
      var u := Colons(more) + "::" + Colons(r);
      ColonsBegin(more);
      var t := ":" + u;
      assert t[1..] == u && Colons(l) + "::" + Colons(r) == g + t;
      ReadsGroup(g, t, seen, -1);
      ReadsGap(more, r, seen + [Hex(g)]);
      assert seen + [Hex(g)] + Values(more) == seen + Values(l);
    }
  }

  lemma DenotedAccepted(text: string, a: seq<Group>)
    requires Denotes(text, a)
    ensures Read(text) == Some(a)
  {
    hide Groups, Colons, Values, HexRun, IsHex;
    NoGroups();
    if gs :| Full(text, gs, a) {
      ColonsBegin(gs);
      DotFree(gs);
      ReadsGroups(gs, [], -1);
      assert [] + Values(gs) == Values(gs);
      NotOpen(text);
    } else {
      var l, r :| Compressed(text, l, r, a);
      DotFree(l);
      DotFree(r);
      if l == [] {
        assert text == "::" + Colons(r) && text[2..] == Colons(r);
        ReadsGroups(r, [], 0);
        assert [] + Values(r) == Values(r);
        assert Values(l) + ZeroGroups(8) + [] == ZeroGroups(8);
        if r != [] {
          ColonsBegin(r);
        }
      } else {
        ColonsBegin(l);
        ReadsGap(l, r, []);
        assert [] + Values(l) == Values(l);
        var d := Values(l) + Values(r);
        assert d[..|l|] == Values(l) && d[|l|..] == Values(r);
        NotOpen(text);
      }
    }
  }

  lemma NotOpen(text: string)
    requires text != "" && IsHex(text[0])
    ensures !StartsWith(text, "::")
  {
    if StartsWith(text, "::") {
      OpenBegins(text);
    }
  }

  lemma OpenBegins(text: string)
    requires StartsWith(text, "::")
    ensures text != "" && text[0] == ':'
  {
    assert text[..2][0] == ':';
  }

  lemma {:induction false} DotFree(gs: seq<string>)
    requires AllGroups(gs)
    ensures '.' !in Colons(gs)
  {
    if gs != [] {
      assert IsGroup(gs[0]);
      assert gs == [gs[0]] + gs[1..];
      ColonsStep(gs[0], gs[1..]);
      DotFree(gs[1..]);
    }
  }

  /** On text without a dot the parser accepts exactly the two forms, with the value they denote. */
  lemma ReadIffDenotes(text: string, a: seq<Group>)
    requires '.' !in text
    ensures Read(text) == Some(a) <==> Denotes(text, a)
  {
    if Read(text) == Some(a) {
      AcceptedDenotes(text);
    }
    if Denotes(text, a) {
      DenotedAccepted(text, a);
    }
  }

  // Printing with one run of zeros compressed

  function HexDigit(d: nat): (c: char)
    requires d < 16
    ensures IsHex(c) && HexVal(c) == d
  {
    if d < 10 then '0' + d as char else 'a' + (d - 10) as char
  }

  /** Shortest lower-case spelling of a group. */
  function Spell(v: nat): (s: string)
    ensures s != "" && AllHex(s) && Hex(s) == v
    ensures (v < 16 ==> |s| <= 1) && (v < 256 ==> |s| <= 2) && (v < 4096 ==> |s| <= 3) && (v < 65536 ==> |s| <= 4)
  {
    if v < 16 then
      assert [HexDigit(v)][..0] == "";
      [HexDigit(v)]
    else
      var s := Spell(v / 16) + [HexDigit(v % 16)];
      assert s[..|s| - 1] == Spell(v / 16);
      s
  }

  function Spellings(a: seq<Group>): (gs: seq<string>)
    ensures |gs| == |a| && AllGroups(gs)
  {
    seq(|a|, i requires 0 <= i < |a| => Spell(a[i]))
  }

  lemma {:induction false} SpellingsRead(a: seq<Group>)
    ensures Values(Spellings(a)) == a
  {
    hide Hex, Spell, IsHex;
    if a != [] {
      SpellingsRead(a[1..]);
      assert Spellings(a)[1..] == Spellings(a[1..]);
      assert a == [a[0]] + a[1..];
    }
  }

  /** Any spelling of an address with one run of zeros (of any length) written as `::` parses back to it. */
  lemma CompressedParsesBack(a: seq<Group>, i: nat, j: nat, l: seq<string>, r: seq<string>)
    requires |a| == 8 && i < j <= 8 && (forall k :: i <= k < j ==> a[k] == 0)
    requires AllGroups(l) && Values(l) == a[..i] && AllGroups(r) && Values(r) == a[j..]
    ensures Read(Colons(l) + "::" + Colons(r)) == Some(a)
  {
    hide Colons, Values, Read;
    assert a == a[..i] + ZeroGroups(j - i) + a[j..];
    var text := Colons(l) + "::" + Colons(r);
    assert Compressed(text, l, r, a);
    DenotedAccepted(text, a);
  }

  /** Such a spelling exists for every run: the printed address parses back. */
  lemma PrintedParsesBack(a: seq<Group>, i: nat, j: nat)
    requires |a| == 8 && i <= j <= 8 && (forall k :: i <= k < j ==> a[k] == 0)
    ensures var text := if i == j then Colons(Spellings(a)) else Colons(Spellings(a[..i])) + "::" + Colons(Spellings(a[j..]));
            Read(text) == Some(a)
  {
    hide Colons, Values, Read, Spellings;
    if i == j {
      SpellingsRead(a);
      assert Full(Colons(Spellings(a)), Spellings(a), a);
      DenotedAccepted(Colons(Spellings(a)), a);
    } else {
      SpellingsRead(a[..i]);
      SpellingsRead(a[j..]);
      CompressedParsesBack(a, i, j, Spellings(a[..i]), Spellings(a[j..]));
    }
  }

  // Dotted quads: the fields, and which mixed texts get through

  /** The number a string of digits stands for. */
  function Number(s: string): (v: nat)
    requires AllDigits(s)
  {
    if s == "" then 0 else Number(s[..|s| - 1]) * 10 + (s[|s| - 1] as int - '0' as int)
  }

  lemma WrapStep(x: nat, d: nat)
    ensures (x % TWO64 * 10 + d) % TWO64 == (x * 10 + d) % TWO64
  {
    var q, r := x / TWO64, x % TWO64;
    var y := r * 10 + d;
    assert x == q * TWO64 + r;
    assert x * 10 + d == (q * 10 + y / TWO64) * TWO64 + y % TWO64;
    DivModUnique(x * 10 + d, TWO64, q * 10 + y / TWO64, y % TWO64);
  }

  /** The reader's value is the number modulo 2^64. */
  lemma {:induction false} DecimalIsNumber(s: string)
    requires AllDigits(s)
    ensures Decimal(s) == Number(s) % TWO64
  {
    if s != "" {
      var t := s[..|s| - 1];
      DecimalIsNumber(t);
      WrapStep(Number(t), s[|s| - 1] as int - '0' as int);
    }
  }

  /** A field is accepted exactly when its number modulo 2^64 is at most 255. */
  lemma FieldIff(s: string)
    ensures IsField(s) <==> s != "" && AllDigits(s) && Number(s) % TWO64 <= 255
  {
    hide Decimal, Number, AllDigits;
    if AllDigits(s) {
      DecimalIsNumber(s);
    }
  }

  function Digit(c: char): (d: int) { c as int - '0' as int }

  lemma NumberSnoc(s: string, c: char)
    requires AllDigits(s) && IsDigit(c)
    ensures AllDigits(s + [c]) && Number(s + [c]) == Number(s) * 10 + Digit(c)
  {
    assert (s + [c])[..|s|] == s;
  }

  lemma NumberFive(s: string, a: char, b: char, c: char, d: char, e: char)
    requires AllDigits(s) && AllDigits([a, b, c, d, e])
    ensures var t := s + [a, b, c, d, e];
            AllDigits(t) && Number(t) == Number(s) * 100000 + Digit(a) * 10000 + Digit(b) * 1000 + Digit(c) * 100 + Digit(d) * 10 + Digit(e)
  {
    hide Number;
    var all := [a, b, c, d, e];
    assert IsDigit(all[0]) && IsDigit(all[1]) && IsDigit(all[2]) && IsDigit(all[3]) && IsDigit(all[4]);
    NumberSnoc(s, a);
    NumberSnoc(s + [a], b);
    NumberSnoc(s + [a] + [b], c);
    NumberSnoc(s + [a] + [b] + [c], d);
    NumberSnoc(s + [a] + [b] + [c] + [d], e);
    assert s + [a] + [b] + [c] + [d] + [e] == s + all;
  }

  /** So 2^64, written out, is accepted as the field 0. */
  lemma OverlongField()
    ensures var f := "18446" + "74407" + "37095" + "51616";
            AllDigits(f) && Number(f) == TWO64 && IsField(f) && Octet(f) == 0
  {
    hide Number, Decimal;
    assert Number("") == 0 by { NoNumber(); }
    NumberFive("", '1', '8', '4', '4', '6');
    assert "" + "18446" == "18446";
    NumberFive("18446", '7', '4', '4', '0', '7');
    NumberFive("18446" + "74407", '3', '7', '0', '9', '5');
    NumberFive("18446" + "74407" + "37095", '5', '1', '6', '1', '6');
    DecimalIsNumber("18446" + "74407" + "37095" + "51616");
  }

  lemma NoNumber()
    ensures Number("") == 0
  {}

  predicate IsField(s: string) { s != "" && AllDigits(s) && Decimal(s) <= 255 }

  predicate AllFields(fs: seq<string>) { forall i :: 0 <= i < |fs| ==> IsField(fs[i]) }

  function Dots(fs: seq<string>): string {
    if fs == [] then "" else if |fs| == 1 then fs[0] else fs[0] + "." + Dots(fs[1..])
  }

  function Octet(f: string): Byte
    requires IsField(f)
  {
    Decimal(f)
  }

  function Octets(fs: seq<string>): (bs: seq<Byte>)
    requires AllFields(fs)
    ensures |bs| == |fs|
  {
    if fs == [] then [] else [Octet(fs[0])] + Octets(fs[1..])
  }

  lemma {:induction false} DigitRunIs(g: string, rest: string)
    requires AllDigits(g) && (rest == "" || !IsDigit(rest[0]))
    ensures DigitRun(g + rest) == |g|
  {
    if g == "" {
      assert g + rest == rest;
    } else {
      DigitRunIs(g[1..], rest);
      assert (g + rest)[1..] == g[1..] + rest;
    }
  }

  lemma FieldStep(f: string, t: string, n: nat)
    requires IsField(f) && n > 0 && (if n > 1 then t != "" && t[0] == '.' else t == "")
    ensures var rest := Fields(if n > 1 then t[1..] else "", n - 1);
            Fields(f + t, n) == if rest.None? then None else Some([Octet(f)] + rest.value)
  {
    hide DigitRun, Decimal;
    DigitRunIs(f, t);
    assert (f + t)[..|f|] == f && (f + t)[|f|..] == t;
  }

  lemma DotsStep(f: string, fs: seq<string>)
    requires IsField(f) && AllFields(fs)
    ensures Dots([f] + fs) == f + (if fs == [] then "" else "." + Dots(fs))
    ensures AllFields([f] + fs) && Octets([f] + fs) == [Octet(f)] + Octets(fs)
  {
    hide IsField, Decimal, Octet;
    assert ([f] + fs)[1..] == fs;
  }

  lemma {:induction false} FieldsRead(fs: seq<string>)
    requires AllFields(fs)
    ensures Fields(Dots(fs), |fs|) == Some(Octets(fs))
  {
    hide Decimal, AllDigits, Fields, Dots, Octets;
    if fs == [] {
      NoFields();
    } else {
      var f, more := fs[0], fs[1..];
      assert IsField(f) && fs == [f] + more;
      var t := if more == [] then "" else "." + Dots(more);
      DotsStep(f, more);
      FieldStep(f, t, |fs|);
      FieldsRead(more);
      NoFields();
      assert more != [] ==> t[1..] == Dots(more);
    }
  }

  lemma NoFields()
    ensures Fields("", 0) == Some([]) && Dots([]) == "" && Octets([]) == []
  {}

  lemma NoMoreFields(s: string)
    ensures Fields(s, 0) == if s == "" then Some([]) else None
  {}

  /** The first field of a text that holds n of them, and the text after it. */
  lemma FirstField(s: string, n: nat) returns (f: string, t: string)
    requires n > 0 && Fields(s, n).Some?
    ensures IsField(f) && s == f + (if n > 1 then "." + t else "")
    ensures n == 1 ==> t == ""
    ensures Fields(t, n - 1).Some? && Fields(s, n).value == [Octet(f)] + Fields(t, n - 1).value
  {
    hide DigitRun, Decimal;
    var d := DigitRun(s);
    f := s[..d];
    t := if n > 1 then s[d..][1..] else s[d..];
    assert s == f + s[d..];
  }

  lemma {:induction false} FieldsAre(s: string, n: nat) returns (fs: seq<string>)
    requires Fields(s, n).Some?
    ensures |fs| == n && AllFields(fs) && s == Dots(fs) && Fields(s, n).value == Octets(fs)
    decreases n
  {
    hide IsField, Dots, Octets, Octet, Fields;
    NoFields();
    if n == 0 {
      NoMoreFields(s);
      fs := [];
    } else {
      var f, t := FirstField(s, n);
      var more := FieldsAre(t, n - 1);
      fs := [f] + more;
      DotsStep(f, more);
    }
  }

  lemma {:induction false} OctetsAre(fs: seq<string>, i: nat)
    requires AllFields(fs) && i < |fs|
    ensures AllDigits(fs[i]) && Octets(fs)[i] == Number(fs[i]) % TWO64
  {
    hide Decimal, Number;
    DecimalIsNumber(fs[i]);
    if i > 0 {
      OctetsAre(fs[1..], i - 1);
    }
  }

  /** Four dot-separated strings of digits that stand for these octets modulo 2^64. */
  ghost predicate IsQuad(s: string, fs: seq<string>, q: seq<Byte>) {
    && |fs| == 4 && |q| == 4 && s == Dots(fs)
    && forall i :: 0 <= i < 4 ==> fs[i] != "" && AllDigits(fs[i]) && Number(fs[i]) % TWO64 == q[i]
  }

  lemma QuadParts(s: string, fs: seq<string>, q: seq<Byte>)
    ensures IsQuad(s, fs, q) <==> |fs| == 4 && AllFields(fs) && s == Dots(fs) && q == Octets(fs)
  {
    hide Decimal, Number, AllDigits, Dots, Octets;
    if |fs| == 4 {
      FieldIff(fs[0]);
      FieldIff(fs[1]);
      FieldIff(fs[2]);
      FieldIff(fs[3]);
      if AllFields(fs) {
        OctetsAre(fs, 0);
        OctetsAre(fs, 1);
        OctetsAre(fs, 2);
        OctetsAre(fs, 3);
      }
    }
  }

  /** A dotted quad is accepted with given octets exactly when it is four dot-separated strings of digits whose
      numbers are those octets modulo 2^64. */
  lemma QuadIff(s: string, q: seq<Byte>)
    ensures Quad(s) == Some(q) <==> exists fs :: IsQuad(s, fs, q)
  {
    hide Fields, Dots, Octets, AllFields, IsQuad;
    if Quad(s) == Some(q) {
      var fs := FieldsAre(s, 4);
      QuadParts(s, fs, q);
    }
    if fs :| IsQuad(s, fs, q) {
      QuadParts(s, fs, q);
      FieldsRead(fs);
    }
  }

  /** An address whose last 32 bits are written as a dotted quad: form 3 of section 2.2 of RFC 4291. */
  function Mixed(l: seq<string>, r: seq<string>, fs: seq<string>): string {
    Colons(l) + "::" + (if r == [] then "" else Colons(r) + ":") + Dots(fs)
  }

  lemma DotsHasDot(fs: seq<string>)
    requires |fs| == 4
    ensures '.' in Dots(fs)
  {
    assert Dots(fs)[|fs[0]|] == '.';
  }

  /** Groups before a colon are not the start of a dotted quad. */
  lemma {:induction false} GroupsNoQuad(r: seq<string>, tail: string, n: nat)
    requires AllGroups(r) && r != [] && n >= 2
    ensures Fields(Colons(r) + ":" + tail, n) == None
  {
    hide Decimal, Fields;
    var g, more := r[0], r[1..];
    assert IsGroup(g) && r == [g] + more;
    ColonsStep(g, more);
    var t := (if more == [] then "" else ":" + Colons(more)) + ":" + tail;
    assert Colons(r) + ":" + tail == g + t && t[0] == ':';
    NoField(g, t, n);
  }

  lemma {:induction false} DigitRunStops(s: string, k: nat)
    requires k < |s| && !IsDigit(s[k])
    ensures DigitRun(s) <= k
  {
    if k > 0 {
      DigitRunStops(s[1..], k - 1);
    }
  }

  lemma NoField(g: string, t: string, n: nat)
    requires AllHex(g) && t != "" && t[0] == ':' && n >= 2
    ensures Fields(g + t, n) == None
  {
    hide Decimal, DigitRun;
    var s := g + t;
    DigitRunStops(s, |g|);
    var d := DigitRun(s);
    assert s[d] == if d < |g| then g[d] else ':';
    assert d < |g| ==> IsHex(g[d]);
    assert s[d..][0] == s[d];
  }

  /** With a dot in the text, everything hangs on the two leading colons and the quad after them. */
  lemma DottedRead(text: string, body: string)
    requires '.' in text && (StartsWith(text, "::") ==> body == text[2..])
    ensures Read(text) == if StartsWith(text, "::") && Quad(body).Some? then Some(ZeroGroups(6) + QuadGroups(Quad(body).value)) else None
  {
    hide Groups, Quad, QuadGroups;
    assert StartsWith(text, "::") ==> text == "::" + body;
  }

  /** The documented mixed form gets through only when no group is written before the quad. */
  lemma MixedIff(l: seq<string>, r: seq<string>, fs: seq<string>)
    requires AllGroups(l) && AllGroups(r) && |l| + |r| <= 5 && |fs| == 4 && AllFields(fs)
    ensures Read(Mixed(l, r, fs)).Some? <==> l == [] && r == []
    ensures l == [] && r == [] ==> Read(Mixed(l, r, fs)) == Some(ZeroGroups(6) + QuadGroups(Octets(fs)))
  {
    hide Read, Colons, Dots, Fields, Octets, IsHex, IsField, Hex, QuadGroups;
    var text := Mixed(l, r, fs);
    NoGroups();
    DotsHasDot(fs);
    FieldsRead(fs);
    var rest := if r == [] then Dots(fs) else Colons(r) + ":" + Dots(fs);
    assert text == Colons(l) + "::" + rest;
    assert '.' in rest;
    if l != [] {
      ColonsBegin(l);
      NotOpen(text);
      DottedRead(text, "");
    } else {
      assert text == "::" + rest && text[2..] == rest;
      DottedRead(text, rest);
      if r != [] {
        GroupsNoQuad(r, Dots(fs), 4);
      }
    }
  }

  /** Two colons and four dot-separated fields. */
  ghost predicate IsOpenQuad(text: string, fs: seq<string>) { |fs| == 4 && AllFields(fs) && text == "::" + Dots(fs) }

  /** Every text with a dot: accepted exactly when it is two colons and a dotted quad, nothing else. */
  lemma DottedIff(text: string, a: seq<Group>)
    requires '.' in text
    ensures Read(text) == Some(a)
            <==> exists fs :: IsOpenQuad(text, fs) && a == ZeroGroups(6) + QuadGroups(Octets(fs))
    ensures Read(text).Some? <==> exists fs :: IsOpenQuad(text, fs)
  {
    hide Read, Fields, Dots, Octets, AllFields, QuadGroups;
    var body := if StartsWith(text, "::") then text[2..] else "";
    DottedRead(text, body);
    if StartsWith(text, "::") && Quad(body).Some? {
      var fs := FieldsAre(body, 4);
      assert text == "::" + body;
      assert IsOpenQuad(text, fs);
    }
    forall fs | IsOpenQuad(text, fs) ensures Read(text) == Some(ZeroGroups(6) + QuadGroups(Octets(fs))) {
      assert text[..2] == "::" && text[2..] == Dots(fs);
      FieldsRead(fs);
    }
  }

  /** So the usual spelling of an IPv4-mapped address is refused. */
  lemma MappedAddressRefused()
    ensures Read("::ffff:1.2.3.4") == None
  {
    hide Read, Hex, Decimal, Dots;
    var fs := ["1", "2", "3", "4"];
    OneDigit('1');
    OneDigit('2');
    OneDigit('3');
    OneDigit('4');
    DotsStep("4", []);
    DotsStep("3", ["4"]);
    DotsStep("2", ["3", "4"]);
    DotsStep("1", ["2", "3", "4"]);
    assert ["4"] + [] == ["4"] && ["3"] + ["4"] == ["3", "4"];
    assert ["2"] + ["3", "4"] == ["2", "3", "4"] && ["1"] + ["2", "3", "4"] == fs;
    assert Mixed([], ["ffff"], fs) == "::ffff:1.2.3.4";
    MixedIff([], ["ffff"], fs);
  }

  lemma OneDigit(c: char)
    requires IsDigit(c)
    ensures IsField([c])
  {
    assert [c][..0] == "";
  }
}
