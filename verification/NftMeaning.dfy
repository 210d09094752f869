/** What the probe's batches ask for, read from their messages by the attribute numbers of the nf_tables
    protocol, and which packets the rule they install masquerades. */
module NftMeaning {
  import opened Options
  import opened Bytes
  import opened NetlinkFormat
  import opened NftRequests
  import Bits

  // Reading attributes

  function Find(attrs: seq<Attr>, kind: nat): (a: Option<Attr>) {
    if attrs == [] then None else if attrs[0].kind == kind then Some(attrs[0]) else Find(attrs[1..], kind)
  }

  function Data(attrs: seq<Attr>, kind: nat): (d: Option<seq<Byte>>) {
    var a := Find(attrs, kind);
    if a.Some? && a.value.Leaf? then Some(a.value.payload) else None
  }

  function Number(attrs: seq<Attr>, kind: nat): (n: Option<nat>) {
    var d := Data(attrs, kind);
    if d.Some? then Some(FromLe(d.value)) else None
  }

  function Children(attrs: seq<Attr>, kind: nat): (cs: Option<seq<Attr>>) {
    var a := Find(attrs, kind);
    if a.Some? && a.value.Nest? then Some(a.value.children) else None
  }

  /** A data attribute around a value. */
  function Value(attrs: seq<Attr>, kind: nat): (d: Option<seq<Byte>>) {
    var cs := Children(attrs, kind);
    if cs.Some? then Data(cs.value, 1) else None
  }

  /** A text with its NUL. */
  function CText(s: string): (b: seq<Byte>) { seq(|s|, i requires 0 <= i < |s| => s[i] as int % 256) + [0] }

  // Expressions

  datatype Expr =
    | Meta(dreg: nat, key: nat)
    | Compare(sreg: nat, value: seq<Byte>)
    | Payload(dreg: nat, base: nat, offset: nat, len: nat)
    | Mask(sreg: nat, dreg: nat, len: nat, mask: seq<Byte>, xor: seq<Byte>)
    | Masquerade

  function ReadMeta(d: seq<Attr>): (e: Option<Expr>) {
    var dreg, key := Number(d, 1), Number(d, 2);
    if dreg.Some? && key.Some? then Some(Meta(dreg.value, key.value)) else None
  }

  /** Only the test for equality, operator 0. */
  function ReadCompare(d: seq<Attr>): (e: Option<Expr>) {
    var sreg, op, value := Number(d, 1), Number(d, 2), Value(d, 3);
    if sreg.Some? && op == Some(0) && value.Some? then Some(Compare(sreg.value, value.value)) else None
  }

  function ReadPayload(d: seq<Attr>): (e: Option<Expr>) {
    var dreg, base, offset, len := Number(d, 1), Number(d, 2), Number(d, 3), Number(d, 4);
    if dreg.Some? && base.Some? && offset.Some? && len.Some? then Some(Payload(dreg.value, base.value, offset.value, len.value)) else None
  }

  function ReadMask(d: seq<Attr>): (e: Option<Expr>) {
    var sreg, dreg, len, mask, xor := Number(d, 1), Number(d, 2), Number(d, 3), Value(d, 4), Value(d, 5);
    if sreg.Some? && dreg.Some? && len.Some? && mask.Some? && xor.Some?
    then Some(Mask(sreg.value, dreg.value, len.value, mask.value, xor.value)) else None
  }

  function ReadExpr(a: Attr): (e: Option<Expr>) {
    if a.Leaf? then None
    else
      var name, data := Data(a.children, 1), Children(a.children, 2);
      if name == Some(CText("masq")) then Some(Masquerade)
      else if data.None? then None
      else if name == Some(CText("meta")) then ReadMeta(data.value)
      else if name == Some(CText("cmp")) then ReadCompare(data.value)
      else if name == Some(CText("payload")) then ReadPayload(data.value)
      else if name == Some(CText("bitwise")) then ReadMask(data.value)
      else None
  }

  function ReadExprs(attrs: seq<Attr>): (es: Option<seq<Expr>>) {
    if attrs == [] then Some([])
    else
      var e, rest := ReadExpr(attrs[0]), ReadExprs(attrs[1..]);
      if e.Some? && rest.Some? then Some([e.value] + rest.value) else None
  }

  lemma TextIs(kind: nat, s: string)
    ensures Text(kind, s) == Leaf(kind, CText(s))
  {}

  /** Texts of different lengths, or with different first letters, are different. */
  lemma NamesDiffer(a: string, b: string)
    requires |a| != |b| || (a != "" && a[0] as int % 256 != b[0] as int % 256)
    ensures CText(a) != CText(b)
  {
    if |a| == |b| {
      assert CText(a)[0] == a[0] as int % 256 && CText(b)[0] == b[0] as int % 256;
    }
  }

  lemma Names()
    ensures CText("meta") != CText("masq")
    ensures CText("cmp") != CText("masq") && CText("cmp") != CText("meta")
    ensures CText("payload") != CText("masq") && CText("payload") != CText("meta") && CText("payload") != CText("cmp")
    ensures CText("bitwise") != CText("masq") && CText("bitwise") != CText("meta") && CText("bitwise") != CText("cmp")
    ensures CText("bitwise") != CText("payload")
  {
    assert CText("meta")[1] == 'e' as int && CText("masq")[1] == 'a' as int;
    NamesDiffer("cmp", "masq");
    NamesDiffer("cmp", "meta");
    NamesDiffer("payload", "masq");
    NamesDiffer("payload", "meta");
    NamesDiffer("payload", "cmp");
    NamesDiffer("bitwise", "masq");
    NamesDiffer("bitwise", "meta");
    NamesDiffer("bitwise", "cmp");
    NamesDiffer("bitwise", "payload");
  }

  lemma U32Reads(kind: nat, v: nat)
    requires v < 0x1_0000_0000
    ensures U32(kind, v).Leaf? && U32(kind, v).kind == kind && FromLe(U32(kind, v).payload) == v
  {
    Pow256Values();
    LeRoundTrip(v, 4);
  }

  lemma FindAt(attrs: seq<Attr>, k: nat)
    requires k < |attrs| && forall i :: 0 <= i < k ==> attrs[i].kind != attrs[k].kind
    ensures Find(attrs, attrs[k].kind) == Some(attrs[k])
  {
    if k > 0 {
      assert attrs[1..][k - 1] == attrs[k];
      FindAt(attrs[1..], k - 1);
    }
  }

  lemma MetaReads(index: nat, dreg: nat, key: nat)
    requires dreg < 0x1_0000_0000 && key < 0x1_0000_0000
    ensures ReadExpr(ExprMeta(index, dreg, key)) == Some(Meta(dreg, key))
  {
    hide Find, U32, Text, CText;
    var data := [U32(1, dreg), U32(2, key)];
    var cs := [Text(1, "meta"), Nest(2, data)];
    U32Reads(1, dreg);
    U32Reads(2, key);
    FindAt(data, 0);
    FindAt(data, 1);
    TextIs(1, "meta");
    FindAt(cs, 0);
    FindAt(cs, 1);
    Names();
  }

  lemma CompareReads(index: nat, sreg: nat, value: seq<Byte>)
    requires sreg < 0x1_0000_0000
    ensures ReadExpr(ExprCmp(index, sreg, value)) == Some(Compare(sreg, value))
  {
    hide Find, U32, Text, CText;
    var data := [U32(1, sreg), U32(2, 0), Nest(3, [Leaf(1, value)])];
    var cs := [Text(1, "cmp"), Nest(2, data)];
    U32Reads(1, sreg);
    U32Reads(2, 0);
    FindAt(data, 0);
    FindAt(data, 1);
    FindAt(data, 2);
    FindAt([Leaf(1, value)], 0);
    TextIs(1, "cmp");
    FindAt(cs, 0);
    FindAt(cs, 1);
    Names();
  }

  lemma PayloadReads(index: nat, dreg: nat, base: nat, offset: nat, len: nat)
    requires dreg < 0x1_0000_0000 && base < 0x1_0000_0000 && offset < 0x1_0000_0000 && len < 0x1_0000_0000
    ensures ReadExpr(ExprPayload(index, dreg, base, offset, len)) == Some(Payload(dreg, base, offset, len))
  {
    hide Find, U32, Text, CText;
    var data := [U32(1, dreg), U32(2, base), U32(3, offset), U32(4, len)];
    var cs := [Text(1, "payload"), Nest(2, data)];
    U32Reads(1, dreg);
    U32Reads(2, base);
    U32Reads(3, offset);
    U32Reads(4, len);
    FindAt(data, 0);
    FindAt(data, 1);
    FindAt(data, 2);
    FindAt(data, 3);
    TextIs(1, "payload");
    FindAt(cs, 0);
    FindAt(cs, 1);
    Names();
  }

  lemma MaskReads(index: nat, sreg: nat, dreg: nat)
    requires sreg < 0x1_0000_0000 && dreg < 0x1_0000_0000
    ensures ReadExpr(ExprBitwiseMask(index, sreg, dreg)) == Some(Mask(sreg, dreg, 4, [255, 255, 0, 0], [0, 0, 0, 0]))
  {
    hide Find, U32, Text, CText;
    var mask, xor := [Leaf(1, [255, 255, 0, 0])], [Leaf(1, [0, 0, 0, 0])];
    var data := [U32(1, sreg), U32(2, dreg), U32(3, 4), Nest(4, mask), Nest(5, xor)];
    var cs := [Text(1, "bitwise"), Nest(2, data)];
    U32Reads(1, sreg);
    U32Reads(2, dreg);
    U32Reads(3, 4);
    FindAt(data, 0);
    FindAt(data, 1);
    FindAt(data, 2);
    FindAt(data, 3);
    FindAt(data, 4);
    FindAt(mask, 0);
    FindAt(xor, 0);
    TextIs(1, "bitwise");
    FindAt(cs, 0);
    FindAt(cs, 1);
    Names();
  }

  lemma MasqReads(index: nat)
    ensures ReadExpr(ExprEmpty(index, "masq")) == Some(Masquerade)
  {
    hide Find, Text, CText;
    var cs := [Text(1, "masq")];
    TextIs(1, "masq");
    FindAt(cs, 0);
  }

  const RULE: seq<Expr> := [Meta(8, 7), Compare(8, DOCKER0), Payload(9, 1, 12, 4),
                            Mask(9, 10, 4, [255, 255, 0, 0], [0, 0, 0, 0]), Compare(10, [172, 18, 0, 0]), Masquerade]

  lemma {:induction false} ExprsRead(attrs: seq<Attr>, es: seq<Expr>)
    requires |attrs| == |es| && forall i :: 0 <= i < |es| ==> ReadExpr(attrs[i]) == Some(es[i])
    ensures ReadExprs(attrs) == Some(es)
  {
    hide ReadExpr;
    if attrs != [] {
      ExprsRead(attrs[1..], es[1..]);
      assert [es[0]] + es[1..] == es;
    }
  }

  lemma RuleReads()
    ensures ReadExprs(MasqExprs()) == Some(RULE)
  {
    hide ReadExpr, ReadExprs, ExprMeta, ExprCmp, ExprPayload, ExprBitwiseMask, ExprEmpty;
    MetaReads(1, 8, 7);
    CompareReads(2, 8, DOCKER0);
    PayloadReads(3, 9, 1, 12, 4);
    MaskReads(4, 9, 10);
    CompareReads(5, 10, [172, 18, 0, 0]);
    MasqReads(6);
    ExprsRead(MasqExprs(), RULE);
  }

  // Running a rule on a packet

  /** The output interface's name, padded to sixteen bytes, and the packet from its network header on. */
  datatype Packet = Packet(oifname: seq<Byte>, network: seq<Byte>)

  predicate WholePacket(p: Packet) { |p.oifname| == 16 && |p.network| >= 20 }

  /** The registers as 64 bytes; register 8 is the first four. */
  function Load(regs: seq<Byte>, reg: nat, len: nat): (b: Option<seq<Byte>>) {
    if reg < 8 || (reg - 8) * 4 + len > |regs| then None else Some(regs[(reg - 8) * 4..(reg - 8) * 4 + len])
  }

  function Store(regs: seq<Byte>, reg: nat, b: seq<Byte>): (r: Option<seq<Byte>>) {
    if reg < 8 || (reg - 8) * 4 + |b| > |regs| then None else Some(Splice(regs, (reg - 8) * 4, b))
  }

  function Masked(b: seq<Byte>, mask: seq<Byte>, xor: seq<Byte>): (r: Option<seq<nat>>) {
    if |b| == |mask| == |xor| then Some(seq(|b|, i requires 0 <= i < |b| => Bits.Xor(Bits.And(b[i], mask[i]), xor[i]))) else None
  }

  predicate AllBytes(b: seq<nat>) { forall i :: 0 <= i < |b| ==> b[i] < 256 }

  /** Whether the rule's last word on the packet is to masquerade it: expressions run in order, and one that does
      not hold, or cannot be carried out, ends the rule. */
  predicate Masquerades(es: seq<Expr>, p: Packet, regs: seq<Byte>)
    decreases |es|
  {
    if es == [] then false
    else
      match es[0]
      case Masquerade => true
      case Meta(dreg, key) =>
        var r := Store(regs, dreg, p.oifname);
        key == 7 && r.Some? && Masquerades(es[1..], p, r.value)
      case Compare(sreg, value) =>
        Load(regs, sreg, |value|) == Some(value) && Masquerades(es[1..], p, regs)
      case Payload(dreg, base, offset, len) =>
        && base == 1 && offset + len <= |p.network|
        && var r := Store(regs, dreg, p.network[offset..offset + len]);
           r.Some? && Masquerades(es[1..], p, r.value)
      case Mask(sreg, dreg, len, mask, xor) =>
        var b := Load(regs, sreg, len);
        && b.Some?
        && var m := Masked(b.value, mask, xor);
           && m.Some? && AllBytes(m.value)
           && var r := Store(regs, dreg, m.value);
              r.Some? && Masquerades(es[1..], p, r.value)
  }

  const REGISTERS: seq<Byte> := Zeros(64)

  lemma StoreLoad(regs: seq<Byte>, reg: nat, b: seq<Byte>)
    requires |regs| == 64 && 8 <= reg && (reg - 8) * 4 + |b| <= 64
    ensures Store(regs, reg, b).Some? && |Store(regs, reg, b).value| == 64
    ensures forall n :: 0 <= n <= |b| ==> Load(Store(regs, reg, b).value, reg, n) == Some(b[..n])
  {
    hide Splice;
    var at := (reg - 8) * 4;
    SpliceIs(regs, at, b);
    forall n | 0 <= n <= |b| ensures Load(Store(regs, reg, b).value, reg, n) == Some(b[..n]) {
      assert Splice(regs, at, b)[at..at + n] == Splice(regs, at, b)[at..at + |b|][..n];
    }
  }

  lemma SpliceIs(s: seq<Byte>, at: nat, b: seq<Byte>)
    requires at + |b| <= |s|
    ensures |Splice(s, at, b)| == |s| && Splice(s, at, b)[at..at + |b|] == b
  {}

  lemma MaskedIs(b: seq<Byte>)
    requires |b| == 4
    ensures var m := Masked(b, [255, 255, 0, 0], [0, 0, 0, 0]); m == Some([b[0], b[1], 0, 0]) && AllBytes(m.value)
  {
    hide Bits.And, Bits.Xor;
    forall x: Byte ensures Bits.And(x, 255) == x && Bits.And(x, 0) == 0 && Bits.Xor(x, 0) == x && Bits.Xor(0, 0) == 0 {
      ByteMasks(x);
    }
    var m := Masked(b, [255, 255, 0, 0], [0, 0, 0, 0]).value;
    assert m[0] == b[0] && m[1] == b[1] && m[2] == 0 && m[3] == 0;
    assert m == [b[0], b[1], 0, 0];
  }

  lemma ByteMasks(x: Byte)
    ensures Bits.And(x, 255) == x && Bits.And(x, 0) == 0 && Bits.Xor(x, 0) == x && Bits.Xor(0, 0) == 0
  {
    hide Bits.And, Bits.Xor;
    assert Bits.Pow2(8) == 256;
    Bits.AndOnes(x, 8);
    Bits.AndZero(x);
    Bits.XorZero(x);
    Bits.XorZero(0);
  }

  /** The rule masquerades exactly the packets that leave by docker0 with a source address in 172.18.0.0/16. */
  lemma RuleMeans(p: Packet)
    requires WholePacket(p)
    ensures Masquerades(RULE, p, REGISTERS) <==> p.oifname[..8] == DOCKER0 && p.network[12] == 172 && p.network[13] == 18
  {
    hide Load, Store, Masked, AllBytes;
    var source := p.network[12..16];
    StoreLoad(REGISTERS, 8, p.oifname);
    var r1 := Store(REGISTERS, 8, p.oifname).value;
    StoreLoad(r1, 9, source);
    var r2 := Store(r1, 9, source).value;
    MaskedIs(source);
    var m: seq<Byte> := [source[0], source[1], 0, 0];
    StoreLoad(r2, 10, m);
    var r3 := Store(r2, 10, m).value;
    assert Load(r1, 8, 8) == Some(p.oifname[..8]);
    assert Load(r2, 9, 4) == Some(source[..4]) && source[..4] == source;
    assert Load(r3, 10, 4) == Some(m[..4]) && m[..4] == m;
    assert m == [172, 18, 0, 0] <==> source[0] == 172 && source[1] == 18;
    RuleSteps(p, r1, r2, r3, source, m);
  }

  lemma RuleSteps(p: Packet, r1: seq<Byte>, r2: seq<Byte>, r3: seq<Byte>, source: seq<Byte>, m: seq<Byte>)
    requires WholePacket(p) && source == p.network[12..16]
    requires Store(REGISTERS, 8, p.oifname) == Some(r1) && Store(r1, 9, source) == Some(r2)
    requires Load(r2, 9, 4) == Some(source) && Masked(source, [255, 255, 0, 0], [0, 0, 0, 0]) == Some(m) && Store(r2, 10, m) == Some(r3)
    ensures Masquerades(RULE, p, REGISTERS) <==> Load(r1, 8, 8) == Some(DOCKER0) && Load(r3, 10, 4) == Some([172, 18, 0, 0])
  {
    hide Load, Store, Masked;
    var e1, e2, e3, e4, e5 := RULE[1..], RULE[2..], RULE[3..], RULE[4..], RULE[5..];
    assert e1[1..] == e2 && e2[1..] == e3 && e3[1..] == e4 && e4[1..] == e5 && |DOCKER0| == 8;
    assert Masquerades(e5, p, r3);
    assert Masquerades(e4, p, r3) <==> Load(r3, 10, 4) == Some([172, 18, 0, 0]);
    assert Masquerades(e3, p, r2) <==> Masquerades(e4, p, r3);
    assert Masquerades(e2, p, r1) <==> Masquerades(e3, p, r2);
    assert Masquerades(e1, p, r1) <==> Load(r1, 8, 8) == Some(DOCKER0) && Masquerades(e2, p, r1);
  }

  // Batches

  datatype Command =
    | BeginBatch
    | EndBatch
    | AddTable(table: seq<Byte>)
    | AddChain(table: seq<Byte>, chain: seq<Byte>, kind: seq<Byte>, hook: nat, priority: nat)
    | AddRule(table: seq<Byte>, chain: seq<Byte>, exprs: seq<Expr>)
    | ListAll(what: nat)
    | RemoveRule(table: seq<Byte>, chain: seq<Byte>, handle: nat)
    | RemoveChain(table: seq<Byte>, chain: seq<Byte>)
    | RemoveTable(table: seq<Byte>)

  /** The command of a message, by its number. Every message is a request; a listing asks for the whole table,
      anything that changes something to be acknowledged, an addition to create, and a rule to be appended. */
  function Asks(m: Message): (c: Option<Command>) {
    var op, acked, create, append := m.kind - 2560, m.flags / 4 % 2 == 1, m.flags / 1024 % 2 == 1, m.flags / 2048 % 2 == 1;
    if m.flags % 2 == 0 then None
    else if m.kind == 16 then Some(BeginBatch)
    else if m.kind == 17 then Some(EndBatch)
    else if op in [1, 4, 7] then if m.flags / 256 % 4 == 3 then Some(ListAll(op)) else None
    else if !acked || (op in [0, 3, 6] && !create) || (op == 6 && !append) then None
    else if op == 0 then
      var t := Data(m.attrs, 1);
      if t.Some? then Some(AddTable(t.value)) else None
    else if op == 3 then ReadChain(m.attrs)
    else if op == 6 then ReadRule(m.attrs)
    else if op == 8 then
      var t, c, h := Data(m.attrs, 1), Data(m.attrs, 2), Number(m.attrs, 3);
      if t.Some? && c.Some? && h.Some? then Some(RemoveRule(t.value, c.value, h.value)) else None
    else if op == 5 then
      var t, c := Data(m.attrs, 1), Data(m.attrs, 3);
      if t.Some? && c.Some? then Some(RemoveChain(t.value, c.value)) else None
    else if op == 2 then
      var t := Data(m.attrs, 1);
      if t.Some? then Some(RemoveTable(t.value)) else None
    else None
  }

  function ReadChain(attrs: seq<Attr>): (c: Option<Command>) {
    var t, n, k, h := Data(attrs, 1), Data(attrs, 3), Data(attrs, 7), Children(attrs, 4);
    if t.None? || n.None? || k.None? || h.None? then None
    else
      var hook, priority := Number(h.value, 1), Number(h.value, 2);
      if hook.Some? && priority.Some? then Some(AddChain(t.value, n.value, k.value, hook.value, priority.value)) else None
  }

  function ReadRule(attrs: seq<Attr>): (c: Option<Command>) {
    var t, c, x := Data(attrs, 1), Data(attrs, 2), Children(attrs, 4);
    if t.None? || c.None? || x.None? then None
    else
      var es := ReadExprs(x.value);
      if es.Some? then Some(AddRule(t.value, c.value, es.value)) else None
  }

  lemma ChainAsked(number: nat)
    ensures Asks(NewChain(number)) == Some(AddChain(CText("nat"), CText("postrouting"), CText("nat"), 4, 100))
  {
    hide Find, U32, Text, CText;
    var hook := [U32(1, 4), U32(2, 100)];
    var attrs := [Text(1, "nat"), Text(3, "postrouting"), Text(7, "nat"), Nest(4, hook)];
    TextIs(1, "nat");
    TextIs(3, "postrouting");
    TextIs(7, "nat");
    U32Reads(1, 4);
    U32Reads(2, 100);
    FindAt(hook, 0);
    FindAt(hook, 1);
    FindAt(attrs, 0);
    FindAt(attrs, 1);
    FindAt(attrs, 2);
    FindAt(attrs, 3);
  }

  lemma RuleAsked(number: nat)
    ensures Asks(NewRuleMasq(number)) == Some(AddRule(CText("nat"), CText("postrouting"), RULE))
  {
    hide Find, Text, CText, ReadExprs, MasqExprs, RULE;
    var attrs := [Text(1, "nat"), Text(2, "postrouting"), Nest(4, MasqExprs())];
    TextIs(1, "nat");
    TextIs(2, "postrouting");
    FindAt(attrs, 0);
    FindAt(attrs, 1);
    FindAt(attrs, 2);
    RuleReads();
  }

  lemma TableAsked(number: nat)
    ensures Asks(NewTable(number)) == Some(AddTable(CText("nat"))) && Asks(DelTable(number)) == Some(RemoveTable(CText("nat")))
  {
    hide Find, Text, CText;
    TextIs(1, "nat");
    FindAt([Text(1, "nat")], 0);
  }

  lemma RemovalAsked(number: nat)
    ensures Asks(DelRule(number)) == Some(RemoveRule(CText("nat"), CText("postrouting"), 1))
    ensures Asks(DelChain(number)) == Some(RemoveChain(CText("nat"), CText("postrouting")))
  {
    hide Find, Text, CText, U64;
    var rule := [Text(1, "nat"), Text(2, "postrouting"), U64(3, 1)];
    var chain := [Text(1, "nat"), Text(3, "postrouting")];
    TextIs(1, "nat");
    TextIs(2, "postrouting");
    TextIs(3, "postrouting");
    U64Reads(3, 1);
    FindAt(rule, 0);
    FindAt(rule, 1);
    FindAt(rule, 2);
    FindAt(chain, 0);
    FindAt(chain, 1);
  }

  lemma U64Reads(kind: nat, v: nat)
    requires v < 0x1_0000_0000
    ensures U64(kind, v).Leaf? && U64(kind, v).kind == kind && FromLe(U64(kind, v).payload) == v
  {
    Pow256Values();
    LeRoundTrip(v, 8);
  }

  lemma MarkersAsked(number: nat)
    ensures Asks(BatchMarker(0x10, number)) == Some(BeginBatch) && Asks(BatchMarker(0x11, number)) == Some(EndBatch)
  {}

  lemma ListingAsked(op: nat, number: nat)
    requires op in [1, 4, 7]
    ensures Asks(Get(op, number)) == Some(ListAll(op))
  {}

  /** The first batch asks for a table, a source NAT chain and the rule above. */
  lemma CreateAsks()
    ensures var b := CreateBatch();
            && |b| == 5 && Asks(b[0]) == Some(BeginBatch) && Asks(b[4]) == Some(EndBatch)
            && Asks(b[1]) == Some(AddTable(CText("nat")))
            && Asks(b[2]) == Some(AddChain(CText("nat"), CText("postrouting"), CText("nat"), 4, 100))
            && Asks(b[3]) == Some(AddRule(CText("nat"), CText("postrouting"), RULE))
  {
    hide Asks, BatchMarker, NewTable, NewChain, NewRuleMasq, CText, RULE;
    MarkersAsked(1);
    TableAsked(2);
    ChainAsked(3);
    RuleAsked(4);
    MarkersAsked(5);
  }

  /** The second lists all tables, chains and rules. */
  lemma DumpAsks()
    ensures var b := DumpBatch();
            |b| == 3 && Asks(b[0]) == Some(ListAll(1)) && Asks(b[1]) == Some(ListAll(4)) && Asks(b[2]) == Some(ListAll(7))
  {
    hide Asks, Get;
    ListingAsked(1, 6);
    ListingAsked(4, 7);
    ListingAsked(7, 8);
  }

  /** The third removes the first rule of that chain, the chain and the table, innermost first. */
  lemma DeleteAsks()
    ensures var b := DeleteBatch();
            && |b| == 5 && Asks(b[0]) == Some(BeginBatch) && Asks(b[4]) == Some(EndBatch)
            && Asks(b[1]) == Some(RemoveRule(CText("nat"), CText("postrouting"), 1))
            && Asks(b[2]) == Some(RemoveChain(CText("nat"), CText("postrouting")))
            && Asks(b[3]) == Some(RemoveTable(CText("nat")))
  {
    hide Asks, BatchMarker, DelRule, DelChain, DelTable, CText;
    MarkersAsked(9);
    RemovalAsked(10);
    RemovalAsked(11);
    TableAsked(12);
    MarkersAsked(13);
  }

  /** Messages are numbered from one through all three. */
  lemma NumbersRun(k: nat)
    requires k < 13
    ensures (CreateBatch() + DumpBatch() + DeleteBatch())[k].number == k + 1
  {
    hide NewTable, NewChain, NewRuleMasq, DelRule, DelChain, DelTable;
    Numbered(2);
    Numbered(3);
    Numbered(4);
    Numbered(10);
    Numbered(11);
    Numbered(12);
  }

  lemma Numbered(n: nat)
    ensures NewTable(n).number == NewChain(n).number == NewRuleMasq(n).number == n
    ensures DelRule(n).number == DelChain(n).number == DelTable(n).number == n
  {}
}
