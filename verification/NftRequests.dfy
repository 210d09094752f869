/** The three batches the nft probe sends, as values, and the buffer they are written into. */
module NftRequests {
  import opened Options
  import opened Bytes
  import opened NetlinkFormat
  import NetlinkWriter

  const REQ_SIZE := 2048
  const NLM_F_REQUEST := 0x0001
  const NLM_F_ACK := 0x0004
  const NLM_F_CREATE := 0x0400
  const NLM_F_APPEND := 0x0800
  const REG := 8

  function Text(kind: nat, s: string): Attr {
    Leaf(kind, seq(|s|, i requires 0 <= i < |s| => s[i] as int % 256) + [0])
  }

  function U32(kind: nat, v: nat): Attr { Leaf(kind, Le(v, 4)) }

  function U64(kind: nat, v: nat): Attr { Leaf(kind, Le(v, 8)) }

  function NftMsg(op: nat): nat { 10 * 256 + op }

  function ExprEmpty(index: nat, name: string): Attr {
    Nest(index, [Text(1, name)])
  }

  function ExprMeta(index: nat, dreg: nat, key: nat): Attr {
    Nest(index, [Text(1, "meta"), Nest(2, [U32(1, dreg), U32(2, key)])])
  }

  function ExprPayload(index: nat, dreg: nat, base: nat, offset: nat, len: nat): Attr {
    Nest(index, [Text(1, "payload"), Nest(2, [U32(1, dreg), U32(2, base), U32(3, offset), U32(4, len)])])
  }

  function ExprCmp(index: nat, sreg: nat, value: seq<Byte>): Attr {
    Nest(index, [Text(1, "cmp"), Nest(2, [U32(1, sreg), U32(2, 0), Nest(3, [Leaf(1, value)])])])
  }

  function ExprBitwiseMask(index: nat, sreg: nat, dreg: nat): Attr {
    Nest(index, [Text(1, "bitwise"),
                 Nest(2, [U32(1, sreg), U32(2, dreg), U32(3, 4),
                          Nest(4, [Leaf(1, [255, 255, 0, 0])]), Nest(5, [Leaf(1, [0, 0, 0, 0])])])])
  }

  function BatchMarker(kind: nat, number: nat): Message {
    Message(kind, NLM_F_REQUEST, number, [])
  }

  function NewTable(number: nat): Message {
    Message(NftMsg(0), NLM_F_REQUEST + NLM_F_ACK + NLM_F_CREATE, number, [Text(1, "nat")])
  }

  function NewChain(number: nat): Message {
    Message(NftMsg(3), NLM_F_REQUEST + NLM_F_ACK + NLM_F_CREATE, number,
            [Text(1, "nat"), Text(3, "postrouting"), Text(7, "nat"), Nest(4, [U32(1, 4), U32(2, 100)])])
  }

  const DOCKER0: seq<Byte> := [100, 111, 99, 107, 101, 114, 48, 0]

  function MasqExprs(): seq<Attr> {
    [ExprMeta(1, REG, 7),
     ExprCmp(2, REG, DOCKER0),
     ExprPayload(3, REG + 1, 1, 12, 4),
     ExprBitwiseMask(4, REG + 1, REG + 2),
     ExprCmp(5, REG + 2, [172, 18, 0, 0]),
     ExprEmpty(6, "masq")]
  }

  function NewRuleMasq(number: nat): Message {
    Message(NftMsg(6), NLM_F_REQUEST + NLM_F_ACK + NLM_F_CREATE + NLM_F_APPEND, number,
            [Text(1, "nat"), Text(2, "postrouting"), Nest(4, MasqExprs())])
  }

  function Get(op: nat, number: nat): Message {
    Message(NftMsg(op), NLM_F_REQUEST + 0x0300, number, [])
  }

  function DelRule(number: nat): Message {
    Message(NftMsg(8), NLM_F_REQUEST + NLM_F_ACK, number, [Text(1, "nat"), Text(2, "postrouting"), U64(3, 1)])
  }

  function DelChain(number: nat): Message {
    Message(NftMsg(5), NLM_F_REQUEST + NLM_F_ACK, number, [Text(1, "nat"), Text(3, "postrouting")])
  }

  function DelTable(number: nat): Message {
    Message(NftMsg(2), NLM_F_REQUEST + NLM_F_ACK, number, [Text(1, "nat")])
  }

  function CreateBatch(): seq<Message> {
    [BatchMarker(0x10, 1), NewTable(2), NewChain(3), NewRuleMasq(4), BatchMarker(0x11, 5)]
  }

  function DumpBatch(): seq<Message> {
    [Get(1, 6), Get(4, 7), Get(7, 8)]
  }

  function DeleteBatch(): seq<Message> {
    [BatchMarker(0x10, 9), DelRule(10), DelChain(11), DelTable(12), BatchMarker(0x11, 13)]
  }

  /** `a` fits its fields and takes `n` bytes. */
  ghost predicate Takes(a: Attr, n: nat) {
    FitsAttr(a) && |EncodeAttr(a)| == n
  }

  ghost predicate AllTake(attrs: seq<Attr>, n: nat) {
    FitsAttrs(attrs) && |EncodeAttrs(attrs)| == n
  }

  lemma LeafTakes(kind: nat, payload: seq<Byte>)
    requires kind < NLA_F_NESTED && |payload| < 0x1000
    ensures Takes(Leaf(kind, payload), 4 + |payload| + Pad4(|payload|))
  {}

  lemma TextTakes(kind: nat, s: string)
    requires kind < NLA_F_NESTED && |s| < 0x100
    ensures Takes(Text(kind, s), 5 + |s| + Pad4(1 + |s|))
  {
    LeafTakes(kind, Text(kind, s).payload);
  }

  lemma U32Takes(kind: nat, v: nat)
    requires kind < NLA_F_NESTED
    ensures Takes(U32(kind, v), 8)
  {
    LeafTakes(kind, Le(v, 4));
  }

  lemma NestTakes(kind: nat, children: seq<Attr>, n: nat)
    requires kind < NLA_F_NESTED && n < 0x1000 && AllTake(children, n)
    ensures Takes(Nest(kind, children), 4 + n)
  {
    hide EncodeAttrs, FitsAttrs;
  }

  lemma ConsTakes(a: Attr, n: nat, rest: seq<Attr>, m: nat)
    requires Takes(a, n) && AllTake(rest, m)
    ensures AllTake([a] + rest, n + m)
  {
    hide EncodeAttr, EncodeAttrs, FitsAttr, FitsAttrs;
    ConsAttrs(a, rest);
  }

  /** Sizes of a list of attributes, given the size of each. */
  lemma {:induction false} ListTakes(attrs: seq<Attr>, sizes: seq<nat>)
    requires |attrs| == |sizes| && forall i :: 0 <= i < |attrs| ==> Takes(attrs[i], sizes[i])
    ensures AllTake(attrs, Sum(sizes))
  {
    hide Takes;
    if attrs != [] {
      ListTakes(attrs[1..], sizes[1..]);
      ConsTakes(attrs[0], sizes[0], attrs[1..], Sum(sizes[1..]));
      assert attrs == [attrs[0]] + attrs[1..];
    }
  }

  function Sum(s: seq<nat>): nat {
    if s == [] then 0 else s[0] + Sum(s[1..])
  }

  lemma SumTwo(a: nat, b: nat)
    ensures Sum([a, b]) == a + b
  {
    assert [a, b][1..] == [b];
    assert Sum([b]) == b + Sum([b][1..]);
  }

  lemma SumThree(a: nat, b: nat, c: nat)
    ensures Sum([a, b, c]) == a + b + c
  {
    assert [a, b, c][1..] == [b, c];
    SumTwo(b, c);
  }

  lemma ExprMetaTakes(index: nat, dreg: nat, key: nat)
    requires index < 0x100
    ensures Takes(ExprMeta(index, dreg, key), 36)
  {
    hide Takes, AllTake;
    U32Takes(1, dreg);
    U32Takes(2, key);
    ListTakes([U32(1, dreg), U32(2, key)], [8, 8]);
    NestTakes(2, [U32(1, dreg), U32(2, key)], 16);
    TextTakes(1, "meta");
    ListTakes(ExprMeta(index, dreg, key).children, [12, 20]);
    NestTakes(index, ExprMeta(index, dreg, key).children, 32);
  }

  lemma ExprPayloadTakes(index: nat, dreg: nat, base: nat, offset: nat, len: nat)
    requires index < 0x100
    ensures Takes(ExprPayload(index, dreg, base, offset, len), 52)
  {
    hide Takes, AllTake;
    var data := [U32(1, dreg), U32(2, base), U32(3, offset), U32(4, len)];
    U32Takes(1, dreg);
    U32Takes(2, base);
    U32Takes(3, offset);
    U32Takes(4, len);
    ListTakes(data, [8, 8, 8, 8]);
    NestTakes(2, data, 32);
    TextTakes(1, "payload");
    ListTakes([Text(1, "payload"), Nest(2, data)], [12, 36]);
    NestTakes(index, [Text(1, "payload"), Nest(2, data)], 48);
  }

  lemma ExprCmpTakes(index: nat, sreg: nat, value: seq<Byte>)
    requires index < 0x100 && |value| < 0x100
    ensures Takes(ExprCmp(index, sreg, value), 40 + |value| + Pad4(|value|))
  {
    hide Takes, AllTake;
    var n := 4 + |value| + Pad4(|value|);
    LeafTakes(1, value);
    ListTakes([Leaf(1, value)], [n]);
    NestTakes(3, [Leaf(1, value)], n);
    var data := [U32(1, sreg), U32(2, 0), Nest(3, [Leaf(1, value)])];
    U32Takes(1, sreg);
    U32Takes(2, 0);
    ListTakes(data, [8, 8, 4 + n]);
    SumThree(8, 8, 4 + n);
    NestTakes(2, data, 20 + n);
    TextTakes(1, "cmp");
    ListTakes([Text(1, "cmp"), Nest(2, data)], [8, 24 + n]);
    SumTwo(8, 24 + n);
    NestTakes(index, [Text(1, "cmp"), Nest(2, data)], 32 + n);
  }

  lemma ExprBitwiseMaskTakes(index: nat, sreg: nat, dreg: nat)
    requires index < 0x100
    ensures Takes(ExprBitwiseMask(index, sreg, dreg), 68)
  {
    hide Takes, AllTake;
    var mask, zero := [Leaf(1, [255, 255, 0, 0])], [Leaf(1, [0, 0, 0, 0])];
    LeafTakes(1, [255, 255, 0, 0]);
    LeafTakes(1, [0, 0, 0, 0]);
    ListTakes(mask, [8]);
    ListTakes(zero, [8]);
    NestTakes(4, mask, 8);
    NestTakes(5, zero, 8);
    var data := [U32(1, sreg), U32(2, dreg), U32(3, 4), Nest(4, mask), Nest(5, zero)];
    U32Takes(1, sreg);
    U32Takes(2, dreg);
    U32Takes(3, 4);
    ListTakes(data, [8, 8, 8, 12, 12]);
    NestTakes(2, data, 48);
    TextTakes(1, "bitwise");
    ListTakes([Text(1, "bitwise"), Nest(2, data)], [12, 52]);
    NestTakes(index, [Text(1, "bitwise"), Nest(2, data)], 64);
  }

  lemma ExprEmptyTakes(index: nat)
    requires index < 0x100
    ensures Takes(ExprEmpty(index, "masq"), 16)
  {
    hide Takes, AllTake;
    TextTakes(1, "masq");
    ListTakes([Text(1, "masq")], [12]);
    NestTakes(index, [Text(1, "masq")], 12);
  }

  lemma MasqExprsTake()
    ensures AllTake(MasqExprs(), 264)
  {
    hide Takes, AllTake, ExprMeta, ExprCmp, ExprPayload, ExprBitwiseMask, ExprEmpty;
    ExprMetaTakes(1, REG, 7);
    ExprCmpTakes(2, REG, DOCKER0);
    ExprPayloadTakes(3, REG + 1, 1, 12, 4);
    ExprBitwiseMaskTakes(4, REG + 1, REG + 2);
    ExprCmpTakes(5, REG + 2, [172, 18, 0, 0]);
    ExprEmptyTakes(6);
    ListTakes(MasqExprs(), [36, 48, 52, 68, 44, 16]);
  }

  lemma NewRuleTakes(number: nat)
    ensures AllTake(NewRuleMasq(number).attrs, 292)
  {
    hide Takes, AllTake, MasqExprs, Text;
    MasqExprsTake();
    NestTakes(4, MasqExprs(), 264);
    TextTakes(1, "nat");
    TextTakes(2, "postrouting");
    ListTakes(NewRuleMasq(number).attrs, [8, 16, 268]);
  }

  lemma NewChainTakes(number: nat)
    ensures AllTake(NewChain(number).attrs, 52)
  {
    hide Takes, AllTake, Text;
    U32Takes(1, 4);
    U32Takes(2, 100);
    ListTakes([U32(1, 4), U32(2, 100)], [8, 8]);
    NestTakes(4, [U32(1, 4), U32(2, 100)], 16);
    TextTakes(1, "nat");
    TextTakes(3, "postrouting");
    TextTakes(7, "nat");
    ListTakes(NewChain(number).attrs, [8, 16, 8, 20]);
  }

  lemma TableTakes()
    ensures AllTake([Text(1, "nat")], 8)
  {
    hide Takes, AllTake, Text;
    TextTakes(1, "nat");
    ListTakes([Text(1, "nat")], [8]);
  }

  lemma DeleteTakes(number: nat)
    ensures AllTake(DelRule(number).attrs, 36)
    ensures AllTake(DelChain(number).attrs, 24)
  {
    hide Takes, AllTake, Text;
    TextTakes(1, "nat");
    TextTakes(2, "postrouting");
    TextTakes(3, "postrouting");
    LeafTakes(3, Le(1, 8));
    ListTakes(DelRule(number).attrs, [8, 16, 12]);
    ListTakes(DelChain(number).attrs, [8, 16]);
  }

  lemma EmptyTakes()
    ensures AllTake([], 0)
  {}

  /** A message whose attributes are accounted for. */
  ghost predicate MessageTakes(m: Message, n: nat) {
    FitsMessage(m) && |EncodeMessage(m)| == n
  }

  lemma MessageSize(m: Message, n: nat)
    requires AllTake(m.attrs, n) && n < 0x1000
    requires m.kind < 0x1_0000 && m.flags < 0x1_0000 && m.number < 0x1_0000_0000
    ensures MessageTakes(m, 20 + n)
  {
    hide EncodeAttrs, FitsAttrs;
  }

  lemma {:induction false} BatchTakes(ms: seq<Message>, sizes: seq<nat>)
    requires |ms| == |sizes| && forall i :: 0 <= i < |ms| ==> MessageTakes(ms[i], sizes[i])
    ensures FitsMessages(ms) && |EncodeMessages(ms)| == Sum(sizes)
  {
    hide FitsMessage, EncodeMessage;
    if ms != [] {
      assert MessageTakes(ms[0], sizes[0]);
      BatchTakes(ms[1..], sizes[1..]);
    }
  }

  lemma CreateBatchTakes()
    ensures FitsMessages(CreateBatch()) && |EncodeMessages(CreateBatch())| == 452
  {
    hide AllTake, MessageTakes;
    EmptyTakes();
    MessageSize(BatchMarker(0x10, 1), 0);
    MessageSize(BatchMarker(0x11, 5), 0);
    TableTakes();
    MessageSize(NewTable(2), 8);
    NewChainTakes(3);
    MessageSize(NewChain(3), 52);
    NewRuleTakes(4);
    MessageSize(NewRuleMasq(4), 292);
    BatchTakes(CreateBatch(), [20, 28, 72, 312, 20]);
  }

  lemma DumpBatchTakes()
    ensures FitsMessages(DumpBatch()) && |EncodeMessages(DumpBatch())| == 60
  {
    hide AllTake, MessageTakes;
    EmptyTakes();
    MessageSize(Get(1, 6), 0);
    MessageSize(Get(4, 7), 0);
    MessageSize(Get(7, 8), 0);
    BatchTakes(DumpBatch(), [20, 20, 20]);
  }

  lemma DeleteBatchTakes()
    ensures FitsMessages(DeleteBatch()) && |EncodeMessages(DeleteBatch())| == 168
  {
    hide AllTake, MessageTakes;
    EmptyTakes();
    MessageSize(BatchMarker(0x10, 9), 0);
    MessageSize(BatchMarker(0x11, 13), 0);
    TableTakes();
    MessageSize(DelTable(12), 8);
    DeleteTakes(10);
    DeleteTakes(11);
    MessageSize(DelRule(10), 36);
    MessageSize(DelChain(11), 24);
    BatchTakes(DeleteBatch(), [20, 56, 44, 28, 20]);
  }

  /** Each of the three batches, written from position 0 into the probe's 2048-byte buffer, fits it
      and reads back as exactly the intended messages. */
  method SendBatch(r: NetlinkWriter.Request, ms: seq<Message>)
    requires r.buf.Length == REQ_SIZE
    requires ms in [CreateBatch(), DumpBatch(), DeleteBatch()]
    modifies r`pos, r.buf
    ensures r.pos <= REQ_SIZE
    ensures DecodeMessages(r.buf[..r.pos]) == Some(ms)
    ensures r.buf[r.pos..] == old(r.buf[..])[r.pos..]
  {
    hide EncodeMessages, FitsMessages, DecodeMessages, CreateBatch, DumpBatch, DeleteBatch;
    CreateBatchTakes();
    DumpBatchTakes();
    DeleteBatchTakes();
    r.pos := 0;
    r.WriteMessages(ms);
    MessagesRoundTrip(ms);
    assert r.buf[..r.pos] == EncodeMessages(ms);
  }
}
