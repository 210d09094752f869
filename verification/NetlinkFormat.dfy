/** The netlink wire format the nft probe speaks: messages made of trees of attributes, what their
    bytes are, and a plain aligned type-length-value walk that reads them back. */
module NetlinkFormat {
  import opened Options
  import opened Bytes

  const NLA_F_NESTED := 0x8000

  datatype Attr =
    | Leaf(kind: nat, payload: seq<Byte>)
    | Nest(kind: nat, children: seq<Attr>)

  datatype Message = Message(kind: nat, flags: nat, number: nat, attrs: seq<Attr>)

  /** `kind | NLA_F_NESTED`. */
  function WithNested(kind: nat): (k: nat)
    ensures k / NLA_F_NESTED % 2 == 1
  {
    if kind / NLA_F_NESTED % 2 == 1 then kind else kind + NLA_F_NESTED
  }

  /** One attribute: 16-bit length without padding, 16-bit kind, body, zeros up to four bytes. */
  function Tlv(kind: nat, body: seq<Byte>): (s: seq<Byte>)
    ensures |s| == 4 + |body| + Pad4(|body|)
    ensures |s| % 4 == 0
  {
    Le(4 + |body|, 2) + Le(kind, 2) + body + Zeros(Pad4(|body|))
  }

  function EncodeAttr(a: Attr): (s: seq<Byte>)
    ensures |s| % 4 == 0 && |s| >= 4
    decreases a, 1
  {
    match a
    case Leaf(kind, payload) => Tlv(kind, payload)
    case Nest(kind, children) => Tlv(WithNested(kind), EncodeAttrs(children))
  }

  function EncodeAttrs(attrs: seq<Attr>): (s: seq<Byte>)
    ensures |s| % 4 == 0
    decreases attrs, 0
  {
    if attrs == [] then [] else EncodeAttr(attrs[0]) + EncodeAttrs(attrs[1..])
  }

  /** Bytes of an attribute before its padding: what the length field counts. */
  function AttrLen(a: Attr): nat {
    match a
    case Leaf(_, payload) => 4 + |payload|
    case Nest(_, children) => 4 + |EncodeAttrs(children)|
  }

  /** The attribute and everything inside it fits the 16-bit length and 15-bit kind fields. */
  predicate FitsAttr(a: Attr)
    decreases a, 1
  {
    && a.kind < NLA_F_NESTED
    && AttrLen(a) < 0x1_0000
    && (a.Nest? ==> FitsAttrs(a.children))
  }

  predicate FitsAttrs(attrs: seq<Attr>)
    decreases attrs, 0
  {
    attrs == [] || (FitsAttr(attrs[0]) && FitsAttrs(attrs[1..]))
  }

  /** The plain walk: every attribute starts where the aligned end of the one before it lies, a set
      nested flag means the payload is walked in turn, and nothing may be left over. */
  function DecodeAttrs(b: seq<Byte>): (r: Option<seq<Attr>>)
    decreases |b|
  {
    if |b| == 0 then Some([])
    else if |b| < 4 then None
    else
      var len := FromLe(b[..2]);
      var kind := FromLe(b[2..4]);
      if len < 4 || len + Pad4(len) > |b| then None
      else
        var payload := b[4..len];
        var rest := DecodeAttrs(b[len + Pad4(len)..]);
        if rest.None? then None
        else if kind < NLA_F_NESTED then Some([Leaf(kind, payload)] + rest.value)
        else
          var children := DecodeAttrs(payload);
          if children.None? then None
          else Some([Nest(kind - NLA_F_NESTED, children.value)] + rest.value)
  }

  lemma TlvFields(kind: nat, body: seq<Byte>, rest: seq<Byte>)
    requires kind < 0x1_0000 && 4 + |body| < 0x1_0000
    ensures var b := Tlv(kind, body) + rest;
            var len := 4 + |body|;
            && FromLe(b[..2]) == len
            && FromLe(b[2..4]) == kind
            && b[4..len] == body
            && len + Pad4(len) == |Tlv(kind, body)|
            && b[len + Pad4(len)..] == rest
  {
    hide Le, FromLe, Pow256;
    var b := Tlv(kind, body) + rest;
    Pow256Values();
    LeExact(4 + |body|, 2);
    LeExact(kind, 2);
    assert b[..2] == Le(4 + |body|, 2);
    assert b[2..4] == Le(kind, 2);
    assert b[4..4 + |body|] == body;
  }

  /** One step of the walk over a written leaf. */
  lemma DecodeLeaf(kind: nat, payload: seq<Byte>, rest: seq<Byte>)
    requires kind < NLA_F_NESTED && 4 + |payload| < 0x1_0000 && DecodeAttrs(rest).Some?
    ensures DecodeAttrs(Tlv(kind, payload) + rest) == Some([Leaf(kind, payload)] + DecodeAttrs(rest).value)
  {
    TlvFields(kind, payload, rest);
  }

  /** One step of the walk over a written nest whose body the walk can read. */
  lemma DecodeNest(kind: nat, body: seq<Byte>, rest: seq<Byte>)
    requires kind < NLA_F_NESTED && 4 + |body| < 0x1_0000
    requires DecodeAttrs(body).Some? && DecodeAttrs(rest).Some?
    ensures DecodeAttrs(Tlv(kind + NLA_F_NESTED, body) + rest)
         == Some([Nest(kind, DecodeAttrs(body).value)] + DecodeAttrs(rest).value)
  {
    TlvFields(kind + NLA_F_NESTED, body, rest);
  }

  /** Attributes that fit are read back as they were written. */
  lemma {:induction false} AttrsRoundTrip(attrs: seq<Attr>)
    requires FitsAttrs(attrs)
    ensures DecodeAttrs(EncodeAttrs(attrs)) == Some(attrs)
    decreases attrs, 0
  {
    if attrs != [] {
      AttrsRoundTrip(attrs[1..]);
      AttrRoundTrip(attrs[0], EncodeAttrs(attrs[1..]));
      assert attrs == [attrs[0]] + attrs[1..];
    }
  }

  lemma {:induction false} AttrRoundTrip(a: Attr, rest: seq<Byte>)
    requires FitsAttr(a) && DecodeAttrs(rest).Some?
    ensures DecodeAttrs(EncodeAttr(a) + rest) == Some([a] + DecodeAttrs(rest).value)
    decreases a, 1
  {
    hide Tlv;
    hide DecodeAttrs;
    match a {
      case Leaf(kind, payload) =>
        DecodeLeaf(kind, payload, rest);
      case Nest(kind, children) =>
        AttrsRoundTrip(children);
        DecodeNest(kind, EncodeAttrs(children), rest);
    }
  }

  lemma ConsAttrs(a: Attr, rest: seq<Attr>)
    ensures FitsAttrs([a] + rest) == (FitsAttr(a) && FitsAttrs(rest))
    ensures EncodeAttrs([a] + rest) == EncodeAttr(a) + EncodeAttrs(rest)
  {
    hide EncodeAttr, FitsAttr;
    assert ([a] + rest)[1..] == rest;
  }

  lemma AttrSize(a: Attr)
    ensures |EncodeAttr(a)| == AttrLen(a) + Pad4(AttrLen(a))
  {
    hide Tlv, EncodeAttrs;
  }

  /** Whatever the walk returns fits the fields it came from and has the size it was read from. */
  lemma {:induction false} DecodedAttrsFit(b: seq<Byte>)
    ensures DecodeAttrs(b).Some? ==>
              && FitsAttrs(DecodeAttrs(b).value)
              && |EncodeAttrs(DecodeAttrs(b).value)| == |b|
    decreases |b|
  {
    hide Tlv, FromLe, EncodeAttr;
    if DecodeAttrs(b).Some? && |b| > 0 {
      var len := FromLe(b[..2]);
      var kind := FromLe(b[2..4]);
      Pow256Values();
      FromLeBound(b[..2]);
      FromLeBound(b[2..4]);
      DecodedAttrsFit(b[4..len]);
      DecodedAttrsFit(b[len + Pad4(len)..]);
      hide EncodeAttrs, FitsAttrs;
      var a, rest := DecodeAttrs(b).value[0], DecodeAttrs(b[len + Pad4(len)..]).value;
      assert DecodeAttrs(b).value == [a] + rest;
      AttrSize(a);
      ConsAttrs(a, rest);
    }
  }

  /** 16 bytes of header, the four nfgenmsg bytes (IPv4, version 0, resource 0), the attributes. */
  function EncodeMessage(m: Message): (s: seq<Byte>)
    ensures |s| % 4 == 0 && |s| >= 20
  {
    var body := EncodeAttrs(m.attrs);
    Le(20 + |body|, 4) + Le(m.kind, 2) + Le(m.flags, 2) + Le(m.number, 4) + Le(0, 4) + [2, 0, 0, 0] + body
  }

  function EncodeMessages(ms: seq<Message>): (s: seq<Byte>) {
    if ms == [] then [] else EncodeMessage(ms[0]) + EncodeMessages(ms[1..])
  }

  predicate FitsMessage(m: Message) {
    && m.kind < 0x1_0000 && m.flags < 0x1_0000 && m.number < 0x1_0000_0000
    && 20 + |EncodeAttrs(m.attrs)| < 0x1_0000_0000
    && FitsAttrs(m.attrs)
  }

  predicate FitsMessages(ms: seq<Message>) {
    ms == [] || (FitsMessage(ms[0]) && FitsMessages(ms[1..]))
  }

  function DecodeMessages(b: seq<Byte>): (r: Option<seq<Message>>)
    decreases |b|
  {
    if |b| == 0 then Some([])
    else if |b| < 20 then None
    else
      var len := FromLe(b[..4]);
      if len < 20 || len + Pad4(len) > |b| || FromLe(b[12..16]) != 0 || b[16..20] != [2, 0, 0, 0] then None
      else
        var attrs := DecodeAttrs(b[20..len]);
        var rest := DecodeMessages(b[len + Pad4(len)..]);
        if attrs.None? || rest.None? then None
        else Some([Message(FromLe(b[4..6]), FromLe(b[6..8]), FromLe(b[8..12]), attrs.value)] + rest.value)
  }

  lemma MessageFields(m: Message, rest: seq<Byte>)
    requires FitsMessage(m)
    ensures var b := EncodeMessage(m) + rest;
            var len := |EncodeMessage(m)|;
            && FromLe(b[..4]) == len
            && FromLe(b[4..6]) == m.kind
            && FromLe(b[6..8]) == m.flags
            && FromLe(b[8..12]) == m.number
            && FromLe(b[12..16]) == 0
            && b[16..20] == [2, 0, 0, 0]
            && b[20..len] == EncodeAttrs(m.attrs)
            && b[len..] == rest
  {
    hide Le, FromLe, EncodeAttrs, FitsAttrs, Pow256;
    var b := EncodeMessage(m) + rest;
    var len := |EncodeMessage(m)|;
    Pow256Values();
    LeExact(len, 4);
    LeExact(m.kind, 2);
    LeExact(m.flags, 2);
    LeExact(m.number, 4);
    LeExact(0, 4);
    assert b[..4] == Le(len, 4);
    assert b[4..6] == Le(m.kind, 2);
    assert b[6..8] == Le(m.flags, 2);
    assert b[8..12] == Le(m.number, 4);
    assert b[12..16] == Le(0, 4);
    assert b[16..20] == [2, 0, 0, 0];
    assert b[20..len] == EncodeAttrs(m.attrs);
  }

  /** One step of the walk over a written message. */
  lemma DecodeOneMessage(m: Message, rest: seq<Byte>)
    requires FitsMessage(m) && DecodeMessages(rest).Some?
    ensures DecodeMessages(EncodeMessage(m) + rest) == Some([m] + DecodeMessages(rest).value)
  {
    hide EncodeMessage, EncodeAttrs, DecodeAttrs, FitsAttrs, FromLe, Le;
    MessageFields(m, rest);
    AttrsRoundTrip(m.attrs);
  }

  lemma {:induction false} MessagesRoundTrip(ms: seq<Message>)
    requires FitsMessages(ms)
    ensures DecodeMessages(EncodeMessages(ms)) == Some(ms)
  {
    hide EncodeMessage;
    if ms != [] {
      MessagesRoundTrip(ms[1..]);
      DecodeOneMessage(ms[0], EncodeMessages(ms[1..]));
      assert ms == [ms[0]] + ms[1..];
    }
  }

  lemma {:induction false} DecodedMessagesFit(b: seq<Byte>)
    ensures DecodeMessages(b).Some? ==> FitsMessages(DecodeMessages(b).value)
    decreases |b|
  {
    if DecodeMessages(b).Some? && |b| > 0 {
      var len := FromLe(b[..4]);
      Pow256Values();
      FromLeBound(b[..4]);
      FromLeBound(b[4..6]);
      FromLeBound(b[6..8]);
      FromLeBound(b[8..12]);
      DecodedAttrsFit(b[20..len]);
      DecodedMessagesFit(b[len + Pad4(len)..]);
      var ms := DecodeMessages(b).value;
      assert ms[1..] == DecodeMessages(b[len + Pad4(len)..]).value;
    }
  }

  /** The walk gives the messages back exactly when all of them fit their fields: the writer cuts
      lengths and kinds to 16 bits without checking. */
  lemma DecodesToItselfIffFits(ms: seq<Message>)
    ensures DecodeMessages(EncodeMessages(ms)) == Some(ms) <==> FitsMessages(ms)
  {
    if FitsMessages(ms) {
      MessagesRoundTrip(ms);
    } else {
      DecodedMessagesFit(EncodeMessages(ms));
    }
  }

  /** A single 65532-byte payload is already too long: its length field wraps to zero. */
  lemma OversizedAttributeIsLost(payload: seq<Byte>)
    requires |payload| == 0xfffc
    ensures DecodeAttrs(EncodeAttrs([Leaf(1, payload)])) == None
  {
    var b := EncodeAttrs([Leaf(1, payload)]);
    Pow256Values();
    LeRoundTrip(0x1_0000, 2);
    assert b == EncodeAttr(Leaf(1, payload)) + EncodeAttrs([Leaf(1, payload)][1..]);
    assert b[..2] == Le(4 + |payload|, 2);
  }
}
