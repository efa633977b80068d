/** The MQTT control packets of upaho/packets.py: the fixed header, the
    `pack` of every packet the client sends and the `unpack` of every
    packet it receives (chapter 3 of MQTT v5.0 and of MQTT v3.1.1). */
module MqttPackets {
  import opened Wrappers
  import opened Bytes
  import opened MqttCodec
  import opened MqttProperties

  datatype Version = V311 | V5

  // Packet types as the first header byte carries them (enums.py).
  const CONNECT: byte := 0x10
  const CONNACK: byte := 0x20
  const PUBLISH: byte := 0x30
  const PUBACK: byte := 0x40
  const PUBREC: byte := 0x50
  const PUBREL: byte := 0x60
  const PUBCOMP: byte := 0x70
  const SUBSCRIBE: byte := 0x80
  const SUBACK: byte := 0x90
  const UNSUBSCRIBE: byte := 0xA0
  const UNSUBACK: byte := 0xB0
  const PINGREQ: byte := 0xC0
  const PINGRESP: byte := 0xD0
  const DISCONNECT: byte := 0xE0

  /** `ReasonCode.SUCCESS` and `ReasonCode.NORMAL_DISCONNECTION`. */
  const SUCCESS: byte := 0x00

  /** The four acknowledgements share one layout. */
  datatype AckKind = PubAck | PubRec | PubRel | PubComp

  /** One entry of `SubscribePacket.topics`: a `(topic, qos)` pair, or a
      `(topic, qos, options)` triple when `options` is present. */
  datatype SubItem = SubItem(filter: bytes, qos: nat, options: Option<byte>)

  /** The fields of the packet classes. Strings are their UTF-8 bytes; an
      empty `username`, `password` or `willTopic` stands for both `None`
      and the empty string, which the source treats alike. */
  datatype Packet =
    | Connect(clientId: bytes, cleanStart: bool, keepalive: u16, username: bytes, password: bytes,
              willTopic: bytes, willPayload: bytes, willQos: nat, willRetain: bool,
              props: Bag, willProps: Bag)
    | ConnAck(sessionPresent: bool, code: byte, props: Bag)
    | Publish(topic: bytes, payload: bytes, qos: nat, retain: bool, dup: bool, mid: u16, props: Bag)
    | Ack(kind: AckKind, mid: u16, code: byte, props: Bag)
    | Subscribe(mid: u16, subs: seq<SubItem>, props: Bag)
    | SubAck(mid: u16, props: Bag, codes: bytes)
    | Unsubscribe(mid: u16, filters: seq<bytes>, props: Bag)
    | UnsubAck(mid: u16, props: Bag, codes: bytes)
    | PingReq
    | PingResp
    | Disconnect(code: byte, props: Bag)

  // ---------------------------------------------------------------------
  // Fixed header

  /** `b & 0xF0`: the packet type, as `read_packet_from_socket` takes it. */
  function TypeBits(b: byte): byte
  {
    b / 16 * 16
  }

  /** `b & 0x0F`: the flags. */
  function FlagBits(b: byte): byte
  {
    b % 16
  }

  /** The first byte `_pack_fixed_header` writes: the type's high nibble
      and the flags' low nibble, each of which the reader gets back. */
  function HeaderByte(ptype: byte, flags: byte): (b: byte)
    ensures TypeBits(b) == TypeBits(ptype) && FlagBits(b) == FlagBits(flags)
  {
    TypeBits(ptype) + FlagBits(flags)
  }

  /** `_pack_fixed_header`: the first byte, then the remaining length. */
  function FixedHeader(ptype: byte, flags: byte, len: nat): (r: bytes)
    ensures |r| >= 2 && r[0] == HeaderByte(ptype, flags)
  {
    [HeaderByte(ptype, flags)] + VarintBytes(len)
  }

  /** The fixed header is one byte plus the Variable Byte Integer. */
  lemma FixedHeaderShape(ptype: byte, flags: byte, len: nat)
    requires len <= MaxVarint
    ensures var h := FixedHeader(ptype, flags, len);
      2 <= |h| <= 5 && TypeBits(h[0]) == TypeBits(ptype) && FlagBits(h[0]) == FlagBits(flags)
  {
    VarintShape(len);
  }

  // ---------------------------------------------------------------------
  // Fields shared by several packets

  /** The property block, written only by MQTT 5.0. */
  function PropsField(props: Bag, v: Version): bytes
    requires Packable(props)
  {
    if v == V5 then PackBag(props) else []
  }

  /** `Properties.unpack` where MQTT 5.0 has a property block; none
      otherwise. */
  function ReadProps(data: bytes, offset: nat, v: Version): (r: Option<(Bag, nat)>)
  {
    if v == V5 then UnpackBag(data, offset) else Some(([], offset))
  }

  /** `struct.unpack_from('!H', data, offset)` when the field is present;
      the source raises when fewer than two bytes remain. */
  function ReadMid(data: bytes, offset: nat, present: bool): (r: Option<(u16, nat)>)
    ensures r.None? <==> present && offset + 2 > |data|
  {
    if !present then Some((0, offset))
    else if offset + 2 <= |data| then Some((Be16Value(data[offset], data[offset + 1]), offset + 2))
    else None
  }

  /** `data[offset:]`, which is empty when the offset is past the end. */
  function Tail(data: bytes, offset: nat): (r: bytes)
    ensures |r| == if offset <= |data| then |data| - offset else 0
    ensures forall i :: 0 <= i < |r| ==> r[i] == data[offset + i]
  {
    if offset <= |data| then data[offset..] else []
  }

  // ---------------------------------------------------------------------
  // PUBLISH

  /** `PublishPacket.__init__`'s flags: DUP in bit 3, QoS in bits 2-1
      (`qos & 3`), RETAIN in bit 0. */
  function PublishFlags(dup: bool, qos: nat, retain: bool): (r: byte)
    ensures r < 16
  {
    (if dup then 8 else 0) + (qos % 4) * 2 + (if retain then 1 else 0)
  }

  /** What `PublishPacket.unpack` reads from the flags. */
  function FlagsDup(flags: byte): bool { (flags / 8) % 2 == 1 }
  function FlagsQos(flags: byte): nat { (flags / 2) % 4 }
  function FlagsRetain(flags: byte): bool { flags % 2 == 1 }

  /** The flags read back as they were written, the QoS modulo 4. */
  lemma PublishFlagsRoundTrip(dup: bool, qos: nat, retain: bool)
    ensures var f := PublishFlags(dup, qos, retain);
      f < 16 && FlagsDup(f) == dup && FlagsQos(f) == qos % 4 && FlagsRetain(f) == retain
    ensures qos < 4 ==> FlagsQos(PublishFlags(dup, qos, retain)) == qos
  {
    var f := PublishFlags(dup, qos, retain);
    var q := qos % 4;
    var d := if dup then 1 else 0;
    var t := if retain then 1 else 0;
    assert f == d * 8 + q * 2 + t;
    assert f / 2 == d * 4 + q;
    assert f / 8 == d;
  }

  /** The variable header and payload `PublishPacket.pack` writes: topic,
      the packet identifier only when QoS > 0, the properties under MQTT
      5.0, then the payload. */
  function PublishBody(topic: bytes, payload: bytes, qos: nat, mid: u16, props: Bag, v: Version): bytes
    requires Packable(props)
  {
    Prefixed(topic) + (if qos > 0 then Be16(mid) else []) + PropsField(props, v) + payload
  }

  /** A QoS 0 message is the same message at QoS 1 or 2 without its two
      identifier bytes. */
  lemma PublishQos0Shorter(topic: bytes, payload: bytes, qos: nat, mid: u16, props: Bag, v: Version)
    requires Packable(props) && qos > 0
    ensures |PublishBody(topic, payload, 0, mid, props, v)| + 2 == |PublishBody(topic, payload, qos, mid, props, v)|
  {
  }

  /** `PublishPacket.unpack`: flags, topic, identifier when QoS > 0,
      properties under MQTT 5.0, and the rest as payload. Errors become
      `None`. */
  function UnpackPublish(flags: byte, data: bytes, v: Version): (r: Option<Packet>)
    ensures r.Some? ==> r.value.Publish? && r.value.qos < 4 && (r.value.qos == 0 ==> r.value.mid == 0)
    ensures r.Some? ==> ValidUtf8(r.value.topic)
  {
    var qos := FlagsQos(flags);
    match DecodeUtf8(data, 0)
    case None => None
    case Some((topic, afterTopic)) =>
      match ReadMid(data, afterTopic, qos > 0)
      case None => None
      case Some((mid, afterMid)) =>
        match ReadProps(data, afterMid, v)
        case None => None
        case Some((props, afterProps)) =>
          Some(Publish(topic, Tail(data, afterProps), qos, FlagsRetain(flags), FlagsDup(flags), mid, props))
  }

  /** What a PUBLISH reads back as: the identifier is 0 at QoS 0, the
      properties are the known ones under MQTT 5.0 and none under 3.1.1. */
  function PublishSeen(topic: bytes, payload: bytes, qos: nat, retain: bool, dup: bool, mid: u16, props: Bag, v: Version): Packet
  {
    Publish(topic, payload, qos, retain, dup, if qos > 0 then mid else 0, if v == V5 then Known(props) else [])
  }

  /** A message whose fields fit the wire survives the round trip. */
  predicate PublishFits(topic: bytes, qos: nat, props: Bag)
  {
    |topic| <= 0xFFFF && ValidUtf8(topic) && qos < 4 &&
    Packable(props) && BagRoundTrips(props) && |BodyBytes(props)| <= MaxVarint
  }

  /** `s` occurs in itself at 0. */
  lemma AtWhole(s: bytes)
    ensures At(s, 0, s)
  {
    AtSlice(s, 0, s);
  }

  /** The round trip of `PublishPacket.pack` and `PublishPacket.unpack`. */
  lemma PublishRoundTrip(topic: bytes, payload: bytes, qos: nat, retain: bool, dup: bool, mid: u16, props: Bag, v: Version)
    requires PublishFits(topic, qos, props)
    ensures UnpackPublish(PublishFlags(dup, qos, retain), PublishBody(topic, payload, qos, mid, props, v), v)
         == Some(PublishSeen(topic, payload, qos, retain, dup, mid, props, v))
  {
    var data := PublishBody(topic, payload, qos, mid, props, v);
    var afterTopic, afterMid, afterProps := PublishFieldsRead(topic, payload, qos, mid, props, v, data);
    PublishFlagsRoundTrip(dup, qos, retain);
    var flags := PublishFlags(dup, qos, retain);
    UnpackPublishSteps(flags, data, v, topic, afterTopic, if qos > 0 then mid else 0, afterMid,
      if v == V5 then Known(props) else [], afterProps);
  }

  /** Each field of the body reads back in turn. */
  lemma PublishFieldsRead(topic: bytes, payload: bytes, qos: nat, mid: u16, props: Bag, v: Version, data: bytes)
    returns (afterTopic: nat, afterMid: nat, afterProps: nat)
    requires PublishFits(topic, qos, props) && data == PublishBody(topic, payload, qos, mid, props, v)
    ensures DecodeUtf8(data, 0) == Some((topic, afterTopic))
    ensures ReadMid(data, afterTopic, qos > 0) == Some((if qos > 0 then mid else 0, afterMid))
    ensures ReadProps(data, afterMid, v) == Some((if v == V5 then Known(props) else [], afterProps))
    ensures Tail(data, afterProps) == payload
  {
    afterTopic, afterMid, afterProps := PublishSplit(Prefixed(topic), if qos > 0 then Be16(mid) else [], PropsField(props, v), payload, data);
    PrefixedRoundTrip(topic, data, 0);
    ReadMidField(data, afterTopic, qos, mid, afterMid);
    ReadPropsField(data, afterMid, props, v, afterProps);
    AtSlice(data, afterProps, payload);
  }

  /** Four consecutive fields, each where the previous one ends. */
  lemma PublishSplit(t: bytes, m: bytes, p: bytes, payload: bytes, data: bytes)
    returns (afterTopic: nat, afterMid: nat, afterProps: nat)
    requires data == t + m + p + payload
    ensures At(data, 0, t) && At(data, afterTopic, m) && At(data, afterMid, p) && At(data, afterProps, payload)
    ensures afterTopic == |t| && afterMid == afterTopic + |m| && afterProps == afterMid + |p|
  {
    BytesAssoc(t + m, p, payload);
    BytesAssoc(t, m, p + payload);
    AtWhole(data);
    afterTopic := |t|;
    AtConcat(data, 0, data, t, m + (p + payload), afterTopic);
    afterMid := afterTopic + |m|;
    AtConcat(data, afterTopic, m + (p + payload), m, p + payload, afterMid);
    afterProps := afterMid + |p|;
    AtConcat(data, afterMid, p + payload, p, payload, afterProps);
  }

  /** `PublishPacket.unpack` once each field has been read. */
  lemma UnpackPublishSteps(flags: byte, data: bytes, v: Version, topic: bytes, afterTopic: nat,
                           mid: u16, afterMid: nat, props: Bag, afterProps: nat)
    requires DecodeUtf8(data, 0) == Some((topic, afterTopic))
    requires ReadMid(data, afterTopic, FlagsQos(flags) > 0) == Some((mid, afterMid))
    requires ReadProps(data, afterMid, v) == Some((props, afterProps))
    ensures UnpackPublish(flags, data, v)
         == Some(Publish(topic, Tail(data, afterProps), FlagsQos(flags), FlagsRetain(flags), FlagsDup(flags), mid, props))
  {
  }

  lemma ReadMidField(data: bytes, offset: nat, qos: nat, mid: u16, next: nat)
    requires At(data, offset, if qos > 0 then Be16(mid) else []) && next == offset + (if qos > 0 then 2 else 0)
    ensures ReadMid(data, offset, qos > 0) == Some((if qos > 0 then mid else 0, next))
  {
    if qos > 0 {
      AtIndex(data, offset, Be16(mid), 0);
      AtIndex(data, offset, Be16(mid), 1);
    }
  }

  lemma ReadPropsField(data: bytes, offset: nat, props: Bag, v: Version, next: nat)
    requires Packable(props) && BagRoundTrips(props) && |BodyBytes(props)| <= MaxVarint
    requires At(data, offset, PropsField(props, v)) && next == offset + |PropsField(props, v)|
    ensures v == V5 ==> ReadProps(data, offset, v) == Some((Known(props), next))
    ensures v == V311 ==> ReadProps(data, offset, v) == Some(([], next))
  {
    if v == V5 {
      var f := PackBag(props);
      assert PropsField(props, v) == f;
      AtSame(data, offset, PropsField(props, v), f);
      PackUnpackRoundTrip(props, data, offset, next);
      assert ReadProps(data, offset, v) == UnpackBag(data, offset);
    } else {
      assert PropsField(props, v) == [];
      assert ReadProps(data, offset, v) == Some(([], offset));
    }
  }

  // ---------------------------------------------------------------------
  // PUBACK, PUBREC, PUBREL, PUBCOMP

  function AckType(k: AckKind): byte
  {
    match k
    case PubAck => PUBACK
    case PubRec => PUBREC
    case PubRel => PUBREL
    case PubComp => PUBCOMP
  }

  /** PUBREL carries the fixed flags 0b0010; the other three none. */
  function AckFlags(k: AckKind): byte
  {
    if k == PubRel then 0x02 else 0
  }

  /** The `pack` of the four acknowledgements: the identifier, and under
      MQTT 5.0 the reason code and the properties. */
  function AckBody(mid: u16, code: byte, props: Bag, v: Version): bytes
    requires Packable(props)
  {
    Be16(mid) + (if v == V5 then [code] + PackBag(props) else [])
  }

  /** The `unpack` of the four acknowledgements: a missing reason code is
      SUCCESS and missing properties are none; MQTT 3.1.1 reads only the
      identifier. The source raises on fewer than two bytes. */
  function UnpackAck(kind: AckKind, data: bytes, v: Version): (r: Option<Packet>)
    ensures r.None? ==> |data| < 2 || (v != V311 && |data| > 3 && UnpackBag(data, 3).None?)
    ensures |data| == 2 ==> r == Some(Ack(kind, Be16Value(data[0], data[1]), SUCCESS, []))
    ensures r.Some? ==> |data| >= 2 && r.value.Ack? && r.value.kind == kind && r.value.mid == Be16Value(data[0], data[1])
  {
    if |data| < 2 then None
    else
      var mid := Be16Value(data[0], data[1]);
      if v == V311 || |data| == 2 then Some(Ack(kind, mid, SUCCESS, []))
      else if |data| == 3 then Some(Ack(kind, mid, data[2], []))
      else
        match UnpackBag(data, 3)
        case None => None
        case Some((props, _)) => Some(Ack(kind, mid, data[2], props))
  }

  /** An acknowledgement reads back as written; MQTT 3.1.1 has no code and
      no properties, so SUCCESS and none come back. */
  lemma AckRoundTrip(kind: AckKind, mid: u16, code: byte, props: Bag, v: Version)
    requires Packable(props) && BagRoundTrips(props) && |BodyBytes(props)| <= MaxVarint
    ensures UnpackAck(kind, AckBody(mid, code, props, v), v)
         == Some(if v == V5 then Ack(kind, mid, code, Known(props)) else Ack(kind, mid, SUCCESS, []))
  {
    if v == V5 {
      var data := AckBody(mid, code, props, v);
      var block := PackBag(props);
      assert data == (Be16(mid) + [code]) + block;
      AtWhole(data);
      AtConcat(data, 0, data, Be16(mid) + [code], block, 3);
      PackUnpackRoundTrip(props, data, 3, 3 + |block|);
      PackBagNonEmpty(props);
      assert data[2] == code;
    }
  }

  /** A property block is at least its one-byte length. */
  lemma PackBagNonEmpty(b: Bag)
    requires Packable(b)
    ensures |PackBag(b)| >= 1
  {
    PackBagShape(b);
    assert |VarintBytes(|BodyBytes(b)|)| >= 1;
  }

  // ---------------------------------------------------------------------
  // CONNECT

  /** The connect flags of section 3.1.2.3 of MQTT v5.0 as
      `ConnectPacket.pack` ORs them together: clean start 0x02, will 0x04,
      `(will_qos & 3) << 3`, will retain 0x20, user name 0x80, password
      0x40. The will bits are set only with a will. */
  function ConnectFlags(cleanStart: bool, will: bool, willQos: nat, willRetain: bool, username: bool, password: bool): bv8
  {
    var f: bv8 := if cleanStart then 0x02 else 0;
    var f := if will then f | 0x04 | ((willQos % 4) as bv8 << 3) | (if willRetain then 0x20 else 0) else f;
    var f := if username then f | 0x80 else f;
    if password then f | 0x40 else f
  }

  /** Each flag can be read back from its own bits, and the reserved bit 0
      is clear. */
  lemma ConnectFlagBits(cleanStart: bool, will: bool, willQos: nat, willRetain: bool, username: bool, password: bool)
    ensures var f := ConnectFlags(cleanStart, will, willQos, willRetain, username, password);
      f & 0x01 == 0 &&
      (f & 0x02 != 0 <==> cleanStart) &&
      (f & 0x04 != 0 <==> will) &&
      ((f >> 3) & 0x03) as int == (if will then willQos % 4 else 0) &&
      (f & 0x20 != 0 <==> will && willRetain) &&
      (f & 0x40 != 0 <==> password) &&
      (f & 0x80 != 0 <==> username)
  {
    var q := willQos % 4;
    if q == 0 {
    } else if q == 1 {
    } else if q == 2 {
    } else {
    }
  }

  /** The protocol name "MQTT" as `_encode_utf8` writes it. */
  const ProtocolName: bytes := [0x00, 0x04, 0x4D, 0x51, 0x54, 0x54]

  /** Protocol name, level (5 or 4), connect flags and keep alive. */
  function ConnectHead(c: Packet, v: Version): (r: bytes)
    requires c.Connect?
    ensures |r| == 10
  {
    ProtocolName + [if v == V5 then 0x05 else 0x04] +
    [ConnectFlags(c.cleanStart, c.willTopic != [], c.willQos, c.willRetain, c.username != [], c.password != []) as byte] +
    Be16(c.keepalive)
  }

  /** The will payload field: `_encode_binary` of a non-empty payload, two
      zero bytes for an empty one. */
  function WillPayloadField(payload: bytes): bytes
  {
    if payload != [] then Prefixed(payload) else Be16(0)
  }

  /** Both branches write the same thing: a two-byte length and the bytes. */
  lemma WillPayloadPrefixed(payload: bytes)
    ensures WillPayloadField(payload) == Prefixed(payload)
  {
    if payload == [] {
      var z := Be16(0);
      assert Low16(|payload|) == 0;
      assert Prefixed(payload) == z + payload;
      assert z + payload == z;
    }
  }

  /** The will properties, topic and payload, present with a will topic. */
  function WillField(willTopic: bytes, willPayload: bytes, willProps: Bag, v: Version): bytes
    requires Packable(willProps)
  {
    if willTopic != [] then PropsField(willProps, v) + Prefixed(willTopic) + WillPayloadField(willPayload)
    else []
  }

  /** The payload: client identifier, will, user name and password. */
  function ConnectPayload(c: Packet, v: Version): bytes
    requires c.Connect? && Packable(c.willProps)
  {
    Prefixed(c.clientId) +
    WillField(c.willTopic, c.willPayload, c.willProps, v) +
    (if c.username != [] then Prefixed(c.username) else []) +
    (if c.password != [] then Prefixed(c.password) else [])
  }

  /** `ConnectPacket.pack`'s variable header and payload. */
  function ConnectBody(c: Packet, v: Version): bytes
    requires c.Connect? && Packable(c.props) && Packable(c.willProps)
  {
    ConnectHead(c, v) + PropsField(c.props, v) + ConnectPayload(c, v)
  }

  /** The first ten bytes of a CONNECT body: protocol name, level (5 or 4),
      connect flags and keep alive, and the client identifier follows. */
  lemma ConnectLayout(c: Packet, v: Version)
    requires c.Connect? && Packable(c.props) && Packable(c.willProps)
    ensures var body := ConnectBody(c, v);
      |body| >= 12 + |c.clientId| && body[..6] == ProtocolName &&
      body[6] == (if v == V5 then 5 else 4) &&
      body[7] == ConnectFlags(c.cleanStart, c.willTopic != [], c.willQos, c.willRetain, c.username != [], c.password != []) as byte &&
      Be16Value(body[8], body[9]) == c.keepalive
  {
    var head := ConnectHead(c, v);
    var body := ConnectBody(c, v);
    assert body[..10] == head;
    assert body[..6] == head[..6];
    assert head[6] == body[6] && head[7] == body[7] && head[8] == body[8] && head[9] == body[9];
  }

  // ---------------------------------------------------------------------
  // CONNACK

  /** `ConnackPacket.unpack`: bit 0 of the first byte is session present,
      the second byte the reason code, and properties follow when bytes
      remain, whatever the protocol version. */
  function UnpackConnAck(data: bytes): (r: Option<Packet>)
    ensures r.None? ==> |data| < 2 || |data| > 2
    ensures |data| == 2 ==> r == Some(ConnAck(data[0] % 2 == 1, data[1], []))
  {
    if |data| < 2 then None
    else if |data| == 2 then Some(ConnAck(data[0] % 2 == 1, data[1], []))
    else
      match UnpackBag(data, 2)
      case None => None
      case Some((props, _)) => Some(ConnAck(data[0] % 2 == 1, data[1], props))
  }

  // ---------------------------------------------------------------------
  // SUBSCRIBE, SUBACK, UNSUBSCRIBE, UNSUBACK

  /** One topic filter and its option byte: the options of a triple under
      MQTT 5.0, `qos & 3` otherwise. */
  function SubItemBytes(s: SubItem, v: Version): bytes
  {
    Prefixed(s.filter) + [SubOptions(s, v)]
  }

  function SubOptions(s: SubItem, v: Version): byte
  {
    if v == V5 && s.options.Some? then s.options.value else s.qos % 4
  }

  function SubItemsBytes(subs: seq<SubItem>, v: Version): bytes
  {
    if subs == [] then [] else SubItemBytes(subs[0], v) + SubItemsBytes(subs[1..], v)
  }

  function UnsubItemsBytes(filters: seq<bytes>): bytes
  {
    if filters == [] then [] else Prefixed(filters[0]) + UnsubItemsBytes(filters[1..])
  }

  lemma {:induction false} SubItemsBytesSnoc(subs: seq<SubItem>, i: nat, v: Version)
    requires i < |subs|
    ensures SubItemsBytes(subs[..i + 1], v) == SubItemsBytes(subs[..i], v) + SubItemBytes(subs[i], v)
    decreases i
  {
    if i > 0 {
      assert subs[..i + 1][1..] == subs[1..][..i];
      assert subs[..i][1..] == subs[1..][..i - 1];
      SubItemsBytesSnoc(subs[1..], i - 1, v);
    }
  }

  lemma {:induction false} UnsubItemsBytesSnoc(filters: seq<bytes>, i: nat)
    requires i < |filters|
    ensures UnsubItemsBytes(filters[..i + 1]) == UnsubItemsBytes(filters[..i]) + Prefixed(filters[i])
    decreases i
  {
    if i > 0 {
      assert filters[..i + 1][1..] == filters[1..][..i];
      assert filters[..i][1..] == filters[1..][..i - 1];
      UnsubItemsBytesSnoc(filters[1..], i - 1);
    }
  }

  /** Every filter takes its prefixed bytes and one option byte. */
  lemma {:induction false} SubItemsLength(subs: seq<SubItem>, v: Version)
    ensures |SubItemsBytes(subs, v)| >= 3 * |subs|
  {
    if subs != [] {
      SubItemsLength(subs[1..], v);
    }
  }

  /** `SubscribePacket.pack`: identifier, properties, then the loop over
      the topic filters; the fixed header carries flags 0x02. */
  method PackSubscribe(mid: u16, subs: seq<SubItem>, props: Bag, v: Version) returns (r: bytes)
    requires Packable(props)
    ensures var body := Be16(mid) + PropsField(props, v) + SubItemsBytes(subs, v);
      r == FixedHeader(SUBSCRIBE, 0x02, |body|) + body
  {
    var header := Be16(mid) + PropsField(props, v);
    var payload: bytes := [];
    var i := 0;
    while i < |subs|
      invariant i <= |subs| && payload == SubItemsBytes(subs[..i], v)
    {
      var s := subs[i];
      var options: byte := if v == V5 && s.options.Some? then s.options.value else s.qos % 4;
      var item := Prefixed(s.filter) + [options];
      assert item == SubItemBytes(s, v);
      SubItemsBytesSnoc(subs, i, v);
      payload := payload + item;
      i := i + 1;
    }
    assert subs[..|subs|] == subs;
    var packet := header + payload;
    r := FixedHeader(SUBSCRIBE, 0x02, |packet|) + packet;
  }

  /** `UnsubscribePacket.pack`: identifier, properties, then the topic
      filters; the fixed header carries flags 0x02. */
  method PackUnsubscribe(mid: u16, filters: seq<bytes>, props: Bag, v: Version) returns (r: bytes)
    requires Packable(props)
    ensures var body := Be16(mid) + PropsField(props, v) + UnsubItemsBytes(filters);
      r == FixedHeader(UNSUBSCRIBE, 0x02, |body|) + body
  {
    var header := Be16(mid) + PropsField(props, v);
    var payload: bytes := [];
    var i := 0;
    while i < |filters|
      invariant i <= |filters| && payload == UnsubItemsBytes(filters[..i])
    {
      payload := payload + Prefixed(filters[i]);
      UnsubItemsBytesSnoc(filters, i);
      i := i + 1;
    }
    assert filters[..|filters|] == filters;
    var packet := header + payload;
    r := FixedHeader(UNSUBSCRIBE, 0x02, |packet|) + packet;
  }

  /** How the receiving broker reads a SUBSCRIBE payload: a prefixed
      filter and its option byte, again and again until the data ends. */
  function ReadSubItems(data: bytes, offset: nat): Option<seq<(bytes, byte)>>
    decreases |data| - offset
  {
    if offset >= |data| then Some([])
    else
      match DecodeBinary(data, offset)
      case None => None
      case Some((f, next)) =>
        if next >= |data| then None
        else
          match ReadSubItems(data, next + 1)
          case None => None
          case Some(rest) => Some([(f, data[next])] + rest)
  }

  /** How the receiving broker reads an UNSUBSCRIBE payload: prefixed
      filters until the data ends. */
  function ReadUnsubItems(data: bytes, offset: nat): Option<seq<bytes>>
    decreases |data| - offset
  {
    if offset >= |data| then Some([])
    else
      match DecodeBinary(data, offset)
      case None => None
      case Some((f, next)) =>
        match ReadUnsubItems(data, next)
        case None => None
        case Some(rest) => Some([f] + rest)
  }

  /** The filters `subscribe` writes, each with the option byte it asked
      for, are what a receiver reads back, in order, when every filter
      fits its 16-bit length. */
  lemma {:induction false} SubItemsReadBack(subs: seq<SubItem>, v: Version, data: bytes, offset: nat)
    requires forall k :: 0 <= k < |subs| ==> |subs[k].filter| <= 0xFFFF
    requires At(data, offset, SubItemsBytes(subs, v)) && |data| == offset + |SubItemsBytes(subs, v)|
    ensures var r := ReadSubItems(data, offset);
      r.Some? && |r.value| == |subs| &&
      forall k :: 0 <= k < |subs| ==> r.value[k] == (subs[k].filter, SubOptions(subs[k], v))
    decreases |subs|
  {
    if subs == [] {
      AtSlice(data, offset, []);
    } else {
      var s := subs[0];
      var item := SubItemBytes(s, v);
      var next := offset + 2 + |s.filter|;
      var after := offset + |item|;
      AtConcat(data, offset, SubItemsBytes(subs, v), item, SubItemsBytes(subs[1..], v), after);
      AtConcat(data, offset, item, Prefixed(s.filter), [SubOptions(s, v)], next);
      PrefixedRoundTrip(s.filter, data, offset);
      AtIndex(data, next, [SubOptions(s, v)], 0);
      SubItemsReadBack(subs[1..], v, data, after);
      SubItemsLength(subs, v);
      var rest := ReadSubItems(data, after).value;
      assert ReadSubItems(data, offset) == Some([(s.filter, SubOptions(s, v))] + rest);
    }
  }

  /** The filters `unsubscribe` writes are what a receiver reads back, in
      order, when every filter fits its 16-bit length. */
  lemma {:induction false} UnsubItemsReadBack(filters: seq<bytes>, data: bytes, offset: nat)
    requires forall k :: 0 <= k < |filters| ==> |filters[k]| <= 0xFFFF
    requires At(data, offset, UnsubItemsBytes(filters)) && |data| == offset + |UnsubItemsBytes(filters)|
    ensures ReadUnsubItems(data, offset) == Some(filters)
    decreases |filters|
  {
    if filters != [] {
      var f := filters[0];
      var after := offset + 2 + |f|;
      AtConcat(data, offset, UnsubItemsBytes(filters), Prefixed(f), UnsubItemsBytes(filters[1..]), after);
      PrefixedRoundTrip(f, data, offset);
      UnsubItemsReadBack(filters[1..], data, after);
      assert [f] + filters[1..] == filters;
    }
  }

  /** A SUBSCRIBE body opens with the packet identifier, and behind the
      properties a receiver reads back every filter with its options. */
  lemma SubscribeLayout(mid: u16, subs: seq<SubItem>, props: Bag, v: Version)
    requires Packable(props)
    requires forall k :: 0 <= k < |subs| ==> |subs[k].filter| <= 0xFFFF
    ensures var body := Be16(mid) + PropsField(props, v) + SubItemsBytes(subs, v);
      Be16Value(body[0], body[1]) == mid &&
      var r := ReadSubItems(body, 2 + |PropsField(props, v)|);
      r.Some? && |r.value| == |subs| &&
      forall k :: 0 <= k < |subs| ==> r.value[k] == (subs[k].filter, SubOptions(subs[k], v))
  {
    var head := Be16(mid) + PropsField(props, v);
    var items := SubItemsBytes(subs, v);
    var body := head + items;
    assert body[..2] == Be16(mid);
    assert body[|head|..|head| + |items|] == items;
    AtSlice(body, |head|, items);
    SubItemsReadBack(subs, v, body, |head|);
  }

  /** An UNSUBSCRIBE body opens with the packet identifier, and behind the
      properties a receiver reads back the filters. */
  lemma UnsubscribeLayout(mid: u16, filters: seq<bytes>, props: Bag, v: Version)
    requires Packable(props)
    requires forall k :: 0 <= k < |filters| ==> |filters[k]| <= 0xFFFF
    ensures var body := Be16(mid) + PropsField(props, v) + UnsubItemsBytes(filters);
      Be16Value(body[0], body[1]) == mid &&
      ReadUnsubItems(body, 2 + |PropsField(props, v)|) == Some(filters)
  {
    var head := Be16(mid) + PropsField(props, v);
    var items := UnsubItemsBytes(filters);
    var body := head + items;
    assert body[..2] == Be16(mid);
    assert body[|head|..|head| + |items|] == items;
    AtSlice(body, |head|, items);
    UnsubItemsReadBack(filters, body, |head|);
  }

  /** The loop of `SubackPacket.unpack` and `UnsubackPacket.unpack`: one
      code per byte left after the properties. */
  method ReadCodes(data: bytes, offset: nat) returns (codes: bytes)
    ensures codes == Tail(data, offset)
    ensures |codes| == if offset <= |data| then |data| - offset else 0
  {
    codes := [];
    if offset >= |data| {
      return;
    }
    var pos := offset;
    while pos < |data|
      invariant offset <= pos <= |data| && codes == data[offset..pos]
    {
      codes := codes + [data[pos]];
      pos := pos + 1;
    }
  }

  /** `SubackPacket.unpack`: identifier, properties under MQTT 5.0, then
      one return code per remaining byte. */
  function UnpackSubAck(data: bytes, v: Version): (r: Option<Packet>)
    ensures r.Some? ==> r.value.SubAck? && |data| >= 2 && r.value.mid == Be16Value(data[0], data[1])
    ensures v == V311 && |data| >= 2 ==> r == Some(SubAck(Be16Value(data[0], data[1]), [], data[2..]))
  {
    if |data| < 2 then None
    else
      match ReadProps(data, 2, v)
      case None => None
      case Some((props, offset)) => Some(SubAck(Be16Value(data[0], data[1]), props, Tail(data, offset)))
  }

  /** `UnsubackPacket.unpack`: under MQTT 3.1.1 the reason codes stay
      empty, since that version's UNSUBACK has none. */
  function UnpackUnsubAck(data: bytes, v: Version): (r: Option<Packet>)
    ensures r.Some? ==> r.value.UnsubAck? && |data| >= 2 && r.value.mid == Be16Value(data[0], data[1])
    ensures v == V311 && |data| >= 2 ==> r == Some(UnsubAck(Be16Value(data[0], data[1]), [], []))
  {
    if |data| < 2 then None
    else if v == V311 then Some(UnsubAck(Be16Value(data[0], data[1]), [], []))
    else
      match UnpackBag(data, 2)
      case None => None
      case Some((props, offset)) => Some(UnsubAck(Be16Value(data[0], data[1]), props, Tail(data, offset)))
  }

  // ---------------------------------------------------------------------
  // PINGREQ, PINGRESP, DISCONNECT

  /** `DisconnectPacket.pack`'s body: nothing under MQTT 3.1.1. */
  function DisconnectBody(code: byte, props: Bag, v: Version): bytes
    requires Packable(props)
  {
    if v == V311 then [] else [code] + PackBag(props)
  }

  /** `DisconnectPacket.unpack`: MQTT 3.1.1 and an empty MQTT 5.0 body
      give NORMAL_DISCONNECTION; properties follow a reason code only when
      more bytes remain. */
  function UnpackDisconnect(data: bytes, v: Version): (r: Option<Packet>)
    ensures v == V311 || data == [] ==> r == Some(Disconnect(SUCCESS, []))
    ensures r.Some? ==> r.value.Disconnect?
    ensures r.Some? && v == V5 && data != [] ==> r.value.code == data[0]
  {
    if v == V311 || data == [] then Some(Disconnect(SUCCESS, []))
    else if |data| == 1 then Some(Disconnect(data[0], []))
    else
      match UnpackBag(data, 1)
      case None => None
      case Some((props, _)) => Some(Disconnect(data[0], props))
  }

  lemma DisconnectRoundTrip(code: byte, props: Bag, v: Version)
    requires Packable(props) && BagRoundTrips(props) && |BodyBytes(props)| <= MaxVarint
    ensures UnpackDisconnect(DisconnectBody(code, props, v), v)
         == Some(if v == V5 then Disconnect(code, Known(props)) else Disconnect(SUCCESS, []))
  {
    if v == V5 {
      var data := DisconnectBody(code, props, v);
      var block := PackBag(props);
      AtWhole(data);
      AtConcat(data, 0, data, [code], block, 1);
      PackUnpackRoundTrip(props, data, 1, 1 + |block|);
      PackBagNonEmpty(props);
    }
  }

  // ---------------------------------------------------------------------
  // Packing any packet the client sends

  predicate PackableProps(p: Packet)
  {
    (p.Connect? ==> Packable(p.props) && Packable(p.willProps)) &&
    (p.Publish? || p.Ack? || p.Subscribe? || p.Unsubscribe? || p.Disconnect? ==> Packable(p.props))
  }

  /** The body the `pack` method of the packet's class writes. */
  function Body(p: Packet, v: Version): bytes
    requires PackableProps(p)
  {
    match p
    case Connect(_, _, _, _, _, _, _, _, _, _, _) => ConnectBody(p, v)
    case Publish(topic, payload, qos, _, _, mid, props) => PublishBody(topic, payload, qos, mid, props, v)
    case Ack(_, mid, code, props) => AckBody(mid, code, props, v)
    case Subscribe(mid, subs, props) => Be16(mid) + PropsField(props, v) + SubItemsBytes(subs, v)
    case Unsubscribe(mid, filters, props) => Be16(mid) + PropsField(props, v) + UnsubItemsBytes(filters)
    case Disconnect(code, props) => DisconnectBody(code, props, v)
    case _ => []
  }

  /** The type and flags `_pack_fixed_header` gets. */
  function HeaderOf(p: Packet): (byte, byte)
  {
    match p
    case Connect(_, _, _, _, _, _, _, _, _, _, _) => (CONNECT, 0)
    case ConnAck(_, _, _) => (CONNACK, 0)
    case Publish(_, _, qos, retain, dup, _, _) => (PUBLISH, PublishFlags(dup, qos, retain))
    case Ack(kind, _, _, _) => (AckType(kind), AckFlags(kind))
    case Subscribe(_, _, _) => (SUBSCRIBE, 0x02)
    case SubAck(_, _, _) => (SUBACK, 0)
    case Unsubscribe(_, _, _) => (UNSUBSCRIBE, 0x02)
    case UnsubAck(_, _, _) => (UNSUBACK, 0)
    case PingReq => (PINGREQ, 0)
    case PingResp => (PINGRESP, 0)
    case Disconnect(_, _) => (DISCONNECT, 0)
  }

  /** The packets that have a `pack` method; the others raise
      `NotImplementedError` from the base class. */
  predicate Sendable(p: Packet)
  {
    p.Connect? || p.Publish? || p.Ack? || p.Subscribe? || p.Unsubscribe? || p.PingReq? || p.Disconnect?
  }

  /** `pack()` of any packet. */
  function Pack(p: Packet, v: Version): (r: Option<bytes>)
    requires PackableProps(p)
    ensures r.Some? <==> Sendable(p)
    ensures r.Some? ==> r.value == FixedHeader(HeaderOf(p).0, HeaderOf(p).1, |Body(p, v)|) + Body(p, v)
  {
    if Sendable(p) then
      var body := Body(p, v);
      Some(FixedHeader(HeaderOf(p).0, HeaderOf(p).1, |body|) + body)
    else None
  }

  /** `PublishPacket.pack` through the dispatch. */
  lemma PackPublish(topic: bytes, payload: bytes, qos: nat, retain: bool, dup: bool, mid: u16, props: Bag, v: Version)
    returns (sent: bytes)
    requires Packable(props)
    ensures Pack(Publish(topic, payload, qos, retain, dup, mid, props), v) == Some(sent)
    ensures var body := PublishBody(topic, payload, qos, mid, props, v);
      sent == FixedHeader(PUBLISH, PublishFlags(dup, qos, retain), |body|) + body
  {
    sent := Pack(Publish(topic, payload, qos, retain, dup, mid, props), v).value;
  }

  /** The `pack` of the acknowledgements through the dispatch. */
  lemma PackAck(kind: AckKind, mid: u16, code: byte, props: Bag, v: Version) returns (sent: bytes)
    requires Packable(props)
    ensures Pack(Ack(kind, mid, code, props), v) == Some(sent)
    ensures var body := AckBody(mid, code, props, v);
      sent == FixedHeader(AckType(kind), AckFlags(kind), |body|) + body
  {
    sent := Pack(Ack(kind, mid, code, props), v).value;
  }

  /** PINGREQ is two bytes: its type and a zero remaining length. */
  lemma PingReqBytes(v: Version)
    ensures Pack(PingReq, v) == Some([0xC0, 0x00])
  {
    assert HeaderOf(PingReq) == (PINGREQ, 0) && Body(PingReq, v) == [];
    assert FixedHeader(PINGREQ, 0, 0) == [0xC0, 0x00];
    assert FixedHeader(PINGREQ, 0, 0) + [] == [0xC0, 0x00];
  }

  /** DISCONNECT under MQTT 3.1.1 is two bytes, whatever its reason code
      and properties. */
  lemma DisconnectV311Bytes(code: byte, props: Bag)
    requires Packable(props)
    ensures Pack(Disconnect(code, props), V311) == Some([0xE0, 0x00])
  {
    var p := Disconnect(code, props);
    assert HeaderOf(p) == (DISCONNECT, 0) && Body(p, V311) == [];
    assert FixedHeader(DISCONNECT, 0, 0) == [0xE0, 0x00];
    assert FixedHeader(DISCONNECT, 0, 0) + [] == [0xE0, 0x00];
  }

  /** The first byte of a packed packet is its header byte. */
  lemma PackFirstByte(p: Packet, v: Version)
    requires PackableProps(p) && Sendable(p)
    ensures Pack(p, v).value[0] == HeaderByte(HeaderOf(p).0, HeaderOf(p).1)
  {
    var h := HeaderOf(p);
    var b := Body(p, v);
    assert Pack(p, v).value == FixedHeader(h.0, h.1, |b|) + b;
  }

  /** The packed first byte carries the packet's flags in its low nibble. */
  lemma FixedFlags(p: Packet, v: Version)
    requires PackableProps(p) && Sendable(p)
    ensures FlagBits(Pack(p, v).value[0]) == HeaderOf(p).1
  {
    var h := HeaderOf(p);
    FlagsNibble(p);
    HeaderNibble(h.0, h.1);
    PackFirstByte(p, v);
  }

  lemma HeaderNibble(t: byte, f: byte)
    requires f < 16
    ensures FlagBits(HeaderByte(t, f)) == f
  {
  }

  lemma FlagsNibble(p: Packet)
    ensures HeaderOf(p).1 < 16
  {
    if p.Publish? {
      PublishFlagsRoundTrip(p.dup, p.qos, p.retain);
    }
  }

  /** The flags a packet's `__init__` gives it: SUBSCRIBE, UNSUBSCRIBE and
      PUBREL the reserved 0b0010 of section 2.1.3 of MQTT v5.0, PUBLISH its
      own, the others none. */
  lemma HeaderFlags(p: Packet)
    ensures HeaderOf(p).1 ==
      if p.Publish? then PublishFlags(p.dup, p.qos, p.retain)
      else if p.Subscribe? || p.Unsubscribe? || (p.Ack? && p.kind == PubRel) then 2 else 0
  {
    if p.Publish? {
      PublishFlagsRoundTrip(p.dup, p.qos, p.retain);
    }
  }

  // ---------------------------------------------------------------------
  // Dispatch on the received type

  /** `decode_packet_data`: the packets a client receives; any other type
      is `None`. */
  function DecodePacket(ptype: byte, flags: byte, data: bytes, v: Version): (r: Option<Packet>)
    ensures r.Some? ==> ptype in {CONNACK, PUBLISH, PUBACK, PUBREC, PUBREL, PUBCOMP, SUBACK, UNSUBACK, PINGRESP, DISCONNECT}
    ensures ptype == PINGRESP ==> r == Some(PingResp)
  {
    if ptype == CONNACK then UnpackConnAck(data)
    else if ptype == PUBLISH then UnpackPublish(flags, data, v)
    else if ptype == PUBACK then UnpackAck(PubAck, data, v)
    else if ptype == PUBREC then UnpackAck(PubRec, data, v)
    else if ptype == PUBREL then UnpackAck(PubRel, data, v)
    else if ptype == PUBCOMP then UnpackAck(PubComp, data, v)
    else if ptype == SUBACK then UnpackSubAck(data, v)
    else if ptype == UNSUBACK then UnpackUnsubAck(data, v)
    else if ptype == PINGRESP then Some(PingResp)
    else if ptype == DISCONNECT then UnpackDisconnect(data, v)
    else None
  }

  /** PUBLISH dispatches to `PublishPacket.unpack` with the flags nibble. */
  lemma DecodePublish(flags: byte, data: bytes, v: Version)
    ensures DecodePacket(PUBLISH, flags, data, v) == UnpackPublish(flags, data, v)
  {
  }

  /** The header byte of a PUBLISH carries its type and its flags. */
  lemma PublishHeader(flags: byte)
    requires flags < 16
    ensures TypeBits(HeaderByte(PUBLISH, flags)) == PUBLISH && FlagBits(HeaderByte(PUBLISH, flags)) == flags
  {
  }

  /** Each acknowledgement type dispatches to its own `unpack`, and its
      header byte carries that type. */
  lemma DecodeAck(kind: AckKind, flags: byte, data: bytes, v: Version)
    ensures TypeBits(AckType(kind)) == AckType(kind) && FlagBits(AckFlags(kind)) == AckFlags(kind)
    ensures DecodePacket(AckType(kind), flags, data, v) == UnpackAck(kind, data, v)
  {
  }

  /** A packet that can be decoded has the type it was dispatched on. */
  lemma DecodeKeepsType(ptype: byte, flags: byte, data: bytes, v: Version)
    requires DecodePacket(ptype, flags, data, v).Some?
    ensures HeaderOf(DecodePacket(ptype, flags, data, v).value).0 == ptype
  {
  }
}
