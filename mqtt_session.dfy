/** The session state machine of upaho/client.py. The socket is the
    `outbox` of packets the client has sent, and whether a send succeeds is
    a parameter of each operation; the clock is the `now` the caller passes
    in, in milliseconds; a callback is an `Event` appended to `events` when
    the corresponding `on_*` attribute is set.

    Each operation is a pure step on a `Session`, the value of the client's
    fields; the `Client` methods are proved to perform those steps. */
module MqttSession {
  import opened Wrappers
  import opened Bytes
  import opened MqttProperties
  import opened MqttPackets
  import opened MqttMessage
  import opened MqttTopics
  import opened MqttCodec

  // ReasonCode values of upaho/enums.py that the client returns.
  const NORMAL_DISCONNECTION: byte := 0x00
  const UNSPECIFIED_ERROR: byte := 0x80
  const PROTOCOL_ERROR: byte := 0x82
  const NOT_AUTHORIZED: byte := 0x87
  const KEEPALIVE_TIMEOUT: byte := 0x8D
  const NETWORK_ERROR: byte := 0xFF

  // ---------------------------------------------------------------------
  // Message identifiers

  /** `_get_next_mid` after `last`: identifiers run 1..65535 and never 0. */
  function NextMidAfter(last: nat): (r: u16)
    ensures r >= 1
  {
    last % 65535 + 1
  }

  /** The identifier after `k` calls. */
  function MidsFrom(last: nat, k: nat): nat
  {
    if k == 0 then last else NextMidAfter(MidsFrom(last, k - 1))
  }

  /** The `k`-th identifier in closed form: the generator counts on from
      `last` modulo 65535, wrapping from 65535 to 1. */
  lemma {:induction false} MidsClosedForm(last: nat, k: nat)
    requires k >= 1
    ensures MidsFrom(last, k) == (last + k - 1) % 65535 + 1
  {
    if k > 1 {
      MidsClosedForm(last, k - 1);
      ModSucc(last + k - 2);
    }
  }

  lemma ModSucc(x: nat)
    ensures (x % 65535 + 1) % 65535 == (x + 1) % 65535
  {
    var q, r := x / 65535, x % 65535;
    if r < 65534 {
      assert x + 1 == 65535 * q + (r + 1);
    } else {
      assert x + 1 == 65535 * (q + 1);
    }
  }

  lemma ModShift(x: nat, d: nat)
    requires d < 65535
    ensures x % 65535 + d < 65535 ==> (x + d) % 65535 == x % 65535 + d
    ensures x % 65535 + d >= 65535 ==> (x + d) % 65535 == x % 65535 + d - 65535
  {
    var q, r := x / 65535, x % 65535;
    if r + d < 65535 {
      assert x + d == 65535 * q + (r + d);
    } else {
      assert x + d == 65535 * (q + 1) + (r + d - 65535);
    }
  }

  /** Any 65535 consecutive identifiers are distinct ... */
  lemma MidsDistinct(last: nat, i: nat, j: nat)
    requires 1 <= i < j < i + 65535
    ensures MidsFrom(last, i) != MidsFrom(last, j)
  {
    MidsClosedForm(last, i);
    MidsClosedForm(last, j);
    ModShift(last + i - 1, j - i);
  }

  /** ... and the sequence repeats after 65535 calls. */
  lemma MidsPeriod(last: nat, k: nat)
    requires k >= 1
    ensures MidsFrom(last, k + 65535) == MidsFrom(last, k)
  {
    var x := last + k - 1;
    MidsClosedForm(last, k);
    MidsClosedForm(last, k + 65535);
    assert last + (k + 65535) - 1 == x + 65535;
    ModPeriod(x);
  }

  lemma ModPeriod(x: nat)
    ensures (x + 65535) % 65535 == x % 65535
  {
    var q, r := x / 65535, x % 65535;
    assert x + 65535 == 65535 * (q + 1) + r;
  }

  // ---------------------------------------------------------------------
  // Session

  /** The `on_*` attributes. */
  datatype Callback = OnConnect | OnDisconnect | OnMessage | OnPublish | OnSubscribe | OnUnsubscribe

  /** A callback invocation and its arguments. A message goes to the
      `message_callback_add` handler registered under `handler`, or to
      `on_message` when `handler` is `None`. */
  datatype Event =
    | Connected(code: byte, sessionPresent: Option<bool>)
    | Disconnected(code: byte)
    | Published(mid: u16)
    | Delivered(handler: Option<bytes>, mid: u16, topic: bytes, payload: bytes, qos: nat, retain: bool)
    | Subscribed(mid: u16, codes: bytes, props: Bag)
    | Unsubscribed(mid: u16, unsubProps: Option<Bag>, reasons: Option<bytes>)

  /** An entry of `_subscriptions`: the requested QoS and the properties. */
  datatype Subscription = Subscription(qos: nat, props: Bag)

  /** A received QoS 2 message held in `_in_packet` until its PUBREL. */
  datatype Stored = Stored(mid: u16, topic: bytes, payload: bytes, qos: nat, retain: bool, props: Bag)

  /** What the poll in `loop` (or the CONNACK read in `connect`) finds:
      nothing; `None` from `read_packet_from_socket`, which stands for a
      closed connection but also for a read that failed or timed out and
      for data that did not decode, since the reader catches every
      exception itself; a packet; or an exception that escapes the
      read-and-handle block. With the reader catching its own exceptions,
      that can only come from handling the packet (a callback that
      raises); in `connect` it marks the source's unreachable except
      branch. */
  datatype Arrival = Quiet | Closed | Incoming(p: Packet) | Failed

  /** What `subscribe` and `unsubscribe` return, or that they raised. */
  datatype Reply = Reply(rc: byte, mid: Option<u16>) | Raised

  /** The client's dictionaries: the outgoing flows waiting for an
      acknowledgement, the QoS 2 bookkeeping of both directions, the
      subscriptions and the message callbacks. The callback filters are
      kept in the order they were added; MicroPython's `dict` leaves its
      iteration order unspecified. */
  datatype Tables = Tables(
    inflight: map<u16, MessageInfo>,
    pubrecReceived: map<u16, MessageInfo>,
    pubrelSent: set<u16>,
    inPacket: map<u16, Stored>,
    subscriptions: map<bytes, Subscription>,
    callbacks: seq<bytes>)

  /** The client's mutable fields. */
  datatype Session = Session(
    connected: bool,
    keepalive: nat,
    installed: set<Callback>,
    outbox: seq<Packet>,
    events: seq<Event>,
    lastMid: nat,
    lastRecv: int,
    lastPing: int,
    pingPending: bool,
    tables: Tables,
    serverKeepalive: Option<nat>,
    serverMaxPacketSize: Option<nat>,
    topicAliasMax: nat,
    receiveMaximum: nat)

  /** No two entries of a list are equal. */
  predicate Distinct(ps: seq<bytes>)
  {
    forall i, j :: 0 <= i < j < |ps| ==> ps[i] != ps[j]
  }

  /** What the client keeps true of its fields: the last identifier is in
      range; every table entry of an outgoing flow is filed under its own
      nonzero identifier; a PUBREL is only recorded as sent for a flow
      whose PUBREC arrived; the message callbacks are a dictionary. */
  predicate SessionOk(s: Session)
  {
    s.lastMid <= 65535 &&
    0 !in s.tables.inflight &&
    (forall m :: m in s.tables.inflight ==> s.tables.inflight[m].mid == m) &&
    (forall m :: m in s.tables.pubrecReceived ==> s.tables.pubrecReceived[m].mid == m) &&
    s.tables.pubrelSent <= s.tables.pubrecReceived.Keys &&
    Distinct(s.tables.callbacks)
  }

  /** The state `Client.__init__` leaves. */
  function Initial(installed: set<Callback>): (s: Session)
    ensures SessionOk(s) && !s.connected && s.keepalive == 60 && !s.pingPending
  {
    Session(false, 60, installed, [], [], 0, 0, 0, false, Tables(map[], map[], {}, map[], map[], []),
            None, None, 0, 65535)
  }

  /** The callback `c` with event `e`, if it is set. */
  function Fire(s: Session, c: Callback, e: Event): seq<Event>
  {
    if c in s.installed then [e] else []
  }

  /** A send whose failure the source swallows. */
  function Send(s: Session, p: Packet, sendOk: bool): Session
  {
    if sendOk then s.(outbox := s.outbox + [p]) else s
  }

  /** The callback a message goes to: the first matching filter of
      `message_callback_add`, else `on_message`. */
  function Deliver(s: Session, m: Stored): seq<Event>
  {
    match FirstMatch(s.tables.callbacks, m.topic)
    case Some(f) => [Delivered(Some(f), m.mid, m.topic, m.payload, m.qos, m.retain)]
    case None => Fire(s, OnMessage, Delivered(None, m.mid, m.topic, m.payload, m.qos, m.retain))
  }

  // ---------------------------------------------------------------------
  // Steps

  /** The identifier `publish` uses. */
  function PublishMid(s: Session, qos: int): u16
  {
    if qos > 0 then NextMidAfter(s.lastMid) else 0
  }

  /** `publish` when connected and with a valid QoS; `info` is the new
      status object. */
  function PublishStep(s: Session, topic: bytes, payload: bytes, qos: nat, retain: bool, props: Bag,
                       sendOk: bool, info: MessageInfo): Session
  {
    var mid := PublishMid(s, qos);
    var s1 := if qos > 0 then s.(lastMid := mid) else s;
    if !sendOk then s1.(connected := false)
    else
      var s2 := s1.(outbox := s1.outbox + [Publish(topic, payload, qos, retain, false, mid, props)]);
      if qos == 0 then s2.(events := s2.events + Fire(s2, OnPublish, Published(0)))
      else s2.(tables := s2.tables.(inflight := s2.tables.inflight[mid := info]))
  }

  /** `_subscriptions[t] = (q, properties)` for each item, in order. */
  function Register(subs: map<bytes, Subscription>, items: seq<SubItem>, props: Bag): map<bytes, Subscription>
    decreases |items|
  {
    if items == [] then subs
    else
      var last := items[|items| - 1];
      Register(subs, items[..|items| - 1], props)[last.filter := Subscription(last.qos, props)]
  }

  /** The first item given as a `(topic, qos, options)` triple, which the
      two-name unpacking of the registration loop rejects. */
  function FirstTriple(items: seq<SubItem>): (r: nat)
    ensures r <= |items| && (r < |items| ==> items[r].options.Some?)
    ensures forall k :: 0 <= k < r ==> items[k].options.None?
  {
    if items == [] then 0
    else if items[0].options.Some? then 0
    else 1 + FirstTriple(items[1..])
  }

  /** `subscribe` on the normalised list of items. */
  function SubscribeStep(s: Session, items: seq<SubItem>, props: Bag, sendOk: bool): (Session, Reply)
  {
    if !s.connected then (s, Reply(NOT_AUTHORIZED, None))
    else
      var mid := NextMidAfter(s.lastMid);
      var s1 := s.(lastMid := mid);
      if !sendOk then (s1.(connected := false), Reply(UNSPECIFIED_ERROR, Some(mid)))
      else
        var n := FirstTriple(items);
        var s2 := s1.(outbox := s1.outbox + [Subscribe(mid, items, props)],
                      tables := s1.tables.(subscriptions := Register(s1.tables.subscriptions, items[..n], props)));
        (s2, if n < |items| then Raised else Reply(SUCCESS, Some(mid)))
  }

  /** `ps` without `t`. */
  function Drop(ps: seq<bytes>, t: bytes): (r: seq<bytes>)
    ensures forall p :: p in r <==> p in ps && p != t
  {
    if ps == [] then []
    else (if ps[0] == t then [] else [ps[0]]) + Drop(ps[1..], t)
  }

  /** `ps` without each of `fs`, removed in order. */
  function DropAll(ps: seq<bytes>, fs: seq<bytes>): seq<bytes>
    decreases |fs|
  {
    if fs == [] then ps else Drop(DropAll(ps, fs[..|fs| - 1]), fs[|fs| - 1])
  }

  /** The elements of a list. */
  function Elements(fs: seq<bytes>): set<bytes>
  {
    set f | f in fs
  }

  /** `unsubscribe` on the list of filters. */
  function UnsubscribeStep(s: Session, filters: seq<bytes>, props: Bag, sendOk: bool): (Session, Reply)
  {
    if !s.connected then (s, Reply(NOT_AUTHORIZED, None))
    else
      var mid := NextMidAfter(s.lastMid);
      var s1 := s.(lastMid := mid);
      if !sendOk then (s1.(connected := false), Reply(UNSPECIFIED_ERROR, Some(mid)))
      else
        (s1.(outbox := s1.outbox + [Unsubscribe(mid, filters, props)],
             tables := s1.tables.(subscriptions := s1.tables.subscriptions - Elements(filters),
                                  callbacks := DropAll(s1.tables.callbacks, filters))),
         Reply(SUCCESS, Some(mid)))
  }

  /** `message_callback_add`: a new filter goes last; an existing one keeps
      its place. */
  function CallbackAddStep(s: Session, f: bytes): Session
  {
    if f in s.tables.callbacks then s else s.(tables := s.tables.(callbacks := s.tables.callbacks + [f]))
  }

  /** `message_callback_remove`. */
  function CallbackRemoveStep(s: Session, f: bytes): Session
  {
    s.(tables := s.tables.(callbacks := Drop(s.tables.callbacks, f)))
  }

  /** `disconnect`: when connected, a DISCONNECT (NORMAL_DISCONNECTION by
      default) whose send may fail, then the connection is down. */
  function DisconnectStep(s: Session, code: Option<byte>, props: Bag, sendOk: bool): (Session, byte)
  {
    if !s.connected then (s, SUCCESS)
    else
      var c := if code.Some? then code.value else NORMAL_DISCONNECTION;
      var s1 := Send(s, Disconnect(c, props), sendOk);
      (s1.(connected := false, events := s1.events + Fire(s1, OnDisconnect, Disconnected(c))), SUCCESS)
  }

  /** A numeric property value. */
  function Number(v: PropValue): nat
  {
    match v
    case PByte(b) => b
    case PU16(h) => h
    case PU32(w) => w
    case PVarint(n) => n
    case _ => 0
  }

  /** The numeric value of a CONNACK property, if the broker sent it. */
  function Cap(props: Bag, id: byte): Option<nat>
  {
    match Lookup(props, id)
    case Some(v) => Some(Number(v))
    case None => None
  }

  /** A server keep alive replaces the client's. */
  function KeepAliveCap(s: Session, props: Bag): Session
  {
    match Cap(props, SERVER_KEEP_ALIVE)
    case Some(v) => s.(serverKeepalive := Some(v), keepalive := v)
    case None => s
  }

  /** The broker's maximum packet size is recorded. */
  function MaxPacketCap(s: Session, props: Bag): Session
  {
    match Cap(props, MAXIMUM_PACKET_SIZE)
    case Some(v) => s.(serverMaxPacketSize := Some(v))
    case None => s
  }

  /** The broker's topic alias maximum is recorded. */
  function AliasMaxCap(s: Session, props: Bag): Session
  {
    match Cap(props, TOPIC_ALIAS_MAXIMUM)
    case Some(v) => s.(topicAliasMax := v)
    case None => s
  }

  /** The broker's receive maximum is recorded. */
  function ReceiveMaxCap(s: Session, props: Bag): Session
  {
    match Cap(props, RECEIVE_MAXIMUM)
    case Some(v) => s.(receiveMaximum := v)
    case None => s
  }

  /** `_process_connack_properties`: the four properties in turn. */
  function ServerCaps(s: Session, props: Bag): Session
  {
    ReceiveMaxCap(AliasMaxCap(MaxPacketCap(KeepAliveCap(s, props), props), props), props)
  }

  /** What `connect` sends, from the settings made before it. An empty
      `username`, `password` or `willTopic` stands for `None`. */
  datatype Config = Config(protocol: Version, clientId: bytes, cleanStart: bool, username: bytes, password: bytes,
                           willTopic: bytes, willPayload: bytes, willQos: nat, willRetain: bool,
                           connectProps: Bag, willProps: Bag)

  /** The CONNECT packet `connect` builds. */
  function ConnectPacket(c: Config, keepalive: u16): Packet
  {
    Connect(c.clientId, c.cleanStart, keepalive, c.username, c.password, c.willTopic, c.willPayload,
            c.willQos, c.willRetain, c.connectProps, c.willProps)
  }

  /** `connect` once the broker's address is looked up: `sendOk` says
      whether the lookup and the TCP connection succeeded and the CONNECT
      went out, `reply` what reading the CONNACK gave. The CONNECT carries
      the keep alive's low sixteen bits, as MicroPython's `struct.pack('!H', …)`
      keeps them, while the client goes on timing with the full value. */
  function ConnectStep(s: Session, config: Config, keepalive: nat, sendOk: bool, reply: Arrival, now: int): (Session, byte)
  {
    var s1 := s.(keepalive := keepalive);
    if !sendOk then Answered(s1, NETWORK_ERROR, None)
    else ConnAckStep(s1.(outbox := s1.outbox + [ConnectPacket(config, Low16(keepalive))]), config.protocol, reply, now)
  }

  /** `on_connect` with a result, which `connect` also returns. */
  function Answered(s: Session, code: byte, sessionPresent: Option<bool>): (Session, byte)
  {
    (s.(events := s.events + Fire(s, OnConnect, Connected(code, sessionPresent))), code)
  }

  /** The checks on what came back after the CONNECT. */
  function ConnAckStep(s: Session, v: Version, reply: Arrival, now: int): (Session, byte)
  {
    if reply.Failed? then Answered(s, UNSPECIFIED_ERROR, None)
    else if !reply.Incoming? || !reply.p.ConnAck? then Answered(s, PROTOCOL_ERROR, None)
    else if reply.p.code != SUCCESS then Answered(s, reply.p.code, Some(reply.p.sessionPresent))
    else
      var s1 := s.(connected := true, lastRecv := now);
      Answered(if v == V5 then ServerCaps(s1, reply.p.props) else s1, SUCCESS, Some(reply.p.sessionPresent))
  }

  /** `_handle_publish`: QoS 1 is acknowledged and delivered; QoS 2 is
      held, if its PUBREC went out, until the PUBREL; anything else is
      delivered. */
  function OnPublishPacket(s: Session, m: Stored, sendOk: bool): Session
  {
    if m.qos == 1 then
      var s1 := Send(s, Ack(PubAck, m.mid, SUCCESS, []), sendOk);
      s1.(events := s1.events + Deliver(s1, m))
    else if m.qos == 2 then
      if sendOk then s.(outbox := s.outbox + [Ack(PubRec, m.mid, SUCCESS, [])], tables := s.tables.(inPacket := s.tables.inPacket[m.mid := m]))
      else s
    else s.(events := s.events + Deliver(s, m))
  }

  /** `_handle_puback`: an inflight identifier is completed. */
  function OnPubAck(s: Session, mid: u16): Session
  {
    if mid in s.tables.inflight then
      s.(tables := s.tables.(inflight := s.tables.inflight - {mid}), events := s.events + Fire(s, OnPublish, Published(mid)))
    else s
  }

  /** `_handle_pubrec`: the flow is recorded and answered with PUBREL; it
      stays inflight. */
  function OnPubRec(s: Session, mid: u16, sendOk: bool): Session
  {
    if mid in s.tables.inflight then
      var s1 := s.(tables := s.tables.(pubrecReceived := s.tables.pubrecReceived[mid := s.tables.inflight[mid]]));
      if sendOk then s1.(outbox := s1.outbox + [Ack(PubRel, mid, SUCCESS, [])], tables := s1.tables.(pubrelSent := s1.tables.pubrelSent + {mid}))
      else s1
    else s
  }

  /** `_handle_pubrel`: a held message is released and delivered; PUBCOMP
      is sent either way. */
  function OnPubRel(s: Session, mid: u16, sendOk: bool): Session
  {
    var s1 := if mid in s.tables.inPacket then
      s.(tables := s.tables.(inPacket := s.tables.inPacket - {mid}), events := s.events + Deliver(s, s.tables.inPacket[mid]))
    else s;
    Send(s1, Ack(PubComp, mid, SUCCESS, []), sendOk)
  }

  /** `_handle_pubcomp`: the QoS 2 flow is complete and leaves every table. */
  function OnPubComp(s: Session, mid: u16): Session
  {
    if mid in s.tables.inflight then
      s.(tables := s.tables.(inflight := s.tables.inflight - {mid}, pubrecReceived := s.tables.pubrecReceived - {mid},
                             pubrelSent := s.tables.pubrelSent - {mid}), events := s.events + Fire(s, OnPublish, Published(mid)))
    else s
  }

  /** The acknowledgement handlers of `_handle_packet`. */
  function OnAck(s: Session, kind: AckKind, mid: u16, sendOk: bool): Session
  {
    match kind
    case PubAck => OnPubAck(s, mid)
    case PubRec => OnPubRec(s, mid, sendOk)
    case PubRel => OnPubRel(s, mid, sendOk)
    case PubComp => OnPubComp(s, mid)
  }

  /** The message `_handle_publish` builds from a PUBLISH. */
  function StoredOf(p: Packet): Stored
    requires p.Publish?
  {
    Stored(p.mid, p.topic, p.payload, p.qos, p.retain, p.props)
  }

  /** `_handle_packet`: dispatch on the packet type; other types are
      ignored. */
  function Handled(s: Session, p: Packet, sendOk: bool, v: Version): Session
  {
    match p
    case Publish(_, _, _, _, _, _, _) => OnPublishPacket(s, StoredOf(p), sendOk)
    case Ack(kind, mid, _, _) => OnAck(s, kind, mid, sendOk)
    case SubAck(mid, props, codes) => s.(events := s.events + Fire(s, OnSubscribe, Subscribed(mid, codes, props)))
    case UnsubAck(mid, props, codes) =>
      var e := if v == V5 then Unsubscribed(mid, Some(props), Some(codes)) else Unsubscribed(mid, None, None);
      s.(events := s.events + Fire(s, OnUnsubscribe, e))
    case PingResp => s.(pingPending := false)
    case Disconnect(code, _) => s.(connected := false, events := s.events + Fire(s, OnDisconnect, Disconnected(code)))
    case _ => s
  }

  /** No packet for 1.5 keep-alive periods. */
  predicate TimedOut(s: Session, now: int)
  {
    s.keepalive > 0 && 2 * (now - s.lastRecv) >= 3000 * s.keepalive
  }

  /** A keep-alive period without a packet and no PINGREQ outstanding. */
  predicate PingDue(s: Session, now: int)
  {
    s.keepalive > 0 && now - s.lastRecv >= 1000 * s.keepalive && !s.pingPending
  }

  /** The keep-alive part of `loop`, which may end the connection. */
  function KeepaliveStep(s: Session, now: int, sendOk: bool): Session
  {
    if TimedOut(s, now) then
      s.(connected := false, events := s.events + Fire(s, OnDisconnect, Disconnected(KEEPALIVE_TIMEOUT)))
    else if PingDue(s, now) then
      var s1 := if sendOk then s.(outbox := s.outbox + [PingReq]) else s.(connected := false);
      s1.(pingPending := true, lastPing := now)
    else s
  }

  /** One `loop` call. */
  function LoopStep(s: Session, now: int, arrival: Arrival, sendOk: bool, v: Version): (Session, byte)
  {
    if !s.connected then (s, NOT_AUTHORIZED)
    else
      var s1 := KeepaliveStep(s, now, sendOk);
      if TimedOut(s, now) then (s1, KEEPALIVE_TIMEOUT)
      else
        match arrival
        case Quiet => (s1, SUCCESS)
        case Incoming(p) => (Handled(s1.(lastRecv := now), p, sendOk, v), SUCCESS)
        case Closed =>
          (s1.(connected := false, events := s1.events + Fire(s1, OnDisconnect, Disconnected(UNSPECIFIED_ERROR))),
           UNSPECIFIED_ERROR)
        case Failed =>
          (s1.(connected := false, events := s1.events + Fire(s1, OnDisconnect, Disconnected(NETWORK_ERROR))),
           NETWORK_ERROR)
  }

  // ---------------------------------------------------------------------
  // Properties of the steps

  /** The registry after a SUBSCRIBE holds the old filters and the new
      ones, and no others. */
  lemma {:induction false} RegisterKeys(subs: map<bytes, Subscription>, items: seq<SubItem>, props: Bag)
    ensures forall t :: t in Register(subs, items, props) <==> t in subs || exists k :: 0 <= k < |items| && items[k].filter == t
    decreases |items|
  {
    if items != [] {
      var init := items[..|items| - 1];
      RegisterKeys(subs, init, props);
      forall k | 0 <= k < |init|
        ensures init[k] == items[k]
      {
      }
    }
  }

  /** A filter takes the QoS of the last item naming it. */
  lemma {:induction false} RegisterLast(subs: map<bytes, Subscription>, items: seq<SubItem>, props: Bag, k: nat)
    requires k < |items| && LastFor(items, k)
    ensures items[k].filter in Register(subs, items, props)
    ensures Register(subs, items, props)[items[k].filter] == Subscription(items[k].qos, props)
    decreases |items|
  {
    if k < |items| - 1 {
      var init := items[..|items| - 1];
      assert init[k] == items[k];
      RegisterLast(subs, init, props, k);
    }
  }

  /** A filter no item names keeps its entry. */
  lemma {:induction false} RegisterOthers(subs: map<bytes, Subscription>, items: seq<SubItem>, props: Bag, t: bytes)
    requires t in subs && forall k :: 0 <= k < |items| ==> items[k].filter != t
    ensures t in Register(subs, items, props) && Register(subs, items, props)[t] == subs[t]
    decreases |items|
  {
    if items != [] {
      var init := items[..|items| - 1];
      assert items[|items| - 1].filter != t;
      forall k | 0 <= k < |init|
        ensures init[k].filter != t
      {
        assert init[k] == items[k];
      }
      RegisterOthers(subs, init, props, t);
    }
  }

  /** No later item names the same filter as item `k`. */
  predicate LastFor(items: seq<SubItem>, k: int)
    requires 0 <= k < |items|
  {
    forall j :: k < j < |items| ==> items[j].filter != items[k].filter
  }

  /** Removing keeps a dictionary's keys distinct. */
  lemma {:induction false} DropDistinct(ps: seq<bytes>, t: bytes)
    requires Distinct(ps)
    ensures Distinct(Drop(ps, t))
  {
    if ps != [] {
      DropDistinct(ps[1..], t);
      var rest := Drop(ps[1..], t);
      if ps[0] != t {
        assert ps[0] !in ps[1..] by {
          forall j | 0 <= j < |ps[1..]|
            ensures ps[1..][j] != ps[0]
          {
            assert ps[1..][j] == ps[j + 1];
          }
        }
        assert ps[0] !in rest;
        var r := [ps[0]] + rest;
        forall i, j | 0 <= i < j < |r|
          ensures r[i] != r[j]
        {
          if i == 0 {
            assert r[j] == rest[j - 1];
          } else {
            assert r[i] == rest[i - 1] && r[j] == rest[j - 1];
          }
        }
      }
    }
  }

  /** The callbacks `unsubscribe` leaves are those not unsubscribed, still
      without repeats. */
  lemma {:induction false} DropAllSpec(ps: seq<bytes>, fs: seq<bytes>)
    requires Distinct(ps)
    ensures forall p :: p in DropAll(ps, fs) <==> p in ps && p !in fs
    ensures Distinct(DropAll(ps, fs))
    decreases |fs|
  {
    if fs != [] {
      var init := fs[..|fs| - 1];
      DropAllSpec(ps, init);
      DropDistinct(DropAll(ps, init), fs[|fs| - 1]);
      assert fs == init + [fs[|fs| - 1]];
    }
  }

  /** `unsubscribe` removes exactly the named filters from the registry. */
  lemma UnsubscribeRemoves(s: Session, filters: seq<bytes>, props: Bag, sendOk: bool)
    requires s.connected && sendOk && Distinct(s.tables.callbacks)
    ensures var t := UnsubscribeStep(s, filters, props, sendOk).0;
      (forall f :: f in t.tables.subscriptions <==> f in s.tables.subscriptions && f !in filters) &&
      (forall f :: f in t.tables.callbacks <==> f in s.tables.callbacks && f !in filters)
  {
    DropAllSpec(s.tables.callbacks, filters);
  }

  /** The fields the session invariant is about are the same. */
  predicate SameFlows(s: Session, t: Session)
  {
    t.lastMid == s.lastMid && t.tables.inflight == s.tables.inflight && t.tables.pubrecReceived == s.tables.pubrecReceived &&
    t.tables.pubrelSent == s.tables.pubrelSent && t.tables.callbacks == s.tables.callbacks
  }

  lemma OkFrom(s: Session, t: Session)
    requires SessionOk(s) && SameFlows(s, t)
    ensures SessionOk(t)
  {
  }

  /** Every step keeps the session invariant. */
  lemma PublishKeepsOk(s: Session, topic: bytes, payload: bytes, qos: nat, retain: bool, props: Bag,
                       sendOk: bool, info: MessageInfo)
    requires SessionOk(s) && info.mid == PublishMid(s, qos)
    ensures SessionOk(PublishStep(s, topic, payload, qos, retain, props, sendOk, info))
  {
    var mid := PublishMid(s, qos);
    var t := PublishStep(s, topic, payload, qos, retain, props, sendOk, info);
    if qos > 0 && sendOk {
      assert t.tables.inflight == s.tables.inflight[mid := info] && t.lastMid == mid;
      assert SameFlows(s.(lastMid := mid), t.(tables := t.tables.(inflight := s.tables.inflight)));
      forall m | m in t.tables.inflight
        ensures t.tables.inflight[m].mid == m
      {
      }
    } else if qos > 0 {
      assert SameFlows(s.(lastMid := mid), t);
    } else {
      assert SameFlows(s, t);
    }
  }

  lemma SubscribeKeepsOk(s: Session, items: seq<SubItem>, props: Bag, sendOk: bool)
    requires SessionOk(s)
    ensures SessionOk(SubscribeStep(s, items, props, sendOk).0)
  {
  }

  lemma UnsubscribeKeepsOk(s: Session, filters: seq<bytes>, props: Bag, sendOk: bool)
    requires SessionOk(s)
    ensures SessionOk(UnsubscribeStep(s, filters, props, sendOk).0)
  {
    DropAllSpec(s.tables.callbacks, filters);
  }

  lemma CallbacksKeepOk(s: Session, f: bytes)
    requires SessionOk(s)
    ensures SessionOk(CallbackAddStep(s, f)) && SessionOk(CallbackRemoveStep(s, f))
  {
    DropDistinct(s.tables.callbacks, f);
    if f !in s.tables.callbacks {
      var r := s.tables.callbacks + [f];
      forall i, j | 0 <= i < j < |r|
        ensures r[i] != r[j]
      {
        if j == |r| - 1 {
          assert r[i] == s.tables.callbacks[i];
        }
      }
    }
  }

  lemma ConnectKeepsOk(s: Session, config: Config, keepalive: nat, sendOk: bool, reply: Arrival, now: int)
    requires SessionOk(s)
    ensures SessionOk(ConnectStep(s, config, keepalive, sendOk, reply, now).0)
  {
    ConnectKeepsFlows(s, config, keepalive, sendOk, reply, now);
    OkFrom(s, ConnectStep(s, config, keepalive, sendOk, reply, now).0);
  }

  lemma ConnectKeepsFlows(s: Session, config: Config, keepalive: nat, sendOk: bool, reply: Arrival, now: int)
    ensures SameFlows(s, ConnectStep(s, config, keepalive, sendOk, reply, now).0)
  {
    if sendOk {
      var s2 := s.(keepalive := keepalive, outbox := s.outbox + [ConnectPacket(config, Low16(keepalive))]);
      ConnAckKeepsFlows(s2, config.protocol, reply, now);
    }
  }

  lemma ConnAckKeepsFlows(s: Session, v: Version, reply: Arrival, now: int)
    ensures var t := ConnAckStep(s, v, reply, now).0;
      t.tables == s.tables && t.lastMid == s.lastMid
  {
  }

  /** `connect` succeeds exactly when the CONNECT went out and the reply is
      a CONNACK with reason SUCCESS; then the client is connected, counts
      the keep alive from now, and uses the server's keep alive where an
      MQTT 5.0 broker sets one. Otherwise the connection flag is as before. */
  lemma ConnectOutcome(s: Session, config: Config, keepalive: nat, sendOk: bool, reply: Arrival, now: int)
    ensures var rc := ConnectStep(s, config, keepalive, sendOk, reply, now).1;
      rc == SUCCESS <==> sendOk && reply.Incoming? && reply.p.ConnAck? && reply.p.code == SUCCESS
    ensures var (t, rc) := ConnectStep(s, config, keepalive, sendOk, reply, now);
      rc != SUCCESS ==> t.connected == s.connected && t.keepalive == keepalive
    ensures var (t, rc) := ConnectStep(s, config, keepalive, sendOk, reply, now);
      rc == SUCCESS ==>
        t.connected && t.lastRecv == now && t.outbox == s.outbox + [ConnectPacket(config, Low16(keepalive))] &&
        t.keepalive == (if config.protocol == V5 && Cap(reply.p.props, SERVER_KEEP_ALIVE).Some?
                        then Cap(reply.p.props, SERVER_KEEP_ALIVE).value else keepalive)
  {
  }

  /** A packet the client handles keeps the invariant. */
  lemma HandledKeepsOk(s: Session, p: Packet, sendOk: bool, v: Version)
    requires SessionOk(s)
    ensures SessionOk(Handled(s, p, sendOk, v))
  {
    var t := Handled(s, p, sendOk, v);
    if p.Ack? {
      AckKeepsOk(s, p.kind, p.mid, sendOk);
    } else if p.Publish? {
      PublishPacketKeepsFlows(s, StoredOf(p), sendOk);
      OkFrom(s, t);
    } else {
      assert t == s.(pingPending := t.pingPending, connected := t.connected, events := t.events);
      OkFrom(s, t);
    }
  }

  lemma PublishPacketKeepsFlows(s: Session, m: Stored, sendOk: bool)
    ensures SameFlows(s, OnPublishPacket(s, m, sendOk))
  {
    var t := OnPublishPacket(s, m, sendOk);
    if m.qos == 1 {
      var s1 := Send(s, Ack(PubAck, m.mid, SUCCESS, []), sendOk);
      assert SameFlows(s, s1);
      assert t == s1.(events := t.events);
    } else if m.qos == 2 {
    } else {
      assert t == s.(events := t.events);
    }
  }

  lemma AckKeepsOk(s: Session, kind: AckKind, mid: u16, sendOk: bool)
    requires SessionOk(s)
    ensures SessionOk(OnAck(s, kind, mid, sendOk))
  {
    match kind
    case PubAck => PubAckKeepsOk(s, mid);
    case PubRec => PubRecKeepsOk(s, mid, sendOk);
    case PubRel => OkFrom(s, OnPubRel(s, mid, sendOk));
    case PubComp => PubCompKeepsOk(s, mid);
  }

  lemma PubAckKeepsOk(s: Session, mid: u16)
    requires SessionOk(s)
    ensures SessionOk(OnPubAck(s, mid))
  {
  }

  lemma PubRecKeepsOk(s: Session, mid: u16, sendOk: bool)
    requires SessionOk(s)
    ensures SessionOk(OnPubRec(s, mid, sendOk))
  {
    if mid in s.tables.inflight {
      var t := OnPubRec(s, mid, sendOk);
      assert t.tables.pubrecReceived == s.tables.pubrecReceived[mid := s.tables.inflight[mid]];
      assert t.tables.pubrelSent <= s.tables.pubrelSent + {mid};
    }
  }

  lemma PubCompKeepsOk(s: Session, mid: u16)
    requires SessionOk(s)
    ensures SessionOk(OnPubComp(s, mid))
  {
  }

  lemma LoopKeepsOk(s: Session, now: int, arrival: Arrival, sendOk: bool, v: Version)
    requires SessionOk(s)
    ensures SessionOk(LoopStep(s, now, arrival, sendOk, v).0)
  {
    if s.connected {
      var s1 := KeepaliveStep(s, now, sendOk);
      assert s1 == s.(connected := s1.connected, events := s1.events, outbox := s1.outbox,
                      pingPending := s1.pingPending, lastPing := s1.lastPing);
      OkFrom(s, s1);
      var t := LoopStep(s, now, arrival, sendOk, v).0;
      if !TimedOut(s, now) && arrival.Incoming? {
        OkFrom(s1, s1.(lastRecv := now));
        HandledKeepsOk(s1.(lastRecv := now), arrival.p, sendOk, v);
      } else {
        assert t == s1.(connected := t.connected, events := t.events);
        OkFrom(s1, t);
      }
    }
  }

  /** PUBACK completes a flow once: the same PUBACK again changes nothing,
      and a PUBACK for an identifier not inflight is ignored. */
  lemma PubAckOnce(s: Session, mid: u16)
    ensures mid !in s.tables.inflight ==> OnPubAck(s, mid) == s
    ensures mid in s.tables.inflight ==> OnPubAck(s, mid).events == s.events + Fire(s, OnPublish, Published(mid))
    ensures mid !in OnPubAck(s, mid).tables.inflight
    ensures OnPubAck(OnPubAck(s, mid), mid) == OnPubAck(s, mid)
  {
  }

  /** The outgoing QoS 2 handshake: after PUBLISH and PUBREC the flow is
      still inflight and a PUBREL went out; PUBCOMP then takes it out of
      every table and reports it once. */
  lemma OutboundQos2(s: Session, topic: bytes, payload: bytes, retain: bool, props: Bag, info: MessageInfo)
    ensures var mid := PublishMid(s, 2);
      var s1 := PublishStep(s, topic, payload, 2, retain, props, true, info);
      var s2 := OnPubRec(s1, mid, true);
      var s3 := OnPubComp(s2, mid);
      mid in s1.tables.inflight && mid in s2.tables.inflight && mid in s2.tables.pubrelSent &&
      s2.outbox == s.outbox + [Publish(topic, payload, 2, retain, false, mid, props), Ack(PubRel, mid, SUCCESS, [])] &&
      mid !in s3.tables.inflight && mid !in s3.tables.pubrecReceived && mid !in s3.tables.pubrelSent &&
      s3.events == s.events + Fire(s, OnPublish, Published(mid)) &&
      OnPubComp(s3, mid) == s3
  {
  }

  /** The incoming QoS 2 handshake: a PUBLISH whose PUBREC went out is
      held and not delivered; its PUBREL delivers it exactly once, and a
      repeated PUBREL delivers nothing but is still answered. */
  lemma InboundQos2(s: Session, m: Stored, ok1: bool, ok2: bool)
    requires m.qos == 2
    ensures var s1 := OnPublishPacket(s, m, true);
      var s2 := OnPubRel(s1, m.mid, ok1);
      var s3 := OnPubRel(s2, m.mid, ok2);
      s1.events == s.events && s1.tables.inPacket == s.tables.inPacket[m.mid := m] &&
      s1.outbox == s.outbox + [Ack(PubRec, m.mid, SUCCESS, [])] &&
      s2.events == s.events + Deliver(s, m) && m.mid !in s2.tables.inPacket &&
      s3.events == s2.events &&
      s3.outbox == s2.outbox + (if ok2 then [Ack(PubComp, m.mid, SUCCESS, [])] else [])
  {
    var s1 := OnPublishPacket(s, m, true);
    assert Deliver(s1, m) == Deliver(s, m);
  }

  /** A QoS 2 PUBLISH whose PUBREC cannot be sent is dropped. */
  lemma InboundQos2Dropped(s: Session, m: Stored)
    requires m.qos == 2
    ensures OnPublishPacket(s, m, false) == s
  {
  }

  /** `loop` returns KEEPALIVE_TIMEOUT exactly when the client is
      connected and 1.5 keep-alive periods passed without a packet; then it
      is disconnected. */
  lemma KeepaliveTimeout(s: Session, now: int, arrival: Arrival, sendOk: bool, v: Version)
    ensures var (t, rc) := LoopStep(s, now, arrival, sendOk, v);
      (rc == KEEPALIVE_TIMEOUT <==> s.connected && TimedOut(s, now)) &&
      (rc == KEEPALIVE_TIMEOUT ==> !t.connected && t.outbox == s.outbox)
    ensures !s.connected ==> LoopStep(s, now, arrival, sendOk, v) == (s, NOT_AUTHORIZED)
  {
  }

  /** One PINGREQ per keep-alive period: a `loop` that finds the period
      over sends exactly one, and later loops send none until a PINGRESP
      clears the pending flag. */
  lemma PingOnce(s: Session, now1: int, now2: int, v: Version)
    requires s.connected && !TimedOut(s, now1) && PingDue(s, now1)
    ensures var (s1, rc1) := LoopStep(s, now1, Quiet, true, v);
      rc1 == SUCCESS && s1.outbox == s.outbox + [PingReq] && s1.pingPending && s1.lastPing == now1 &&
      (!TimedOut(s1, now2) ==> LoopStep(s1, now2, Quiet, true, v) == (s1, SUCCESS)) &&
      !Handled(s1, PingResp, true, v).pingPending
  {
  }

  /** `disconnect` when not connected returns SUCCESS and sends nothing,
      so a second `disconnect` changes nothing. */
  lemma DisconnectTwice(s: Session, code: Option<byte>, props: Bag, ok1: bool, ok2: bool)
    ensures DisconnectStep(s, code, props, ok1).1 == SUCCESS
    ensures !DisconnectStep(s, code, props, ok1).0.connected
    ensures var t := DisconnectStep(s, code, props, ok1).0;
      DisconnectStep(t, code, props, ok2) == (t, SUCCESS)
  {
  }

  /** A SUBSCRIBE listing a `(topic, qos, options)` triple goes out, but
      `subscribe` raises and registers only the items before the triple. */
  lemma SubscribeTripleRaises(s: Session, items: seq<SubItem>, props: Bag)
    requires s.connected && exists k :: 0 <= k < |items| && items[k].options.Some?
    ensures var (t, r) := SubscribeStep(s, items, props, true);
      r == Raised && t.outbox == s.outbox + [Subscribe(NextMidAfter(s.lastMid), items, props)] &&
      t.tables.subscriptions == Register(s.tables.subscriptions, items[..FirstTriple(items)], props)
  {
  }

  /** QoS 0 never waits for an acknowledgement; QoS 1 and 2 wait under the
      new identifier. */
  lemma PublishInflight(s: Session, topic: bytes, payload: bytes, qos: nat, retain: bool, props: Bag,
                        info: MessageInfo)
    requires qos <= 2
    ensures var t := PublishStep(s, topic, payload, qos, retain, props, true, info);
      t.outbox == s.outbox + [Publish(topic, payload, qos, retain, false, PublishMid(s, qos), props)] &&
      (qos == 0 ==> t.tables.inflight == s.tables.inflight && t.events == s.events + Fire(s, OnPublish, Published(0))) &&
      (qos > 0 ==> t.tables.inflight == s.tables.inflight[PublishMid(s, qos) := info] && t.events == s.events)
  {
  }
}
