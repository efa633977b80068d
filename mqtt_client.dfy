/** The `Client` class of upaho/client.py: its attributes, and methods
    proved to perform the steps of `MqttSession` on them. */
module MqttClient {
  import opened Wrappers
  import opened Bytes
  import opened MqttProperties
  import opened MqttPackets
  import opened MqttMessage
  import opened MqttTopics
  import opened MqttSession
  import opened MqttCodec

  /** `Client`: the settings made before `connect`, the broker's address
      once `connect` was called, and the session fields, which the methods
      update as the step functions above say. */
  class Client {
    const config: Config
    var host: Option<bytes>
    var port: nat

    var connected: bool
    var keepalive: nat
    var installed: set<Callback>
    var outbox: seq<Packet>
    var events: seq<Event>
    var lastMid: nat
    var lastRecv: int
    var lastPing: int
    var pingPending: bool
    var inflight: map<u16, MessageInfo>
    var pubrecReceived: map<u16, MessageInfo>
    var pubrelSent: set<u16>
    var inPacket: map<u16, Stored>
    var subscriptions: map<bytes, Subscription>
    var callbacks: seq<bytes>
    var serverKeepalive: Option<nat>
    var serverMaxPacketSize: Option<nat>
    var topicAliasMax: nat
    var receiveMaximum: nat

    /** The session fields as a value. */
    function State(): Session
      reads this
    {
      Session(connected, keepalive, installed, outbox, events, lastMid, lastRecv, lastPing, pingPending,
              Tables(inflight, pubrecReceived, pubrelSent, inPacket, subscriptions, callbacks),
              serverKeepalive, serverMaxPacketSize, topicAliasMax, receiveMaximum)
    }

    /** The session invariant on the fields. */
    predicate Valid()
      reads this
    {
      SessionOk(State())
    }

    /** `Client(...)` with the `on_*` callbacks in `installed` set. */
    constructor (config: Config, installed: set<Callback>)
      ensures this.config == config && host.None? && port == 1883
      ensures State() == Initial(installed) && Valid()
    {
      this.config := config;
      host := None;
      port := 1883;
      connected := false;
      keepalive := 60;
      this.installed := installed;
      outbox := [];
      events := [];
      lastMid := 0;
      lastRecv := 0;
      lastPing := 0;
      pingPending := false;
      inflight := map[];
      pubrecReceived := map[];
      pubrelSent := {};
      inPacket := map[];
      subscriptions := map[];
      callbacks := [];
      serverKeepalive := None;
      serverMaxPacketSize := None;
      topicAliasMax := 0;
      receiveMaximum := 65535;
    }

    /** `_get_next_mid`. */
    method NextMid() returns (mid: u16)
      modifies this
      ensures mid == NextMidAfter(old(lastMid))
      ensures State() == old(State()).(lastMid := mid)
      ensures host == old(host) && port == old(port)
    {
      lastMid := lastMid % 65535 + 1;
      mid := lastMid;
    }

    /** `_send_packet` when the write succeeds: the packet goes out. */
    method Emit(p: Packet)
      modifies this
      ensures State() == old(State()).(outbox := old(outbox) + [p])
      ensures host == old(host) && port == old(port)
    {
      outbox := outbox + [p];
    }

    /** A callback invocation: `c` sees `e` when it is set. */
    method Notify(c: Callback, e: Event)
      modifies this
      ensures State() == old(State()).(events := old(events) + Fire(old(State()), c, e))
      ensures host == old(host) && port == old(port)
    {
      events := events + Fire(State(), c, e);
    }

    /** `publish`. `None` is the ValueError raised for a QoS outside 0..2. */
    method Publish(topic: bytes, payload: bytes, qos: int, retain: bool, props: Bag, sendOk: bool)
      returns (r: Option<MessageInfo>)
      requires Valid()
      modifies this
      ensures Valid() && host == old(host) && port == old(port)
      ensures r.Some? ==> fresh(r.value) && r.value.Valid()
      ensures !old(connected) ==> r.Some? && r.value.mid == 0 && r.value.rc == RC_QUEUED && State() == old(State())
      ensures old(connected) && (qos < 0 || qos > 2) ==> r.None? && State() == old(State())
      ensures old(connected) && 0 <= qos <= 2 ==>
        r.Some? && r.value.mid == PublishMid(old(State()), qos) &&
        State() == PublishStep(old(State()), topic, payload, qos, retain, props, sendOk, r.value) &&
        (r.value.published <==> sendOk && qos == 0) &&
        r.value.rc == (if sendOk && qos == 0 then RC_PUBLISHED else RC_QUEUED)
    {
      if !connected {
        var info := new MessageInfo(0);
        return Some(info);
      }
      if qos < 0 || qos > 2 {
        return None;
      }
      var info := PublishOut(topic, payload, qos, retain, props, sendOk);
      return Some(info);
    }

    /** The part of `publish` past its checks: the identifier, the status
        object, the send, and the message waiting for its acknowledgement. */
    method PublishOut(topic: bytes, payload: bytes, qos: nat, retain: bool, props: Bag, sendOk: bool)
      returns (info: MessageInfo)
      requires Valid() && connected && qos <= 2
      modifies this
      ensures Valid() && host == old(host) && port == old(port)
      ensures fresh(info) && info.Valid() && info.mid == PublishMid(old(State()), qos)
      ensures State() == PublishStep(old(State()), topic, payload, qos, retain, props, sendOk, info)
      ensures info.published <==> sendOk && qos == 0
      ensures info.rc == (if sendOk && qos == 0 then RC_PUBLISHED else RC_QUEUED)
    {
      ghost var s0 := State();
      var mid: u16 := 0;
      if qos > 0 {
        mid := NextMid();
      }
      info := new MessageInfo(mid);
      ghost var s1 := if qos > 0 then s0.(lastMid := mid) else s0;
      assert State() == s1;
      if !sendOk {
        connected := false;
      } else {
        Emit(Packet.Publish(topic, payload, qos, retain, false, mid, props));
        ghost var s2 := s1.(outbox := s1.outbox + [Packet.Publish(topic, payload, qos, retain, false, mid, props)]);
        assert State() == s2;
        if qos == 0 {
          info.SetPublished();
          assert State() == s2;
          Notify(OnPublish, Published(0));
        } else {
          inflight := inflight[mid := info];
        }
      }
      PublishKeepsOk(s0, topic, payload, qos, retain, props, sendOk, info);
    }

    /** `subscribe` on the normalised list of items: the SUBSCRIBE goes
        out, then each item is registered in order until one is a triple. */
    method Subscribe(items: seq<SubItem>, props: Bag, sendOk: bool) returns (r: Reply)
      requires Valid()
      modifies this
      ensures Valid() && host == old(host) && port == old(port)
      ensures (State(), r) == SubscribeStep(old(State()), items, props, sendOk)
    {
      SubscribeKeepsOk(State(), items, props, sendOk);
      if !connected {
        return Reply(NOT_AUTHORIZED, None);
      }
      var mid := NextMid();
      if !sendOk {
        connected := false;
        return Reply(UNSPECIFIED_ERROR, Some(mid));
      }
      outbox := outbox + [Packet.Subscribe(mid, items, props)];
      var n := RegisterItems(items, props);
      r := if n < |items| then Raised else Reply(SUCCESS, Some(mid));
    }

    /** The registration loop of `subscribe`: `_subscriptions[t] = (q,
        properties)` for each item in order, stopping at the first triple. */
    method RegisterItems(items: seq<SubItem>, props: Bag) returns (n: nat)
      modifies this
      ensures n == FirstTriple(items)
      ensures State() == old(State()).(tables := old(State()).tables.(subscriptions :=
        Register(old(subscriptions), items[..n], props)))
      ensures host == old(host) && port == old(port)
    {
      var subs := subscriptions;
      n := 0;
      while n < |items| && items[n].options.None?
        invariant 0 <= n <= |items|
        invariant forall j :: 0 <= j < n ==> items[j].options.None?
        invariant subs == Register(subscriptions, items[..n], props)
      {
        assert items[..n + 1][..n] == items[..n];
        subs := subs[items[n].filter := Subscription(items[n].qos, props)];
        n := n + 1;
      }
      subscriptions := subs;
    }

    /** `unsubscribe`: the UNSUBSCRIBE goes out, then each filter leaves the
        subscriptions and the message callbacks. */
    method Unsubscribe(filters: seq<bytes>, props: Bag, sendOk: bool) returns (r: Reply)
      requires Valid()
      modifies this
      ensures Valid() && host == old(host) && port == old(port)
      ensures (State(), r) == UnsubscribeStep(old(State()), filters, props, sendOk)
    {
      UnsubscribeKeepsOk(State(), filters, props, sendOk);
      if !connected {
        return Reply(NOT_AUTHORIZED, None);
      }
      var mid := NextMid();
      if !sendOk {
        connected := false;
        return Reply(UNSPECIFIED_ERROR, Some(mid));
      }
      outbox := outbox + [Packet.Unsubscribe(mid, filters, props)];
      RemoveFilters(filters);
      r := Reply(SUCCESS, Some(mid));
    }

    /** The removal loop of `unsubscribe`. */
    method RemoveFilters(filters: seq<bytes>)
      modifies this
      ensures State() == old(State()).(tables := old(State()).tables.(
        subscriptions := old(subscriptions) - Elements(filters),
        callbacks := DropAll(old(callbacks), filters)))
      ensures host == old(host) && port == old(port)
    {
      var subs := subscriptions;
      var cbs := callbacks;
      var k := 0;
      while k < |filters|
        invariant 0 <= k <= |filters|
        invariant subs == subscriptions - Elements(filters[..k])
        invariant cbs == DropAll(callbacks, filters[..k])
      {
        assert filters[..k + 1][..k] == filters[..k];
        assert Elements(filters[..k + 1]) == Elements(filters[..k]) + {filters[k]};
        subs := subs - {filters[k]};
        cbs := Drop(cbs, filters[k]);
        k := k + 1;
      }
      assert filters[..k] == filters;
      subscriptions := subs;
      callbacks := cbs;
    }

    /** `message_callback_add`. */
    method MessageCallbackAdd(f: bytes)
      requires Valid()
      modifies this
      ensures Valid() && host == old(host) && port == old(port)
      ensures State() == CallbackAddStep(old(State()), f)
    {
      CallbacksKeepOk(State(), f);
      if f !in callbacks {
        callbacks := callbacks + [f];
      }
    }

    /** `message_callback_remove`. */
    method MessageCallbackRemove(f: bytes)
      requires Valid()
      modifies this
      ensures Valid() && host == old(host) && port == old(port)
      ensures State() == CallbackRemoveStep(old(State()), f)
    {
      CallbacksKeepOk(State(), f);
      callbacks := Drop(callbacks, f);
    }

    /** `disconnect`. */
    method Disconnect(code: Option<byte>, props: Bag, sendOk: bool) returns (rc: byte)
      requires Valid()
      modifies this
      ensures Valid() && host == old(host) && port == old(port)
      ensures (State(), rc) == DisconnectStep(old(State()), code, props, sendOk)
    {
      if !connected {
        return SUCCESS;
      }
      var c := if code.Some? then code.value else NORMAL_DISCONNECTION;
      if sendOk {
        Emit(Packet.Disconnect(c, props));
      }
      connected := false;
      Notify(OnDisconnect, Disconnected(c));
      return SUCCESS;
    }

    /** `connect` once the address is known: the settings are recorded, the
        CONNECT goes out and the CONNACK is checked. */
    method Connect(host: bytes, port: nat, keepalive: nat, sendOk: bool, reply: Arrival, now: int)
      returns (rc: byte)
      requires Valid()
      modifies this
      ensures Valid() && this.host == Some(host) && this.port == port
      ensures (State(), rc) == ConnectStep(old(State()), config, keepalive, sendOk, reply, now)
    {
      ghost var s0 := State();
      ConnectKeepsOk(s0, config, keepalive, sendOk, reply, now);
      this.host := Some(host);
      this.port := port;
      this.keepalive := keepalive;
      assert State() == s0.(keepalive := keepalive);
      if !sendOk {
        rc := Answer(NETWORK_ERROR, None);
        return;
      }
      Emit(ConnectPacket(config, Low16(keepalive)));
      assert State() == s0.(keepalive := keepalive, outbox := s0.outbox + [ConnectPacket(config, Low16(keepalive))]);
      rc := ReadConnAck(reply, now);
    }

    /** `on_connect` with `code`, which `connect` then returns. */
    method Answer(code: byte, sessionPresent: Option<bool>) returns (rc: byte)
      modifies this
      ensures (State(), rc) == Answered(old(State()), code, sessionPresent)
      ensures host == old(host) && port == old(port)
    {
      Notify(OnConnect, Connected(code, sessionPresent));
      rc := code;
    }

    /** The checks of `connect` on what came back after the CONNECT. */
    method ReadConnAck(reply: Arrival, now: int) returns (rc: byte)
      modifies this
      ensures (State(), rc) == ConnAckStep(old(State()), config.protocol, reply, now)
      ensures host == old(host) && port == old(port)
    {
      if reply.Failed? {
        rc := Answer(UNSPECIFIED_ERROR, None);
      } else if !reply.Incoming? || !reply.p.ConnAck? {
        rc := Answer(PROTOCOL_ERROR, None);
      } else if reply.p.code != SUCCESS {
        rc := Answer(reply.p.code, Some(reply.p.sessionPresent));
      } else {
        ghost var s0 := State();
        connected := true;
        lastRecv := now;
        assert State() == s0.(connected := true, lastRecv := now);
        if config.protocol == V5 {
          ProcessConnAckProperties(reply.p.props);
        }
        rc := Answer(SUCCESS, Some(reply.p.sessionPresent));
      }
    }

    /** `_process_connack_properties`. */
    method ProcessConnAckProperties(props: Bag)
      modifies this
      ensures State() == ServerCaps(old(State()), props)
      ensures host == old(host) && port == old(port)
    {
      ghost var s0 := State();
      var keepAlive := Cap(props, SERVER_KEEP_ALIVE);
      if keepAlive.Some? {
        serverKeepalive := keepAlive;
        keepalive := keepAlive.value;
      }
      assert State() == KeepAliveCap(s0, props);
      RecordLimits(props);
    }

    /** The three limits `_process_connack_properties` records. */
    method RecordLimits(props: Bag)
      modifies this
      ensures State() == ReceiveMaxCap(AliasMaxCap(MaxPacketCap(old(State()), props), props), props)
      ensures host == old(host) && port == old(port)
    {
      ghost var s0 := State();
      var maxPacket := Cap(props, MAXIMUM_PACKET_SIZE);
      if maxPacket.Some? {
        serverMaxPacketSize := maxPacket;
      }
      assert State() == MaxPacketCap(s0, props);
      var aliasMax := Cap(props, TOPIC_ALIAS_MAXIMUM);
      if aliasMax.Some? {
        topicAliasMax := aliasMax.value;
      }
      assert State() == AliasMaxCap(MaxPacketCap(s0, props), props);
      var receiveMax := Cap(props, RECEIVE_MAXIMUM);
      if receiveMax.Some? {
        receiveMaximum := receiveMax.value;
      }
    }

    /** `reconnect`: `None` is the ValueError raised before any `connect`;
        otherwise a live connection is closed and `connect` runs again with
        the recorded address and keep alive. */
    method Reconnect(closeOk: bool, sendOk: bool, reply: Arrival, now: int) returns (r: Option<byte>)
      requires Valid()
      modifies this
      ensures Valid() && host == old(host) && port == old(port)
      ensures old(host).None? ==> r.None? && State() == old(State())
      ensures old(host).Some? ==>
        r.Some? &&
        (State(), r.value) == ConnectStep(DisconnectStep(old(State()), None, [], closeOk).0, config, old(keepalive),
                                          sendOk, reply, now)
    {
      if host.None? {
        return None;
      }
      if connected {
        var _ := Disconnect(None, [], closeOk);
      }
      var rc := Connect(host.value, port, keepalive, sendOk, reply, now);
      return Some(rc);
    }

    /** The callback search of `_handle_publish`: the first filter, in the
        order they were added, that the topic matches by the corrected
        `TopicMatches`. */
    method FindCallback(topic: bytes) returns (r: Option<bytes>)
      ensures r == FirstMatch(callbacks, topic)
    {
      var k := 0;
      while k < |callbacks|
        invariant 0 <= k <= |callbacks|
        invariant FirstMatch(callbacks[k..], topic) == FirstMatch(callbacks, topic)
      {
        assert callbacks[k..][0] == callbacks[k] && callbacks[k..][1..] == callbacks[k + 1..];
        var m := TopicMatches(callbacks[k], topic);
        if m {
          return Some(callbacks[k]);
        }
        k := k + 1;
      }
      return None;
    }

    /** A message goes to its filter's callback, else to `on_message`. */
    method DeliverMessage(m: Stored)
      modifies this
      ensures State() == old(State()).(events := old(events) + Deliver(old(State()), m))
      ensures host == old(host) && port == old(port)
    {
      var handler := FindCallback(m.topic);
      var e := Delivered(handler, m.mid, m.topic, m.payload, m.qos, m.retain);
      if handler.Some? {
        events := events + [e];
      } else {
        Notify(OnMessage, e);
      }
    }

    /** `_handle_publish`: the message object is built from the packet;
        QoS 1 is acknowledged and delivered, QoS 2 held until its PUBREL. */
    method HandlePublish(p: Packet, sendOk: bool)
      requires p.Publish?
      modifies this
      ensures State() == OnPublishPacket(old(State()), StoredOf(p), sendOk)
      ensures host == old(host) && port == old(port)
    {
      ghost var s0 := State();
      var message := new Message(p.mid, []);
      message.SetTopic(Str(p.topic));
      message.SetPayload(Some(Raw(p.payload)));
      message.qos := p.qos;
      message.retain := p.retain;
      message.props := p.props;
      var m := Stored(message.mid, message.topic, message.payload, message.qos, message.retain, message.props);
      assert m == StoredOf(p);
      assert State() == s0;
      if p.qos == 1 {
        if sendOk {
          Emit(Ack(PubAck, p.mid, SUCCESS, []));
        }
        assert State() == Send(s0, Ack(PubAck, p.mid, SUCCESS, []), sendOk);
        DeliverMessage(m);
      } else if p.qos == 2 {
        if sendOk {
          Emit(Ack(PubRec, p.mid, SUCCESS, []));
          inPacket := inPacket[p.mid := m];
        }
      } else {
        DeliverMessage(m);
      }
    }

    /** `_handle_puback`: the status object the caller of `publish` holds
        is confirmed, and stays unpublished if it was. */
    method HandlePubAck(mid: u16)
      modifies this, if mid in inflight then {inflight[mid]} else {}
      ensures State() == OnPubAck(old(State()), mid)
      ensures host == old(host) && port == old(port)
      ensures mid in old(inflight) ==>
        old(inflight)[mid].rc == RC_CONFIRMED && old(inflight)[mid].published == old(inflight[mid].published)
    {
      ghost var s0 := State();
      if mid in inflight {
        var info := inflight[mid];
        inflight := inflight - {mid};
        info.SetConfirmed();
        assert State() == s0.(tables := s0.tables.(inflight := s0.tables.inflight - {mid}));
        Notify(OnPublish, Published(mid));
      }
    }

    /** `_handle_pubrec`. */
    method HandlePubRec(mid: u16, sendOk: bool)
      modifies this
      ensures State() == OnPubRec(old(State()), mid, sendOk)
      ensures host == old(host) && port == old(port)
    {
      ghost var s0 := State();
      if mid in inflight {
        pubrecReceived := pubrecReceived[mid := inflight[mid]];
        ghost var s1 := s0.(tables := s0.tables.(pubrecReceived := s0.tables.pubrecReceived[mid := s0.tables.inflight[mid]]));
        assert State() == s1;
        if sendOk {
          Emit(Ack(PubRel, mid, SUCCESS, []));
          pubrelSent := pubrelSent + {mid};
        }
      }
    }

    /** `_handle_pubrel`. */
    method HandlePubRel(mid: u16, sendOk: bool)
      modifies this
      ensures State() == OnPubRel(old(State()), mid, sendOk)
      ensures host == old(host) && port == old(port)
    {
      if mid in inPacket {
        var m := inPacket[mid];
        inPacket := inPacket - {mid};
        DeliverMessage(m);
      }
      if sendOk {
        Emit(Ack(PubComp, mid, SUCCESS, []));
      }
    }

    /** The cleanup of `_handle_pubcomp`: the identifier leaves the
        inflight table and both QoS 2 tables. */
    method ForgetFlow(mid: u16)
      modifies this
      ensures State() == old(State()).(tables := old(State()).tables.(
        inflight := old(inflight) - {mid}, pubrecReceived := old(pubrecReceived) - {mid},
        pubrelSent := old(pubrelSent) - {mid}))
      ensures host == old(host) && port == old(port)
    {
      inflight, pubrecReceived, pubrelSent := inflight - {mid}, pubrecReceived - {mid}, pubrelSent - {mid};
    }

    /** `_handle_pubcomp`. */
    method HandlePubComp(mid: u16)
      modifies this, if mid in inflight then {inflight[mid]} else {}
      ensures State() == OnPubComp(old(State()), mid)
      ensures host == old(host) && port == old(port)
      ensures mid in old(inflight) ==>
        old(inflight)[mid].rc == RC_CONFIRMED && old(inflight)[mid].published == old(inflight[mid].published)
    {
      if mid in inflight {
        var info := inflight[mid];
        ForgetFlow(mid);
        info.SetConfirmed();
        Notify(OnPublish, Published(mid));
      }
    }

    /** The status objects an incoming packet may confirm: that of the
        flow a PUBACK or PUBCOMP completes. */
    function Acked(p: Packet): set<object>
      reads this
    {
      if p.Ack? && (p.kind == PubAck || p.kind == PubComp) && p.mid in inflight then {inflight[p.mid]} else {}
    }

    /** `_handle_packet`: each type goes to its handler; a SUBACK or
        UNSUBACK only reaches its callback, a PINGRESP clears the pending
        ping, and a DISCONNECT from the broker ends the connection. */
    method Handle(p: Packet, sendOk: bool)
      modifies this, Acked(p)
      ensures State() == Handled(old(State()), p, sendOk, config.protocol)
      ensures host == old(host) && port == old(port)
    {
      match p
      case Publish(_, _, _, _, _, _, _) =>
        HandlePublish(p, sendOk);
      case Ack(kind, mid, _, _) =>
        HandleAck(kind, mid, sendOk);
      case SubAck(mid, props, codes) =>
        Notify(OnSubscribe, Subscribed(mid, codes, props));
      case UnsubAck(mid, props, codes) =>
        var e := if config.protocol == V5 then Unsubscribed(mid, Some(props), Some(codes)) else Unsubscribed(mid, None, None);
        Notify(OnUnsubscribe, e);
      case PingResp =>
        pingPending := false;
      case Disconnect(code, _) =>
        ghost var s0 := State();
        connected := false;
        assert State() == s0.(connected := false);
        Notify(OnDisconnect, Disconnected(code));
      case _ =>
    }

    /** The acknowledgement branches of `_handle_packet`. */
    method HandleAck(kind: AckKind, mid: u16, sendOk: bool)
      modifies this, if (kind == PubAck || kind == PubComp) && mid in inflight then {inflight[mid]} else {}
      ensures State() == OnAck(old(State()), kind, mid, sendOk)
      ensures host == old(host) && port == old(port)
    {
      match kind
      case PubAck => HandlePubAck(mid);
      case PubRec => HandlePubRec(mid, sendOk);
      case PubRel => HandlePubRel(mid, sendOk);
      case PubComp => HandlePubComp(mid);
    }

    /** `_send_pingreq`: a failed write ends the connection. */
    method SendPingReq(sendOk: bool)
      modifies this
      ensures State() == if sendOk then old(State()).(outbox := old(outbox) + [PingReq]) else old(State()).(connected := false)
      ensures host == old(host) && port == old(port)
    {
      if sendOk {
        Emit(PingReq);
      } else {
        connected := false;
      }
    }

    /** The keep-alive checks at the start of `loop`; `timedOut` when 1.5
        periods passed without a packet, which ends the connection. */
    method KeepAlive(now: int, sendOk: bool) returns (timedOut: bool)
      modifies this
      ensures timedOut == TimedOut(old(State()), now)
      ensures State() == KeepaliveStep(old(State()), now, sendOk)
      ensures host == old(host) && port == old(port)
    {
      ghost var s0 := State();
      timedOut := keepalive > 0 && 2 * (now - lastRecv) >= 3000 * keepalive;
      if timedOut {
        connected := false;
        assert State() == s0.(connected := false);
        Notify(OnDisconnect, Disconnected(KEEPALIVE_TIMEOUT));
      } else if keepalive > 0 && now - lastRecv >= 1000 * keepalive && !pingPending {
        Ping(now, sendOk);
      }
    }

    /** A keep-alive period passed with no ping outstanding: PINGREQ goes
        out and is pending from `now`. */
    method Ping(now: int, sendOk: bool)
      modifies this
      ensures State() == (if sendOk then old(State()).(outbox := old(outbox) + [PingReq]) else old(State()).(connected := false))
                           .(pingPending := true, lastPing := now)
      ensures host == old(host) && port == old(port)
    {
      SendPingReq(sendOk);
      pingPending := true;
      lastPing := now;
    }

    /** `loop` with what its poll finds in `arrival`: the keep-alive
        checks, then one packet handled, or the connection lost. The
        session invariant holds after every call. */
    method Loop(now: int, arrival: Arrival, sendOk: bool) returns (rc: byte)
      requires Valid()
      modifies this, if arrival.Incoming? then Acked(arrival.p) else {}
      ensures Valid() && host == old(host) && port == old(port)
      ensures (State(), rc) == LoopStep(old(State()), now, arrival, sendOk, config.protocol)
    {
      LoopKeepsOk(State(), now, arrival, sendOk, config.protocol);
      if !connected {
        return NOT_AUTHORIZED;
      }
      var timedOut := KeepAlive(now, sendOk);
      if timedOut {
        return KEEPALIVE_TIMEOUT;
      }
      match arrival
      case Quiet =>
        rc := SUCCESS;
      case Incoming(p) =>
        lastRecv := now;
        Handle(p, sendOk);
        rc := SUCCESS;
      case Closed =>
        rc := LoseConnection(UNSPECIFIED_ERROR);
      case Failed =>
        rc := LoseConnection(NETWORK_ERROR);
    }

    /** The connection is gone: `on_disconnect` sees `code`, which `loop`
        returns. */
    method LoseConnection(code: byte) returns (rc: byte)
      modifies this
      ensures rc == code
      ensures State() == old(State()).(connected := false, events := old(events) + Fire(old(State()), OnDisconnect, Disconnected(code)))
      ensures host == old(host) && port == old(port)
    {
      ghost var s0 := State();
      connected := false;
      assert State() == s0.(connected := false);
      Notify(OnDisconnect, Disconnected(code));
      rc := code;
    }
  }
}
