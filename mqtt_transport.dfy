/** Framing of MQTT packets on a byte stream (upaho/mqtt5.py): reading
    one packet off the stream, dispatching it by type, and the send loop.
    The socket is the sequence of bytes it would deliver; a `recv` that
    returns nothing is the end of that sequence. */
module MqttTransport {
  import opened Wrappers
  import opened Bytes
  import opened MqttCodec
  import opened MqttProperties
  import opened MqttPackets

  // ---------------------------------------------------------------------
  // Reading

  /** The remaining-length loop of `read_packet_from_socket`, after `i`
      bytes that accumulated `acc`: at most four bytes are read, and the
      fourth ends the field even when its continuation bit is set. `None`
      when the stream ends first. Yields (length, position after). */
  function LengthFrom(s: bytes, pos: nat, i: nat, acc: nat): (r: Option<(nat, nat)>)
    requires i < 4
    ensures r.Some? ==> pos < r.value.1 <= |s| && r.value.1 <= pos + 4 - i
    decreases 4 - i
  {
    if pos >= |s| then None
    else
      var b := s[pos];
      var acc' := acc + (b % 128) * Pow128(i);
      if b < 128 || i == 3 then Some((acc', pos + 1))
      else LengthFrom(s, pos + 1, i + 1, acc')
  }

  /** One frame: the first byte, the remaining length, and exactly that
      many bytes. Yields (first byte, body, bytes consumed). */
  function ReadFrame(s: bytes): (r: Option<(byte, bytes, nat)>)
    ensures r.Some? ==> |s| > 0 && r.value.0 == s[0] && |r.value.1| < r.value.2 <= |s|
    ensures r.Some? ==> s[r.value.2 - |r.value.1|..r.value.2] == r.value.1
  {
    if |s| == 0 then None
    else
      match LengthFrom(s, 1, 0, 0)
      case None => None
      case Some((n, start)) =>
        if start + n <= |s| then Some((s[0], s[start..start + n], start + n)) else None
  }

  /** `read_packet_from_socket`: the frame, then `decode_packet_data` on
      its type and flags nibbles. Yields the packet and the bytes used. */
  function ReadDecoded(s: bytes, v: Version): (r: Option<(Packet, nat)>)
  {
    match ReadFrame(s)
    case None => None
    case Some((b, body, used)) =>
      match DecodePacket(TypeBits(b), FlagBits(b), body, v)
      case None => None
      case Some(p) => Some((p, used))
  }

  /** The reading loops of `read_packet_from_socket`, over the bytes the
      socket delivers. */
  method ReadPacket(stream: bytes, v: Version) returns (r: Option<(Packet, nat)>)
    ensures r == ReadDecoded(stream, v)
  {
    if |stream| == 0 {
      return None;
    }
    var byte1 := stream[0];
    var length := ReadLength(stream);
    if length.None? {
      return None;
    }
    var (remaining, pos) := length.value;
    var data := ReadBody(stream, pos, remaining);
    if data.None? {
      return None;
    }
    var p := DecodePacket(TypeBits(byte1), FlagBits(byte1), data.value, v);
    if p.None? {
      return None;
    }
    return Some((p.value, pos + remaining));
  }

  /** The remaining-length loop: `for _ in range(4)`, leaving at the first
      byte without the continuation bit. */
  method ReadLength(stream: bytes) returns (r: Option<(nat, nat)>)
    requires |stream| > 0
    ensures r == LengthFrom(stream, 1, 0, 0)
  {
    var pos := 1;
    var remaining: nat := 0;
    var multiplier: nat := 1;
    var i := 0;
    var done := false;
    Pow128Values();
    while !done && i < 4
      invariant i <= 4 && multiplier == Pow128(i) && pos == 1 + i + (if done then 1 else 0)
      invariant !done && i < 4 ==> LengthFrom(stream, pos, i, remaining) == LengthFrom(stream, 1, 0, 0)
      invariant done || i == 4 ==> LengthFrom(stream, 1, 0, 0) == Some((remaining, pos))
      decreases 4 - i, if done then 0 else 1
    {
      if pos >= |stream| {
        return None;
      }
      var value := stream[pos];
      remaining := remaining + (value % 128) * multiplier;
      pos := pos + 1;
      if value < 128 {
        done := true;
      } else {
        multiplier := multiplier * 128;
        i := i + 1;
      }
    }
    return Some((remaining, pos));
  }

  /** The body loop: `recv` until `remaining` bytes have arrived; `None`
      when the stream ends first. */
  method ReadBody(stream: bytes, pos: nat, remaining: nat) returns (r: Option<bytes>)
    ensures r == if pos + remaining <= |stream| then Some(stream[pos..pos + remaining]) else None
  {
    if pos > |stream| {
      return None;
    }
    var data: bytes := [];
    while |data| < remaining
      invariant |data| <= remaining && pos + |data| <= |stream| && data == stream[pos..pos + |data|]
      decreases remaining - |data|
    {
      var at := pos + |data|;
      var chunk := stream[at..Min(at + (remaining - |data|), |stream|)];
      if |chunk| == 0 {
        return None;
      }
      data := data + chunk;
    }
    return Some(data);
  }

  /** Wherever the codec of the property block reads a length, the reader
      of the fixed header reads the same one. */
  lemma {:induction false} LengthAgrees(s: bytes, pos: nat, i: nat, acc: nat)
    requires i < 4 && VarintFrom(s, pos, i, acc).Some?
    ensures LengthFrom(s, pos, i, acc) == VarintFrom(s, pos, i, acc)
    decreases 4 - i
  {
    if s[pos] >= 128 {
      LengthAgrees(s, pos + 1, i + 1, acc + (s[pos] % 128) * Pow128(i));
    }
  }

  /** Unlike the property codec, the reader takes a fourth byte with its
      continuation bit set as the end of the length. */
  lemma LengthFourthByte()
    ensures LengthFrom([0x30, 0xFF, 0xFF, 0xFF, 0xFF], 1, 0, 0) == Some((MaxVarint, 5))
    ensures DecodeVarint([0x30, 0xFF, 0xFF, 0xFF, 0xFF], 1) == None
  {
    Pow128Values();
  }

  /** A frame written by `_pack_fixed_header` and its body reads back as
      that header byte and that body, whatever follows it. */
  lemma FrameRoundTrip(ptype: byte, flags: byte, body: bytes, rest: bytes)
    requires |body| <= MaxVarint
    ensures var s := FixedHeader(ptype, flags, |body|) + body + rest;
      ReadFrame(s) == Some((HeaderByte(ptype, flags), body, |FixedHeader(ptype, flags, |body|)| + |body|))
  {
    var s := FixedHeader(ptype, flags, |body|) + body + rest;
    var start := FrameSplit(HeaderByte(ptype, flags), VarintBytes(|body|), body, rest, s);
    VarintRoundTrip(|body|, s, 1);
    LengthAgrees(s, 1, 0, 0);
    AtSlice(s, start, body);
  }

  lemma FrameSplit(b: byte, len: bytes, body: bytes, rest: bytes, s: bytes) returns (start: nat)
    requires s == [b] + len + body + rest
    ensures start == 1 + |len| && s[0] == b && At(s, 1, len) && At(s, start, body)
  {
    start := 1 + |len|;
    assert s == [b] + (len + (body + rest));
    AtWhole(s);
    AtConcat(s, 0, s, [b], len + (body + rest), 1);
    AtConcat(s, 1, len + (body + rest), len, body + rest, start);
    AtConcat(s, start, body + rest, body, rest, start + |body|);
  }

  /** Reading a frame and decoding its type and flags. */
  lemma DecodedFrame(s: bytes, b: byte, body: bytes, used: nat, v: Version)
    requires ReadFrame(s) == Some((b, body, used))
    ensures ReadDecoded(s, v) ==
      match DecodePacket(TypeBits(b), FlagBits(b), body, v)
      case None => None
      case Some(p) => Some((p, used))
  {
  }

  /** A packed PUBLISH read off the stream is the message as it reads back
      (`PublishSeen`), and exactly its bytes are used. */
  lemma PublishOverStream(topic: bytes, payload: bytes, qos: nat, retain: bool, dup: bool, mid: u16, props: Bag, v: Version, rest: bytes)
    requires PublishFits(topic, qos, props)
    requires |PublishBody(topic, payload, qos, mid, props, v)| <= MaxVarint
    ensures var sent := Pack(Publish(topic, payload, qos, retain, dup, mid, props), v).value;
      ReadDecoded(sent + rest, v) == Some((PublishSeen(topic, payload, qos, retain, dup, mid, props, v), |sent|))
  {
    var body := PublishBody(topic, payload, qos, mid, props, v);
    var flags := PublishFlags(dup, qos, retain);
    var sent := PackPublish(topic, payload, qos, retain, dup, mid, props, v);
    FrameRoundTrip(PUBLISH, flags, body, rest);
    PublishFlagsRoundTrip(dup, qos, retain);
    var b := HeaderByte(PUBLISH, flags);
    PublishHeader(flags);
    DecodedFrame(sent + rest, b, body, |sent|, v);
    DecodePublish(flags, body, v);
    PublishRoundTrip(topic, payload, qos, retain, dup, mid, props, v);
  }

  /** The same for the four acknowledgements. */
  lemma AckOverStream(kind: AckKind, mid: u16, code: byte, props: Bag, v: Version, rest: bytes)
    requires Packable(props) && BagRoundTrips(props) && |BodyBytes(props)| <= MaxVarint
    requires |AckBody(mid, code, props, v)| <= MaxVarint
    ensures var sent := Pack(Ack(kind, mid, code, props), v).value;
      ReadDecoded(sent + rest, v)
        == Some((if v == V5 then Ack(kind, mid, code, Known(props)) else Ack(kind, mid, SUCCESS, []), |sent|))
  {
    var body := AckBody(mid, code, props, v);
    var sent := PackAck(kind, mid, code, props, v);
    FrameRoundTrip(AckType(kind), AckFlags(kind), body, rest);
    var b := HeaderByte(AckType(kind), AckFlags(kind));
    DecodeAck(kind, FlagBits(b), body, v);
    DecodedFrame(sent + rest, b, body, |sent|, v);
    AckRoundTrip(kind, mid, code, props, v);
  }

  // ---------------------------------------------------------------------
  // Sending

  /** What one `sock.send` call does: take `n` bytes, or raise `OSError`
      with an errno. */
  datatype SendReply = Took(n: nat) | Raise(errno: int)

  /** How `send_packet_to_socket` ends: everything sent; a send that took
      nothing ("Socket connection broken"); another error re-raised; or
      still retrying when the replies run out. */
  datatype SendOutcome = Sent | Broken | Raised(errno: int) | Retrying

  /** EAGAIN and EINPROGRESS are retried after a short sleep. */
  predicate Retried(errno: int)
  {
    errno == 11 || errno == 115
  }

  /** The send loop from `total` bytes already sent, given the replies of
      the next `send` calls. A send never takes more than it is offered.
      Yields the outcome and the bytes sent. */
  function SendFrom(data: bytes, replies: seq<SendReply>, total: nat): (r: (SendOutcome, nat))
    requires total <= |data|
    ensures total <= r.1 <= |data|
    ensures r.0 == Sent <==> r.1 == |data|
    decreases |replies|
  {
    if total == |data| then (Sent, total)
    else if replies == [] then (Retrying, total)
    else
      match replies[0]
      case Took(n) =>
        if n == 0 then (Broken, total)
        else SendFrom(data, replies[1..], Min(total + n, |data|))
      case Raise(e) =>
        if Retried(e) then SendFrom(data, replies[1..], total) else (Raised(e), total)
  }

  /** `send_packet_to_socket` on the packed bytes: the loop advances
      `total_sent` by what each send took. Yields the outcome and the
      bytes that went out. */
  method SendPacket(data: bytes, replies: seq<SendReply>) returns (outcome: SendOutcome, out: bytes)
    ensures (outcome, |out|) == SendFrom(data, replies, 0)
    ensures out == data[..|out|]
  {
    var total: nat := 0;
    var k := 0;
    while total < |data|
      invariant total <= |data| && k <= |replies|
      invariant SendFrom(data, replies[k..], total) == SendFrom(data, replies, 0)
      decreases |replies| - k
    {
      if k == |replies| {
        return Retrying, data[..total];
      }
      var reply := replies[k];
      assert replies[k..][1..] == replies[k + 1..];
      if reply.Took? {
        if reply.n == 0 {
          return Broken, data[..total];
        }
        total := Min(total + reply.n, |data|);
      } else if !Retried(reply.errno) {
        return Raised(reply.errno), data[..total];
      }
      k := k + 1;
    }
    return Sent, data;
  }

  /** A retried error loses nothing: the loop goes on as if it had not
      happened. */
  lemma RetryIsTransparent(data: bytes, e: int, replies: seq<SendReply>, total: nat)
    requires total < |data| && Retried(e)
    ensures SendFrom(data, [Raise(e)] + replies, total) == SendFrom(data, replies, total)
  {
    assert ([Raise(e)] + replies)[1..] == replies;
  }

  /** Sends that together take the whole packet send it, however they
      split it. */
  lemma {:induction false} SendsAddUp(data: bytes, replies: seq<SendReply>, total: nat)
    requires total <= |data|
    requires forall k :: 0 <= k < |replies| ==> replies[k].Took? && replies[k].n > 0
    requires total + Sum(replies) >= |data|
    ensures SendFrom(data, replies, total) == (Sent, |data|)
    decreases |replies|
  {
    if total < |data| {
      assert replies != [];
      SendsAddUp(data, replies[1..], Min(total + replies[0].n, |data|));
    }
  }

  /** Bytes taken by a run of sends. */
  function Sum(replies: seq<SendReply>): nat
  {
    if replies == [] then 0
    else (if replies[0].Took? then replies[0].n else 0) + Sum(replies[1..])
  }
}
