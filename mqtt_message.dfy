/** The message objects of upaho/message.py: the record of a received
    message, with its topic and payload setters, and the status object a
    `publish` returns, which the client updates when the broker answers. */
module MqttMessage {
  import opened Wrappers
  import opened Bytes
  import opened MqttCodec
  import opened MqttProperties

  // ---------------------------------------------------------------------
  // MQTTMessageInfo

  /** `MQTTMessageInfo.RC_QUEUED`, `RC_PUBLISHED` and `RC_CONFIRMED`. */
  const RC_QUEUED: nat := 0
  const RC_PUBLISHED: nat := 1
  const RC_CONFIRMED: nat := 2

  /** What the caller of `publish` holds on to. The identifier is fixed at
      construction; the result code and the published flag are set by the
      client as the flow goes on. */
  class MessageInfo {
    const mid: u16
    var rc: nat
    var published: bool

    /** A result code is one of the three, and a message marked published
        has left the queued state. */
    predicate Valid()
      reads this
    {
      rc in {RC_QUEUED, RC_PUBLISHED, RC_CONFIRMED} && (published ==> rc != RC_QUEUED)
    }

    /** A new status is queued and not published. */
    constructor (mid: u16)
      ensures this.mid == mid && rc == RC_QUEUED && !published && Valid()
    {
      this.mid := mid;
      rc := RC_QUEUED;
      published := false;
    }

    /** `is_published`. */
    function IsPublished(): (r: bool)
      requires Valid()
      reads this
      ensures r ==> rc != RC_QUEUED
    {
      published
    }

    /** `_set_published`: published, with the result code to match. */
    method SetPublished()
      modifies this
      ensures published && rc == RC_PUBLISHED && Valid()
    {
      published := true;
      rc := RC_PUBLISHED;
    }

    /** `_set_confirmed`: only the result code changes, so a QoS 1 or 2
        message that was never marked published stays unpublished. */
    method SetConfirmed()
      modifies this
      ensures rc == RC_CONFIRMED && published == old(published) && Valid()
    {
      rc := RC_CONFIRMED;
    }
  }

  // ---------------------------------------------------------------------
  // MQTTMessage

  /** A value handed to the topic or payload setter: a Python `str`, held
      as its UTF-8 encoding, or a bytes-like object. */
  datatype Text = Str(utf8: bytes) | Raw(data: bytes)

  /** A `str` encodes to well-formed UTF-8. */
  predicate WellFormed(t: Text)
  {
    t.Str? ==> ValidUtf8(t.utf8)
  }

  /** The bytes a setter stores for a value. */
  function Encoded(t: Text): bytes
  {
    match t
    case Str(s) => s
    case Raw(b) => b
  }

  /** A received message. The topic and the payload are kept as bytes. */
  class Message {
    var timestamp: int
    var state: int
    var dup: bool
    var mid: u16
    var topic: bytes
    var payload: bytes
    var qos: nat
    var retain: bool
    var props: Bag

    /** `MQTTMessage(mid, topic)`: everything else at its default. */
    constructor (mid: u16, topic: bytes)
      ensures this.mid == mid && this.topic == topic && payload == [] && qos == 0
      ensures !retain && !dup && props == [] && timestamp == 0 && state == 0
    {
      timestamp := 0;
      state := 0;
      dup := false;
      this.mid := mid;
      this.topic := topic;
      payload := [];
      qos := 0;
      retain := false;
      props := [];
    }

    /** The `topic` getter: the stored bytes decoded as UTF-8; `None` where
        decoding raises. */
    function Topic(): (r: Option<bytes>)
      reads this
      ensures r.Some? <==> ValidUtf8(topic)
      ensures r.Some? ==> r.value == topic
    {
      if ValidUtf8(topic) then Some(topic) else None
    }

    /** The `topic` setter: a `str` is stored as its UTF-8 bytes, which the
        getter gives back as that same string. */
    method SetTopic(value: Text)
      modifies this
      ensures topic == Encoded(value)
      ensures value.Str? && WellFormed(value) ==> Topic() == Some(value.utf8)
      ensures payload == old(payload) && mid == old(mid) && qos == old(qos) && retain == old(retain)
      ensures dup == old(dup) && props == old(props) && timestamp == old(timestamp) && state == old(state)
    {
      topic := Encoded(value);
    }

    /** The `payload` setter: a `str` as UTF-8, `None` as no bytes, and
        anything else as its bytes. */
    method SetPayload(value: Option<Text>)
      modifies this
      ensures value.None? ==> payload == []
      ensures value.Some? ==> payload == Encoded(value.value)
      ensures topic == old(topic) && mid == old(mid) && qos == old(qos) && retain == old(retain)
      ensures dup == old(dup) && props == old(props) && timestamp == old(timestamp) && state == old(state)
    {
      if value.None? {
        payload := [];
      } else {
        payload := Encoded(value.value);
      }
    }
  }
}
