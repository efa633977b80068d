# replx_libs core, modelled in Dafny

This project models the integer and byte logic at the heart of the
replx_libs MicroPython libraries for the RP2350 and the Ticle board. It
proves the properties those libraries promise about that logic.

- **upaho, the MQTT 3.1.1 / 5.0 client** (`core/RP2350/src/upaho`):
  - `MqttCodec`: the Variable Byte Integer of section 1.5.5 of MQTT v5.0
    (section 2.2.3 of MQTT v3.1.1), and the two-byte length-prefixed UTF-8
    string and binary data fields.
  - `MqttProperties`: the property container of `properties.py` and its
    `pack`/`unpack` wire form (section 2.2.2 of MQTT v5.0).
  - `MqttPackets`: the `pack` and `unpack` of every control packet in
    `packets.py`, and the type dispatch of `decode_packet_data`.
  - `MqttTransport`: reading one packet off a byte stream and the send loop
    of `mqtt5.py`.
  - `MqttMessage`: `MQTTMessage` and `MQTTMessageInfo` of `message.py`.
  - `MqttTopics`: topic-filter matching (section 4.7 of MQTT v5.0).
  - `MqttSession`: the client's session as a value, with one step function
    per operation of `client.py`. Those operations are `publish`,
    `subscribe`, `unsubscribe`, the message callbacks, `connect` and its
    CONNACK checks, `disconnect`, `reconnect`, the `_handle_*` methods and
    `loop` with its keep-alive checks. The lemmas about these steps cover
    the QoS 1 and QoS 2 handshakes of section 4.3 of MQTT v5.0, message
    identifiers, the subscription registry and the session invariant.
  - `MqttClient`: the `Client` class. Its methods change its fields and are
    proved to perform the `MqttSession` steps.
  - The socket is the sequence of packets sent plus, for each operation, a
    flag saying whether the write succeeded. A packet arriving is a
    parameter of `loop`. The clock is a `now` in milliseconds. A callback
    that fires is an event appended to a log, recorded only when that
    `on_*` callback is installed.
- **Byte utilities** (`core/RP2350/src`):
  - `RingBuffers`: the `RingBuffer` over a fixed byte array, and the
    pattern finder behind `get_until`.
  - `Slip`: the SLIP framing of RFC 1055, with its encoder and the stateful
    `SlipDecoder`.
- **Device drivers** (`device/ticle/src/ext`):
  - `IrReceiver` (`ky022.py`): the event ring queue, the `_close` tolerance
    test, the NEC and SIRC bit loops and field checks, and the repeat and
    hold filters of `_finish_ok`.
  - `Sensors` (`nb_impl.py`): quantity codes and the subscriber lists, last
    samples and statistics of `NBAdapterBase`.
  - `Buttons` (`button_nb.py`): the debounce, click, double-click and
    long-press machine of `ButtonNB._update_impl`.
  - `RelayBank` (`relays.py`): the interlock groups, contact types and
    output pins of `Relays`.
  - `Bme68x` (`bme68x.py`): the gas-wait register format, the heater
    duration predicted from the update period, and the gas baseline
    settings.
  - `Ranger` (`vl53l0x.py`): the timeout register format, the conversions
    between macro clocks and microseconds, the reading acceptance rules
    and the median filter settings.
- `Wrappers` and `Bytes` (`basics.dfy`) hold `Option` and the arithmetic
  and byte-sequence helpers the modules share.

Integers are unbounded. The model writes out every place where the
source's fixed widths matter: 16-bit length fields are taken modulo
65536, identifiers wrap at 65535, and the timeout register is cut to 16
bits. Python's `//` and `%` agree with Dafny's for the positive divisors
used here. Where the source truncates toward zero (`int(a / b)`), the
model says so.

## Model

| member | source | states |
|---|---|---|
| MqttCodec.EncodeVariableLength | core/RP2350/src/upaho/properties.py:176-191 | the loop's output is the seven-bits-per-byte, least-significant-group-first encoding `VarintBytes` |
| MqttCodec.VarintShape | core/RP2350/src/upaho/properties.py:176-191 | every byte of an encoding but the last has the continuation bit set, the last has it clear; values up to 268435455 take at most four bytes |
| MqttCodec.DecodeVariableLength | core/RP2350/src/upaho/properties.py:194-219 | the loop agrees with `DecodeVarint`, consumes one to four bytes and never reads past the data |
| MqttCodec.VarintFrom | core/RP2350/src/upaho/properties.py:194-219 | a decoded integer ends on a byte without the continuation bit, within four bytes and within the data |
| MqttCodec.VarintRoundTrip | core/RP2350/src/upaho/properties.py:176-219 | every value up to 268435455 decodes back from its encoding, and the offset lands just after it |
| MqttCodec.VarintRejects | core/RP2350/src/upaho/properties.py:203-219 | decoding fails when the data ends inside the integer and when the fourth byte still has its continuation bit |
| MqttCodec.Be16 | core/RP2350/src/upaho/properties.py:86-87 | the two-byte big-endian form reads back as the same number |
| MqttCodec.Be32 | core/RP2350/src/upaho/properties.py:88-89 | the four-byte big-endian form reads back as the same number |
| MqttCodec.Low16 | core/RP2350/src/upaho/properties.py:247-252 | the 16-bit length field never exceeds the length and equals it up to 65535 |
| MqttCodec.Prefixed | core/RP2350/src/upaho/properties.py:222-229 | a length-prefixed field is two bytes longer than its content and ends with it |
| MqttCodec.DecodeBinary | core/RP2350/src/upaho/properties.py:255-267 | fails exactly when fewer than two bytes remain; otherwise the offset moves by the announced length and the content is the (possibly short) slice |
| MqttCodec.DecodeUtf8 | core/RP2350/src/upaho/properties.py:232-244 | succeeds exactly when the binary framing succeeds and its content is well-formed UTF-8, and then agrees with it |
| MqttCodec.PrefixedRoundTrip | core/RP2350/src/upaho/properties.py:222-267 | a string or binary field of at most 65535 bytes decodes back to itself, the offset just after it |
| MqttCodec.PrefixedTruncates | core/RP2350/src/upaho/properties.py:247-267 | a longer field is written with its length modulo 65536, and only that many bytes come back |
| MqttProperties.PairTypeIsUser | core/RP2350/src/upaho/enums.py:168-196 | only the user property's identifier has the string-pair encoding in the property table |
| MqttProperties.IndexOf | core/RP2350/src/upaho/properties.py:21-42 | the position found holds the identifier; no position is found only when no entry has it |
| MqttProperties.StoreSpec | core/RP2350/src/upaho/properties.py:21-34 | `set` keeps the identifiers distinct, stores the value (appends the pair to the user property's list, creating it at the end), leaves every other identifier's value and keeps the order of those already present |
| MqttProperties.Without | core/RP2350/src/upaho/properties.py:44-46 | `remove` keeps only entries of other identifiers, taken from the bag |
| MqttProperties.WithoutSpec | core/RP2350/src/upaho/properties.py:44-46 | after `remove` the identifier is gone and every other identifier keeps its value |
| MqttProperties.EncodeValue | core/RP2350/src/upaho/properties.py:82-99 | every encoding of a value of the table's types is at least one byte long |
| MqttProperties.DecodeValue | core/RP2350/src/upaho/properties.py:144-166 | a decoded value has the type asked for and the offset moves forward; failures where the source raises are `None` |
| MqttProperties.DecodeValueRoundTrip | core/RP2350/src/upaho/properties.py:82-166 | `_decode_property_value` inverts `_encode_property_value` for every type and stops just after the encoding |
| MqttProperties.UnpackEntries | core/RP2350/src/upaho/properties.py:118-141 | the loop never moves the offset backwards |
| MqttProperties.UnpackBag | core/RP2350/src/upaho/properties.py:102-141 | a successful `unpack` ends after the offset it started from |
| MqttProperties.UnpackEntriesValid | core/RP2350/src/upaho/properties.py:118-141 | every bag the unpack loop builds has distinct identifiers and storable values, since it is built by `set` |
| MqttProperties.UnpackBagValid | core/RP2350/src/upaho/properties.py:102-141 | whatever `unpack` returns is a well-formed bag |
| MqttProperties.UnknownIdStops | core/RP2350/src/upaho/properties.py:120-128 | an identifier missing from the table stops the loop: earlier entries are kept and the offset is just after that byte |
| MqttProperties.UnpackStep | core/RP2350/src/upaho/properties.py:120-139 | one pass of the loop on a known identifier stores the decoded value as `set` does and continues after it |
| MqttProperties.BodyIsRecords | core/RP2350/src/upaho/properties.py:61-77 | the body `pack` writes is the run of records of the bag's known entries, one per pair for the user property |
| MqttProperties.UnpackRecords | core/RP2350/src/upaho/properties.py:120-139 | the loop reads such a run back exactly, storing each record as `set` would |
| MqttProperties.ReplayRecords | core/RP2350/src/upaho/properties.py:63-139 | storing the records of a well-formed bag in order rebuilds its known entries in order |
| MqttProperties.BodyRoundTrip | core/RP2350/src/upaho/properties.py:61-141 | the entries `pack` writes read back as the bag's known entries, ending exactly at the end of the body |
| MqttProperties.EmptyBodyKnown | core/RP2350/src/upaho/properties.py:58-79 | the body is empty exactly when no entry has a known identifier |
| MqttProperties.PackBagShape | core/RP2350/src/upaho/properties.py:52-79 | `pack` is always the Variable Byte Integer length of the body followed by the body, the empty bag included |
| MqttProperties.PackUnpackRoundTrip | core/RP2350/src/upaho/properties.py:52-141 | `unpack(pack(b))` is the bag's known entries in the order the bag keeps them, with the offset just after the encoding |
| MqttProperties.Properties.constructor | core/RP2350/src/upaho/properties.py:18-19 | a new container is empty |
| MqttProperties.Properties.Set | core/RP2350/src/upaho/properties.py:21-34 | the entries become `Store` of the old entries, and stay well formed |
| MqttProperties.Properties.Get | core/RP2350/src/upaho/properties.py:36-38 | the caller's default when no entry has the identifier, otherwise the value stored under it |
| MqttProperties.Properties.Has | core/RP2350/src/upaho/properties.py:40-42 | true exactly when some entry has the identifier |
| MqttProperties.Properties.Remove | core/RP2350/src/upaho/properties.py:44-46 | the identifier is gone, the others keep their values, and no error when it was absent |
| MqttProperties.Properties.Clear | core/RP2350/src/upaho/properties.py:48-50 | no entries remain |
| MqttProperties.Properties.Pack | core/RP2350/src/upaho/properties.py:52-79 | the loop's output is `PackBag` of the entries |
| MqttProperties.Properties.PackEntry | core/RP2350/src/upaho/properties.py:63-77 | one pass of the loop writes the entry's records, or nothing for an unknown identifier |
| MqttProperties.Properties.Unpack | core/RP2350/src/upaho/properties.py:102-141 | fails exactly when `UnpackBag` does; otherwise a fresh well-formed container holding its entries and its offset |
| MqttProperties.Properties.ReadEntries | core/RP2350/src/upaho/properties.py:118-141 | the loop succeeds exactly when `UnpackEntries` does, and then holds its entries and offset |
| MqttProperties.Properties.ReadRecord | core/RP2350/src/upaho/properties.py:120-139 | one pass: a failure where the source raises, a stop at an unknown identifier, or a stored record with the rest of the block unchanged in meaning |
| MqttPackets.HeaderByte | core/RP2350/src/upaho/packets.py:34-37 | the reader gets back the type from the high nibble and the flags from the low nibble of the first byte |
| MqttPackets.FixedHeaderShape | core/RP2350/src/upaho/packets.py:34-37 | the fixed header is two to five bytes and carries the type and the flags |
| MqttPackets.ReadMid | core/RP2350/src/upaho/packets.py:227-230 | reading the identifier fails exactly when it is present and fewer than two bytes remain |
| MqttPackets.Tail | core/RP2350/src/upaho/packets.py:236-237 | the payload slice is the bytes after the offset, empty when the offset is past the end |
| MqttPackets.PublishFlagsRoundTrip | core/RP2350/src/upaho/packets.py:168-174 | the DUP, QoS and RETAIN bits read back as written, the QoS modulo 4 |
| MqttPackets.PublishQos0Shorter | core/RP2350/src/upaho/packets.py:194-196 | a QoS 0 message differs from the same message at QoS 1 or 2 only by the two identifier bytes |
| MqttPackets.UnpackPublish | core/RP2350/src/upaho/packets.py:212-239 | a decoded PUBLISH has a QoS below 4, identifier 0 at QoS 0 and a well-formed UTF-8 topic |
| MqttPackets.PublishRoundTrip | core/RP2350/src/upaho/packets.py:187-239 | `unpack` of what `pack` wrote gives back topic, payload, flags, identifier (0 at QoS 0) and the known properties under MQTT 5.0 |
| MqttPackets.UnpackAck | core/RP2350/src/upaho/packets.py:269-288 | fails only on fewer than two bytes or a bad property block; two bytes give SUCCESS and no properties; the identifier is the first two bytes |
| MqttPackets.AckRoundTrip | core/RP2350/src/upaho/packets.py:254-288 | an acknowledgement reads back as written under MQTT 5.0, and as SUCCESS without properties under MQTT 3.1.1 |
| MqttPackets.ConnectFlagBits | core/RP2350/src/upaho/packets.py:75-89 | each connect flag reads back from its own bits, the will bits only with a will, and the reserved bit is clear |
| MqttPackets.WillPayloadPrefixed | core/RP2350/src/upaho/packets.py:111-114 | an empty will payload is written as the same two zero bytes a prefixed empty field would be |
| MqttPackets.ConnectLayout | core/RP2350/src/upaho/packets.py:63-126 | a CONNECT body starts with the protocol name, level 5 or 4, the connect flags and the keep alive |
| MqttPackets.UnpackConnAck | core/RP2350/src/upaho/packets.py:140-159 | two bytes give session present from bit 0 and the reason code, with no properties; anything shorter fails |
| MqttPackets.SubItemsLength | core/RP2350/src/upaho/packets.py:313-330 | every topic filter takes at least three bytes |
| MqttPackets.PackSubscribe | core/RP2350/src/upaho/packets.py:302-332 | the loop writes identifier, properties and each filter with its option byte behind a header with flags 0x02 |
| MqttPackets.PackUnsubscribe | core/RP2350/src/upaho/packets.py:380-397 | the loop writes identifier, properties and each prefixed filter behind a header with flags 0x02 |
| MqttPackets.SubItemsReadBack | core/RP2350/src/upaho/packets.py:313-329 | a receiver reading prefixed filters and option bytes until the data ends gets back every filter with the option byte pack wrote for it, in order, when each filter fits its 16-bit length |
| MqttPackets.UnsubItemsReadBack | core/RP2350/src/upaho/packets.py:393-395 | a receiver reading prefixed filters until the data ends gets back exactly the filters, in order, when each fits its 16-bit length |
| MqttPackets.SubscribeLayout | core/RP2350/src/upaho/packets.py:302-332 | the SUBSCRIBE body opens with the packet identifier, and behind the properties reads back as the requested filters with their options |
| MqttPackets.UnsubscribeLayout | core/RP2350/src/upaho/packets.py:380-397 | the UNSUBSCRIBE body opens with the packet identifier, and behind the properties reads back as the filters |
| MqttPackets.ReadCodes | core/RP2350/src/upaho/packets.py:359-365 | the loop collects one code per byte left |
| MqttPackets.UnpackSubAck | core/RP2350/src/upaho/packets.py:346-366 | the identifier is the first two bytes; under MQTT 3.1.1 every later byte is a return code |
| MqttPackets.UnpackUnsubAck | core/RP2350/src/upaho/packets.py:410-428 | the identifier is the first two bytes; under MQTT 3.1.1 there are no reason codes |
| MqttPackets.UnpackDisconnect | core/RP2350/src/upaho/packets.py:479-493 | MQTT 3.1.1 and an empty body give NORMAL_DISCONNECTION; otherwise the first byte is the reason code |
| MqttPackets.DisconnectRoundTrip | core/RP2350/src/upaho/packets.py:465-493 | a DISCONNECT reads back with its code and known properties under MQTT 5.0 and as NORMAL_DISCONNECTION under MQTT 3.1.1 |
| MqttPackets.Pack | core/RP2350/src/upaho/packets.py:25-37 | only packets with a `pack` method encode, as the fixed header followed by the body |
| MqttPackets.PackPublish | core/RP2350/src/upaho/packets.py:187-209 | a PUBLISH is sent as its header with its own flags followed by its body |
| MqttPackets.PackAck | core/RP2350/src/upaho/packets.py:254-266 | an acknowledgement is sent as its header with its type's flags followed by its body |
| MqttPackets.PingReqBytes | core/RP2350/src/upaho/packets.py:437-439 | PINGREQ is the two bytes 0xC0 0x00 |
| MqttPackets.DisconnectV311Bytes | core/RP2350/src/upaho/packets.py:465-469 | DISCONNECT under MQTT 3.1.1 is the two bytes 0xE0 0x00 whatever its code |
| MqttPackets.FixedFlags | core/RP2350/src/upaho/packets.py:34-37 | the first byte sent carries the packet's flags in its low nibble |
| MqttPackets.HeaderFlags | core/RP2350/src/upaho/packets.py:294-296 | SUBSCRIBE, UNSUBSCRIBE and PUBREL carry the reserved flags 0b0010, PUBLISH its own, the rest none |
| MqttPackets.DecodePacket | core/RP2350/src/upaho/mqtt5.py:70-112 | only the packet types a client receives decode; PINGRESP always does |
| MqttPackets.DecodePublish | core/RP2350/src/upaho/mqtt5.py:70-112 | a PUBLISH dispatches to `PublishPacket.unpack` with the flags nibble |
| MqttPackets.DecodeAck | core/RP2350/src/upaho/mqtt5.py:70-112 | each acknowledgement type dispatches to its own `unpack` |
| MqttPackets.DecodeKeepsType | core/RP2350/src/upaho/mqtt5.py:70-112 | a decoded packet has the type it was dispatched on |
| MqttTransport.LengthFrom | core/RP2350/src/upaho/mqtt5.py:34-49 | the remaining length uses one to four bytes and never reads past the stream |
| MqttTransport.ReadFrame | core/RP2350/src/upaho/mqtt5.py:25-60 | a frame starts with the first byte and its body is exactly the bytes just before the end of what was consumed |
| MqttTransport.ReadPacket | core/RP2350/src/upaho/mqtt5.py:17-67 | the reading loops agree with reading the frame and decoding its type and flags nibbles |
| MqttTransport.ReadLength | core/RP2350/src/upaho/mqtt5.py:34-49 | the remaining-length loop agrees with `LengthFrom` |
| MqttTransport.ReadBody | core/RP2350/src/upaho/mqtt5.py:51-60 | the body loop yields exactly the next `remaining` bytes, or `None` when the stream ends first |
| MqttTransport.LengthAgrees | core/RP2350/src/upaho/mqtt5.py:34-49 | wherever the property codec reads a length the header reader reads the same one |
| MqttTransport.LengthFourthByte | core/RP2350/src/upaho/mqtt5.py:38-49 | unlike the property codec, the header reader accepts a fourth byte with its continuation bit set |
| MqttTransport.FrameRoundTrip | core/RP2350/src/upaho/mqtt5.py:17-63 | a frame written by `_pack_fixed_header` and its body reads back as that header byte and body, whatever follows |
| MqttTransport.DecodedFrame | core/RP2350/src/upaho/mqtt5.py:62-63 | a read packet is `decode_packet_data` of the frame's type and flags nibbles and its body |
| MqttTransport.PublishOverStream | core/RP2350/src/upaho/mqtt5.py:17-112 | a packed PUBLISH read off the stream is the message as it reads back, using exactly its bytes |
| MqttTransport.AckOverStream | core/RP2350/src/upaho/mqtt5.py:17-112 | a packed acknowledgement read off the stream is the acknowledgement as it reads back, using exactly its bytes |
| MqttTransport.SendFrom | core/RP2350/src/upaho/mqtt5.py:124-141 | the bytes sent never shrink nor exceed the packet, and the send succeeds exactly when all of them went out |
| MqttTransport.SendPacket | core/RP2350/src/upaho/mqtt5.py:115-141 | the loop agrees with `SendFrom`, and what went out is a prefix of the packed bytes |
| MqttTransport.RetryIsTransparent | core/RP2350/src/upaho/mqtt5.py:131-141 | an EAGAIN or EINPROGRESS reply loses nothing: the loop goes on as if it had not happened |
| MqttTransport.SendsAddUp | core/RP2350/src/upaho/mqtt5.py:124-130 | sends that together take the whole packet send it, however they split it |
| MqttMessage.MessageInfo.constructor | core/RP2350/src/upaho/message.py:105-109 | a new status has its identifier, is queued and is not published |
| MqttMessage.MessageInfo.IsPublished | core/RP2350/src/upaho/message.py:121-123 | a published message is no longer in the queued state |
| MqttMessage.MessageInfo.SetPublished | core/RP2350/src/upaho/message.py:125-128 | the message is published with result code RC_PUBLISHED |
| MqttMessage.MessageInfo.SetConfirmed | core/RP2350/src/upaho/message.py:130-132 | only the result code becomes RC_CONFIRMED; the published flag is left as it was |
| MqttMessage.Message.constructor | core/RP2350/src/upaho/message.py:20-29 | a new message has its identifier and topic and every other field at its default |
| MqttMessage.Message.Topic | core/RP2350/src/upaho/message.py:32-36 | the getter succeeds exactly when the stored bytes are well-formed UTF-8, and then returns them |
| MqttMessage.Message.SetTopic | core/RP2350/src/upaho/message.py:39-43 | a `str` is stored as its UTF-8 bytes, which the getter returns as the same string; nothing else changes |
| MqttMessage.Message.SetPayload | core/RP2350/src/upaho/message.py:51-57 | `None` stores no bytes, a `str` its UTF-8 bytes, anything else its bytes; nothing else changes |
| MqttTopics.FirstSlash | core/RP2350/src/upaho/client.py:1037-1038 | the index found is the first separator in the name |
| MqttTopics.Levels | core/RP2350/src/upaho/client.py:1037-1038 | `split('/')` gives at least one level and no level holds a separator |
| MqttTopics.JoinLevels | core/RP2350/src/upaho/client.py:1037-1038 | joining the levels with separators gives the name back |
| MqttTopics.LevelsJoin | core/RP2350/src/upaho/client.py:1037-1038 | levels without separators split back out of their join |
| MqttTopics.TopicMatchesAsWritten | core/RP2350/src/upaho/client.py:1031-1055 | the index loop decides `MatchesAsWritten` on the levels of filter and topic |
| MqttTopics.TopicMatches | core/RP2350/src/upaho/client.py:1031-1055 | the corrected loop decides `Matches`, the filter semantics of section 4.7.1.2 of MQTT v5.0 |
| MqttTopics.AsWrittenMatches | core/RP2350/src/upaho/client.py:1031-1055 | whatever the written loop accepts, the corrected one accepts too |
| MqttTopics.HashParentLevel | core/RP2350/src/upaho/client.py:1043-1055 | the filter `s/#` does not match the topic `s` as written, but does under the filter semantics |
| MqttTopics.LiteralMatches | core/RP2350/src/upaho/client.py:1049-1055 | a filter without wildcards matches exactly the topic it spells, in both versions |
| MqttTopics.HashMatchesBelow | core/RP2350/src/upaho/client.py:1043-1055 | `prefix/#` matches exactly the topics at or below `prefix`; as written, only those strictly below |
| MqttTopics.PlusIsOneLevel | core/RP2350/src/upaho/client.py:1046-1055 | without `#`, a matching filter has exactly as many levels as the topic |
| MqttTopics.FirstMatch | core/RP2350/src/upaho/client.py:909-914 | a callback filter found is one of the installed filters and matches the topic by the corrected matcher |
| MqttTopics.FirstMatchSpec | core/RP2350/src/upaho/client.py:909-914 | no filter is found exactly when none matches by the corrected matcher, otherwise the first one, in the order the filters are kept, that does |
| MqttSession.NextMidAfter | core/RP2350/src/upaho/client.py:1092-1095 | `_get_next_mid` never returns 0 |
| MqttSession.MidsClosedForm | core/RP2350/src/upaho/client.py:1092-1095 | the k-th identifier counts on from the last one modulo 65535, wrapping from 65535 to 1 |
| MqttSession.MidsDistinct | core/RP2350/src/upaho/client.py:1092-1095 | any 65535 consecutive identifiers are distinct |
| MqttSession.MidsPeriod | core/RP2350/src/upaho/client.py:1092-1095 | the identifiers repeat after 65535 calls |
| MqttSession.Initial | core/RP2350/src/upaho/client.py:86-174 | a new client is disconnected, keeps the invariant, with keep alive 60 and no ping pending |
| MqttSession.FirstTriple | core/RP2350/src/upaho/client.py:657-659 | the registration loop gets through every pair before the first triple, and stops at that triple |
| MqttSession.Drop | core/RP2350/src/upaho/client.py:699-702 | removing a filter keeps every other filter and only those |
| MqttSession.RegisterKeys | core/RP2350/src/upaho/client.py:657-659 | after SUBSCRIBE the registry holds the old filters and the new ones, no others |
| MqttSession.RegisterLast | core/RP2350/src/upaho/client.py:657-659 | a filter takes the QoS and properties of the last item naming it |
| MqttSession.RegisterOthers | core/RP2350/src/upaho/client.py:657-659 | a filter no item names keeps its entry |
| MqttSession.DropAllSpec | core/RP2350/src/upaho/client.py:699-702 | the callbacks `unsubscribe` leaves are exactly those not unsubscribed, still without repeats |
| MqttSession.UnsubscribeRemoves | core/RP2350/src/upaho/client.py:663-704 | `unsubscribe` removes exactly the named filters from the subscriptions and the message callbacks |
| MqttSession.PublishKeepsOk | core/RP2350/src/upaho/client.py:558-613 | `publish` keeps the session invariant |
| MqttSession.SubscribeKeepsOk | core/RP2350/src/upaho/client.py:615-661 | `subscribe` keeps the session invariant |
| MqttSession.UnsubscribeKeepsOk | core/RP2350/src/upaho/client.py:663-704 | `unsubscribe` keeps the session invariant |
| MqttSession.CallbacksKeepOk | core/RP2350/src/upaho/client.py:706-721 | adding and removing a message callback keep the session invariant |
| MqttSession.ConnectKeepsOk | core/RP2350/src/upaho/client.py:277-464 | `connect` keeps the session invariant |
| MqttSession.ConnectKeepsFlows | core/RP2350/src/upaho/client.py:277-464 | `connect` leaves the message flows and the identifier counter alone |
| MqttSession.ConnAckKeepsFlows | core/RP2350/src/upaho/client.py:395-464 | the checks on the CONNACK leave the tables and the identifier counter alone |
| MqttSession.ConnectOutcome | core/RP2350/src/upaho/client.py:277-464 | `connect` succeeds exactly when the CONNECT went out and a CONNACK with SUCCESS came back; the CONNECT carries the keep alive's low sixteen bits; then the client is connected, counts from now and takes an MQTT 5.0 server keep alive |
| MqttSession.HandledKeepsOk | core/RP2350/src/upaho/client.py:842-869 | handling any packet keeps the session invariant |
| MqttSession.PublishPacketKeepsFlows | core/RP2350/src/upaho/client.py:871-920 | an incoming PUBLISH leaves the outgoing flows alone |
| MqttSession.AckKeepsOk | core/RP2350/src/upaho/client.py:922-991 | every acknowledgement handler keeps the session invariant |
| MqttSession.PubAckKeepsOk | core/RP2350/src/upaho/client.py:922-929 | `_handle_puback` keeps the session invariant |
| MqttSession.PubRecKeepsOk | core/RP2350/src/upaho/client.py:931-948 | `_handle_pubrec` keeps the session invariant |
| MqttSession.PubCompKeepsOk | core/RP2350/src/upaho/client.py:979-991 | `_handle_pubcomp` keeps the session invariant |
| MqttSession.LoopKeepsOk | core/RP2350/src/upaho/client.py:723-792 | `loop` keeps the session invariant |
| MqttSession.PubAckOnce | core/RP2350/src/upaho/client.py:922-929 | PUBACK completes an inflight flow once, reports it once, and is ignored for any other identifier |
| MqttSession.OutboundQos2 | core/RP2350/src/upaho/client.py:558-991 | after PUBLISH and PUBREC the flow is inflight and a PUBREL went out; PUBCOMP takes it out of every table and reports it once |
| MqttSession.InboundQos2 | core/RP2350/src/upaho/client.py:871-977 | an incoming QoS 2 message is held until its PUBREL, delivered exactly once, and a repeated PUBREL is still answered |
| MqttSession.InboundQos2Dropped | core/RP2350/src/upaho/client.py:893-907 | a QoS 2 message whose PUBREC cannot be sent is dropped |
| MqttSession.KeepaliveTimeout | core/RP2350/src/upaho/client.py:733-749 | `loop` returns KEEPALIVE_TIMEOUT exactly when connected and 1.5 keep-alive periods passed without a packet, and then disconnects; unconnected it returns NOT_AUTHORIZED |
| MqttSession.PingOnce | core/RP2350/src/upaho/client.py:751-756 | one PINGREQ per keep-alive period until a PINGRESP clears the pending flag |
| MqttSession.DisconnectTwice | core/RP2350/src/upaho/client.py:488-529 | `disconnect` returns SUCCESS and leaves the client disconnected; a second one changes nothing |
| MqttSession.SubscribeTripleRaises | core/RP2350/src/upaho/client.py:615-661 | a SUBSCRIBE listing a triple goes out, but `subscribe` raises and registers only the items before the triple |
| MqttSession.PublishInflight | core/RP2350/src/upaho/client.py:558-613 | QoS 0 is reported at once and never waits; QoS 1 and 2 wait under the new identifier |
| MqttClient.Client.constructor | core/RP2350/src/upaho/client.py:86-174 | a new client holds the configured settings and the session invariant, disconnected, with no address yet |
| MqttClient.Client.NextMid | core/RP2350/src/upaho/client.py:1092-1095 | the identifier handed out is the one after the last, and only the last identifier changes |
| MqttClient.Client.Publish | core/RP2350/src/upaho/client.py:558-613 | a disconnected client returns a queued status with identifier 0 and changes nothing; a QoS outside 0..2 is an error that changes nothing; otherwise the status is published exactly when the write succeeded at QoS 0, and the session takes the publish step |
| MqttClient.Client.PublishOut | core/RP2350/src/upaho/client.py:574-609 | a QoS above 0 takes a fresh identifier; a failed write drops the connection; QoS 0 is published and reported to on_publish, QoS 1 and 2 wait in the inflight table |
| MqttClient.Client.Subscribe | core/RP2350/src/upaho/client.py:615-661 | the fields after subscribe are those of the subscribe step, which refuses a disconnected client and reports a failed write, and the invariant holds |
| MqttClient.Client.RegisterItems | core/RP2350/src/upaho/client.py:657-659 | the registration loop stores each item's QoS and properties in order, up to the first triple, and changes nothing else |
| MqttClient.Client.Unsubscribe | core/RP2350/src/upaho/client.py:663-704 | the fields after unsubscribe are those of the unsubscribe step, and the invariant holds |
| MqttClient.Client.RemoveFilters | core/RP2350/src/upaho/client.py:699-702 | every filter listed leaves the subscriptions and the message callbacks, and nothing else changes |
| MqttClient.Client.MessageCallbackAdd | core/RP2350/src/upaho/client.py:706-713 | the filter's callback is registered as the session step says, keeping the invariant |
| MqttClient.Client.MessageCallbackRemove | core/RP2350/src/upaho/client.py:715-721 | the filter's callback is removed as the session step says, keeping the invariant |
| MqttClient.Client.Disconnect | core/RP2350/src/upaho/client.py:488-529 | the fields and the returned code are those of the disconnect step, and the invariant holds |
| MqttClient.Client.Connect | core/RP2350/src/upaho/client.py:277-464 | the address and keep alive are recorded, and the fields and returned code are those of the connect step: a failed write or a missing, wrong or refusing CONNACK is reported to on_connect and returned, a success connects and reads the broker's limits; the keep alive goes out truncated to sixteen bits |
| MqttClient.Client.Answer | core/RP2350/src/upaho/client.py:408-411 | on_connect sees the code and the session-present flag, and the code is returned |
| MqttClient.Client.ReadConnAck | core/RP2350/src/upaho/client.py:413-464 | the checks on what came back follow the CONNACK step: nothing is a protocol error, another packet type is a protocol error, a refusal is returned as is, and SUCCESS connects |
| MqttClient.Client.ProcessConnAckProperties | core/RP2350/src/upaho/client.py:531-556 | the broker's keep alive, maximum packet size, topic alias maximum and receive maximum are recorded when present |
| MqttClient.Client.RecordLimits | core/RP2350/src/upaho/client.py:539-556 | the three limits the CONNACK properties carry are recorded in turn |
| MqttClient.Client.Reconnect | core/RP2350/src/upaho/client.py:474-486 | before any connect it is an error that changes nothing; afterwards it closes the connection and connects again with the recorded address and keep alive |
| MqttClient.Client.FindCallback | core/RP2350/src/upaho/client.py:909-914 | the callback chosen is that of the first filter, in the order the filters were added, that the topic matches by the corrected matcher |
| MqttClient.Client.DeliverMessage | core/RP2350/src/upaho/client.py:916-920 | the message goes to the callback of the filter the corrected matcher finds, else to on_message, and nothing else changes |
| MqttClient.Client.HandlePublish | core/RP2350/src/upaho/client.py:871-920 | a PUBLISH is stored as a message; QoS 1 is acknowledged and delivered, QoS 2 is acknowledged and held until its PUBREL, QoS 0 is delivered |
| MqttClient.Client.HandlePubAck | core/RP2350/src/upaho/client.py:922-929 | the acknowledged flow leaves the inflight table and the status object held by the publisher is confirmed without changing its published flag |
| MqttClient.Client.HandlePubRec | core/RP2350/src/upaho/client.py:931-948 | a PUBREC is answered with a PUBREL and the identifier is recorded in both QoS 2 tables |
| MqttClient.Client.HandlePubRel | core/RP2350/src/upaho/client.py:950-977 | a PUBREL is answered with a PUBCOMP and the held message, if any, is delivered and forgotten |
| MqttClient.Client.ForgetFlow | core/RP2350/src/upaho/client.py:983-988 | the identifier leaves the inflight table and both QoS 2 tables, and nothing else changes |
| MqttClient.Client.HandlePubComp | core/RP2350/src/upaho/client.py:979-991 | the completed flow is forgotten and its status object is confirmed without changing its published flag |
| MqttClient.Client.Handle | core/RP2350/src/upaho/client.py:842-869 | each packet type goes to its handler as the session step says: acknowledgements to their flows, SUBACK and UNSUBACK to their callbacks, PINGRESP clears the pending ping, DISCONNECT ends the connection |
| MqttClient.Client.HandleAck | core/RP2350/src/upaho/client.py:849-859 | the four QoS acknowledgements reach the handler for their kind |
| MqttClient.Client.SendPingReq | core/RP2350/src/upaho/client.py:1021-1028 | a PINGREQ goes out, or a failed write ends the connection |
| MqttClient.Client.KeepAlive | core/RP2350/src/upaho/client.py:738-757 | the result says whether one and a half keep-alive periods passed without a packet, and the fields follow the keep-alive step |
| MqttClient.Client.Ping | core/RP2350/src/upaho/client.py:751-756 | a PINGREQ is sent and stays pending from now |
| MqttClient.Client.Loop | core/RP2350/src/upaho/client.py:723-792 | the fields and returned code are those of one loop step, and the session invariant holds after every call |
| MqttClient.Client.LoseConnection | core/RP2350/src/upaho/client.py:770-786 | the connection is gone and on_disconnect sees the code, which is returned |
| RingBuffers.NewestIsSuffix | core/RP2350/src/ringbuffer.py:54-63 | what put keeps is the last size - 1 bytes written, in order, never more |
| RingBuffers.NewestStep | core/RP2350/src/ringbuffer.py:58-63 | dropping the oldest byte after each write keeps the same bytes as dropping once at the end |
| RingBuffers.NewestKeepsAll | core/RP2350/src/ringbuffer.py:54-63 | while the written bytes fit, put loses none of them |
| RingBuffers.RingPush | core/RP2350/src/ringbuffer.py:59-63 | one write on the raw slots: the byte lands at the head and the window is the newest size - 1 bytes of the old window plus the byte |
| RingBuffers.RingSlices | core/RP2350/src/ringbuffer.py:80-82 | the one slice or the two wrapped slices get and peek copy are exactly the stored bytes from the tail |
| RingBuffers.RingAdvance | core/RP2350/src/ringbuffer.py:83-83 | moving the tail on by m leaves m fewer bytes, the old window without its first m |
| RingBuffers.Search | core/RP2350/src/ringbuffer.py:8-39 | the search result is -1 or a position at or after its start where the pattern occurs |
| RingBuffers.FirstOccurrenceIsFirst | core/RP2350/src/ringbuffer.py:8-39 | the reference search gives -1 exactly when the pattern does not occur, and otherwise an occurrence with none before it |
| RingBuffers.ScanAsWritten | core/RP2350/src/ringbuffer.py:19-39 | the scan as written returns -1 or a position |
| RingBuffers.FindAsWrittenSound | core/RP2350/src/ringbuffer.py:8-39 | the finder as written reports only true occurrences |
| RingBuffers.AsWrittenMissesOverlap | core/RP2350/src/ringbuffer.py:29-34 | the finder as written misses aab inside aaab, which does occur at 1 |
| RingBuffers.FindPatternAsWritten | core/RP2350/src/ringbuffer.py:8-39 | the loop over the ring slots computes the as-written scan of the search window, min(available, max_search) bytes from the tail, or -1 when the window is shorter than the pattern |
| RingBuffers.FindPattern | core/RP2350/src/ringbuffer.py:8-39 | the corrected loop returns the first occurrence of the pattern in the search window, or -1 |
| RingBuffers.CandidateGrows | core/RP2350/src/ringbuffer.py:23-28 | a matching byte completes the first occurrence or extends the candidate |
| RingBuffers.CandidateFails | core/RP2350/src/ringbuffer.py:29-34 | after a mismatch the next candidate starts one byte after the failed one, and none lies before it |
| RingBuffers.CandidateExhausted | core/RP2350/src/ringbuffer.py:39-39 | a window that ends before the candidate completes holds no occurrence |
| RingBuffers.RingBuffer.Avail | core/RP2350/src/ringbuffer.py:66-67 | the stored count is (head - tail) mod size and always less than size |
| RingBuffers.RingBuffer.constructor | core/RP2350/src/ringbuffer.py:42-51 | a new buffer has the given size and holds nothing |
| RingBuffers.RingBuffer.Create | core/RP2350/src/ringbuffer.py:42-51 | a size below 2 is an error; otherwise the buffer is empty with that size |
| RingBuffers.RingBuffer.PutByte | core/RP2350/src/ringbuffer.py:59-63 | after one byte the contents are the newest size - 1 bytes of the old contents plus the byte |
| RingBuffers.RingBuffer.Put | core/RP2350/src/ringbuffer.py:54-63 | after put the contents are the newest size - 1 bytes of the old contents followed by the data |
| RingBuffers.RingBuffer.Peek | core/RP2350/src/ringbuffer.py:87-102 | n below 1 is an error; otherwise the oldest min(n, avail) bytes, and nothing changes |
| RingBuffers.RingBuffer.Get | core/RP2350/src/ringbuffer.py:70-84 | n below 1 is an error that changes nothing; otherwise the oldest min(n, avail) bytes are returned and leave the buffer, and the head stays |
| RingBuffers.RingBuffer.GetUntil | core/RP2350/src/ringbuffer.py:104-121 | an empty pattern is an error; otherwise the bytes up to and including the first occurrence in the window of min(avail, max_size) bytes, found by the corrected search, leave the buffer, or None when there is none, which changes nothing |
| RingBuffers.GetUntilMeaning | core/RP2350/src/ringbuffer.py:104-121 | what the corrected get_until returns ends with the pattern and holds no earlier occurrence, and None means the window holds none |
| Slip.EscapeShape | core/RP2350/src/slip.py:36-54 | an escaped payload holds no END and is between one and two times the payload's length, so the 2n + 2 bytes allocated suffice |
| Slip.EncodeCore | core/RP2350/src/slip.py:8-27 | the loop writes the escaped payload from index 1 and returns the index just past it, at most 2n + 1 |
| Slip.EncodeByte | core/RP2350/src/slip.py:13-24 | one turn writes the escape sequence of the byte after those already written |
| Slip.Encode | core/RP2350/src/slip.py:36-54 | encode returns END, the escaped payload, END |
| Slip.RunConcat | core/RP2350/src/slip.py:73-105 | feeding a stream in two chunks gives the state and frames of feeding it at once |
| Slip.StepClean | core/RP2350/src/slip.py:90-104 | the corrected step never collects a byte outside a frame |
| Slip.RunEscaped | core/RP2350/src/slip.py:79-88 | inside an open frame an escaped payload is collected byte for byte |
| Slip.FrameFrom | core/RP2350/src/slip.py:73-105 | a frame fed to a decoder outside a frame yields one frame and leaves it idle |
| Slip.RoundTrip | core/RP2350/src/slip.py:36-105 | decoding an encoded payload gives exactly that payload as one frame, and the decoder is idle again |
| Slip.RoundTripTwo | core/RP2350/src/slip.py:36-105 | frames sent back to back come back one by one, in order |
| Slip.Resync | core/RP2350/src/slip.py:84-86 | an invalid escape resets the decoder, and the next frame arrives intact |
| Slip.AsWrittenEscaped | core/RP2350/src/slip.py:79-88 | the as-written step also collects an escaped payload byte for byte inside a frame |
| Slip.AsWrittenFrameFrom | core/RP2350/src/slip.py:73-105 | the as-written step also yields a frame fed outside a frame |
| Slip.AsWrittenLeaksEscape | core/RP2350/src/slip.py:79-88 | as written, ESC ESC_END before any frame puts an END byte at the front of the next frame |
| Slip.EscapeOutsideDropped | core/RP2350/src/slip.py:79-104 | the corrected step drops an escaped byte outside a frame, so the next frame is intact |
| Slip.AsWrittenConcat | core/RP2350/src/slip.py:73-105 | the as-written feed also does not depend on how the stream is cut into chunks |
| Slip.SlipDecoder.constructor | core/RP2350/src/slip.py:63-66 | a new decoder is idle |
| Slip.SlipDecoder.Reset | core/RP2350/src/slip.py:68-71 | reset leaves the decoder idle |
| Slip.SlipDecoder.FeedByte | core/RP2350/src/slip.py:79-104 | one byte moves the decoder as the corrected step says and returns the frame it completes |
| Slip.SlipDecoder.Feed | core/RP2350/src/slip.py:73-105 | feed returns the frames the chunk completes under the corrected step, in order, and leaves the decoder as the run over the chunk says |
| Sensors.QDecodes | device/ticle/src/ext/nb_impl.py:11-12 | a quantity code gives back its domain in the upper byte and its detail in the lower |
| Sensors.QInjective | device/ticle/src/ext/nb_impl.py:11-12 | distinct domain and detail pairs never share a code |
| Sensors.Deliveries | device/ticle/src/ext/nb_impl.py:187-190 | _emit calls every subscriber once, in list order, with the sample |
| Sensors.RemoveFirstMultiset | device/ticle/src/ext/nb_impl.py:177-180 | list.remove takes away one occurrence of the callback when there is one, and nothing else |
| Sensors.SubscribeMeaning | device/ticle/src/ext/nb_impl.py:169-172 | after subscribe a known quantity lists the callback exactly once, other lists are untouched, no quantity is added and no list gains a repeat |
| Sensors.SubscribeIdempotent | device/ticle/src/ext/nb_impl.py:169-172 | subscribing twice is subscribing once |
| Sensors.UnsubscribeMeaning | device/ticle/src/ext/nb_impl.py:174-180 | after unsubscribe the callback is gone from its list, nothing else is removed, and other lists are untouched; an unknown quantity or callback changes nothing |
| Sensors.UnsubscribeUndoesSubscribe | device/ticle/src/ext/nb_impl.py:169-180 | unsubscribing a callback just subscribed restores the lists |
| Sensors.EmitAllLast | device/ticle/src/ext/nb_impl.py:185-190 | emitting never changes the subscriber lists, and the last sample of a quantity is the last one emitted for it |
| Sensors.EmitAllSubs | device/ticle/src/ext/nb_impl.py:185-190 | a run of emits leaves the subscriber lists alone |
| Sensors.Adapter.constructor | device/ticle/src/ext/nb_impl.py:148-155 | a new adapter has an empty subscriber list and no sample for every channel, and zeroed statistics |
| Sensors.Adapter.Subscribe | device/ticle/src/ext/nb_impl.py:169-172 | the lists become those after subscribe, still without repeats, and nothing else changes |
| Sensors.Adapter.Unsubscribe | device/ticle/src/ext/nb_impl.py:174-180 | the lists become those after unsubscribe, still without repeats, and nothing else changes |
| Sensors.Adapter.Last | device/ticle/src/ext/nb_impl.py:182-183 | a sample returned is the stored last sample of that quantity |
| Sensors.Adapter.Emit | device/ticle/src/ext/nb_impl.py:185-190 | the sample is stored as the last one of its quantity before every subscriber is called in order, and the statistics stay |
| Sensors.Adapter.UpdateOnce | device/ticle/src/ext/nb_impl.py:192-207 | a driver that raised counts a failure and records BUS_ERR and returns false; otherwise the read is counted, the maximum time kept, OK recorded and the driver's result returned |
| Sensors.RemoveFirstKeepsNoDup | device/ticle/src/ext/nb_impl.py:177-180 | removing a callback keeps a list free of repeats |
| Buttons.StepValid | device/ticle/src/ext/button_nb.py:72-125 | every update keeps a long press tied to a held button |
| Buttons.DebounceIgnores | device/ticle/src/ext/button_nb.py:89-90 | a level change within the debounce time of the last accepted edge is ignored: level and edge time stay, and only a due CLICKED can be emitted |
| Buttons.EdgeAccepted | device/ticle/src/ext/button_nb.py:92-105 | an edge after the debounce time is accepted: level and edge time follow it, the state sample goes out, and PRESSED or RELEASED exactly when emit_press_release is set |
| Buttons.PressReleaseOnlyWhenAsked | device/ticle/src/ext/button_nb.py:95-105 | PRESSED and RELEASED never appear when the option is off, and a state sample only with an accepted edge |
| Buttons.LongOncePerPress | device/ticle/src/ext/button_nb.py:81-87 | LONG_PRESSED fires at most once while the button is held, and not at all when it already fired for this press |
| Buttons.LongStepHeld | device/ticle/src/ext/button_nb.py:119-123 | one update of a held button emits LONG_PRESSED at most once, only when it had not fired, and then records it |
| Buttons.ReleaseEdgeReleases | device/ticle/src/ext/button_nb.py:92-94 | an accepted release leaves the button released |
| Buttons.ReleaseAfterLongCancels | device/ticle/src/ext/button_nb.py:107-109 | releasing after a long press emits no click of any kind and leaves nothing pending |
| Buttons.SecondShortPressDoubleClicks | device/ticle/src/ext/button_nb.py:111-114 | releasing a short press inside an open window is a double click, and closes the window |
| Buttons.ShortPressOpensWindow | device/ticle/src/ext/button_nb.py:115-117 | releasing a short press with no window open opens one of the double-click window length |
| Buttons.DoubleClickOnlyInWindow | device/ticle/src/ext/button_nb.py:111-114 | DOUBLE_CLICKED comes only from the release of a short press inside an open window |
| Buttons.ClickedOnExpiry | device/ticle/src/ext/button_nb.py:77-79 | CLICKED is emitted exactly when the window has run out while the button reads released |
| Buttons.EmitAllConcat | device/ticle/src/ext/button_nb.py:66-70 | emitting samples in two runs is emitting them in one |
| Buttons.ButtonNB.constructor | device/ticle/src/ext/button_nb.py:19-39 | a new button takes the options, reads the device's level, has nothing pending, has the state and event channels, and publishes its level on the state channel |
| Buttons.ButtonNB.SetOptions | device/ticle/src/ext/button_nb.py:47-61 | each option given replaces the current one, the others and the button state stay |
| Buttons.ButtonNB.ExpirePhase | device/ticle/src/ext/button_nb.py:77-79 | the expiry check moves the state and emits as the expiry step says |
| Buttons.ButtonNB.LongPhase | device/ticle/src/ext/button_nb.py:81-87 | the long-press check moves the state and emits as the long step says |
| Buttons.ButtonNB.EdgePhase | device/ticle/src/ext/button_nb.py:92-105 | an accepted edge moves the state and emits as the edge step says |
| Buttons.ButtonNB.ReleasePhase | device/ticle/src/ext/button_nb.py:102-117 | a release moves the state and emits as the release step says |
| Buttons.ButtonNB.UpdateImpl | device/ticle/src/ext/button_nb.py:72-125 | one update moves the state and emits the samples of one step, leaves the adapter's counters and returns True |
| Buttons.ButtonNB.UpdateOnce | device/ticle/src/ext/button_nb.py:72-125 | an update through the adapter does the step and records a successful read |
| RelayBank.Put | device/ticle/src/ext/actuators/relays/relays.py:89-91 | the relay takes the state and its pin follows; contact types, groups and auto-change stay |
| RelayBank.SetState | device/ticle/src/ext/actuators/relays/relays.py:84-92 | a request keeps contact types, groups and auto-change and the number of relays |
| RelayBank.RefusedOnlyForRival | device/ticle/src/ext/actuators/relays/relays.py:66-92 | a request is refused exactly when it turns a grouped relay ON while another relay of its group is ON and the group has no auto-change, and a refused request changes nothing |
| RelayBank.OffNeverRefused | device/ticle/src/ext/actuators/relays/relays.py:66-69 | OFF, or any state for a relay outside every group, is never refused and just sets the relay |
| RelayBank.AcceptedSets | device/ticle/src/ext/actuators/relays/relays.py:66-104 | a request carried out sets the relay and keeps every pin in step with its state; any other relay that changed was an ON rival of its group switched OFF under auto-change |
| RelayBank.AutoChangeClearsGroup | device/ticle/src/ext/actuators/relays/relays.py:71-79 | under auto-change turning a grouped relay ON always succeeds and leaves it the only ON relay of its group |
| RelayBank.OneOnPerGroupKept | device/ticle/src/ext/actuators/relays/relays.py:66-92 | at most one relay per interlock group stays ON across any request |
| RelayBank.SetAllOff | device/ticle/src/ext/actuators/relays/relays.py:111-113 | switching a run of relays OFF is never refused and touches no other relay |
| RelayBank.EmergencyStopMeaning | device/ticle/src/ext/actuators/relays/relays.py:192-198 | after an emergency stop every listed relay is OFF and in no group, and every other relay keeps its state and its group |
| RelayBank.ToggleUngrouped | device/ticle/src/ext/actuators/relays/relays.py:180-183 | with no listed relay in a group and no index repeated, toggle flips each listed relay and leaves the rest alone |
| RelayBank.SetEachUngrouped | device/ticle/src/ext/actuators/relays/relays.py:155-160 | the list form of the setter on ungrouped relays gives each listed relay its state and leaves the rest alone |
| RelayBank.NormallyClosedStartsOnAsWritten | device/ticle/src/ext/actuators/relays/relays.py:25-31 | as written, a normally closed relay starts with its pin LOW, out of step with its OFF state, so its load is on |
| RelayBank.Relays.constructor | device/ticle/src/ext/actuators/relays/relays.py:15-31 | a new bank has one contact type, every relay OFF and in no group, and every pin written to show OFF through its contact type, the corrected start |
| RelayBank.Relays.Create | device/ticle/src/ext/actuators/relays/relays.py:15-17 | a bank without a pin is refused; otherwise it starts with every relay OFF and its pins showing OFF, the corrected start |
| RelayBank.Relays.SetInterlockAutoChange | device/ticle/src/ext/actuators/relays/relays.py:45-47 | the group's auto-change flag is set, and no group changes nothing |
| RelayBank.Relays.UpdatePhysicalOutput | device/ticle/src/ext/actuators/relays/relays.py:94-104 | the pin shows the relay's state, inverted for a normally closed contact, and nothing else changes |
| RelayBank.Relays.CheckInterlock | device/ticle/src/ext/actuators/relays/relays.py:66-82 | the loop leaves the bank and returns the verdict the interlock function gives, switching auto-change rivals OFF on the way |
| RelayBank.Relays.SetRelayState | device/ticle/src/ext/actuators/relays/relays.py:84-92 | the bank and the result are those of the request function, and every pin stays in step |
| RelayBank.Relays.SetStateAll | device/ticle/src/ext/actuators/relays/relays.py:111-113 | each listed relay is requested in turn, refusals ignored |
| RelayBank.Relays.SetStates | device/ticle/src/ext/actuators/relays/relays.py:155-162 | a list of the wrong length is refused with nothing changed; otherwise each relay takes its own state in turn |
| RelayBank.Relays.Toggle | device/ticle/src/ext/actuators/relays/relays.py:180-183 | every listed relay is asked for the opposite of the state it had before the call |
| RelayBank.Relays.SetContactTypeAll | device/ticle/src/ext/actuators/relays/relays.py:120-123 | each listed relay gets the contact type and its pin is rewritten to match, nothing else changes |
| RelayBank.Relays.SetInterlockGroupAll | device/ticle/src/ext/actuators/relays/relays.py:130-132 | each listed relay joins the group, nothing else changes |
| RelayBank.Relays.EmergencyStop | device/ticle/src/ext/actuators/relays/relays.py:192-198 | the listed relays leave their groups and are then switched OFF |
| RelayBank.SwitchOffStep | device/ticle/src/ext/actuators/relays/relays.py:73-79 | one more index of the auto-change loop switches that relay OFF when it is a rival, keeping every pin in step |
| IrReceiver.CloseScaled | device/ticle/src/ext/ky022.py:147-149 | rounding the tolerance down loses nothing: a width is close exactly when its distance times 100 is at most the target times the percentage |
| IrReceiver.LsbBound | device/ticle/src/ext/ky022.py:190-200 | a value built from n bits is below 2^n |
| IrReceiver.LsbBit | device/ticle/src/ext/ky022.py:228-234 | bit k of the value is the k-th bit received |
| IrReceiver.FirstErrorMeaning | device/ticle/src/ext/ky022.py:193-196 | the bit loop fails exactly when some bit fails, and reports the first failure |
| IrReceiver.NecShiftInValue | device/ticle/src/ext/ky022.py:193-200 | shifting each NEC bit in from the top leaves the first bit lowest: after all 32 the word is the bits' value, first bit least significant |
| IrReceiver.ReadNecBits | device/ticle/src/ext/ky022.py:190-200 | the NEC bit loop fails with the first bad mark or timed-out pulse, and otherwise yields the 32 space bits as a word, first bit lowest |
| IrReceiver.NecShift | device/ticle/src/ext/ky022.py:198-200 | one step of the NEC loop shifts the partial word right and puts a 1 bit on top |
| IrReceiver.XorAllOnes | device/ticle/src/ext/ky022.py:206-211 | two n-bit values XOR to all ones exactly when one is the complement of the other |
| IrReceiver.XorComplement | device/ticle/src/ext/ky022.py:206-211 | the byte check passes exactly when the second byte is the complement of the first |
| IrReceiver.NecFieldsOfWord | device/ticle/src/ext/ky022.py:202-217 | a NEC word gives back its command when sent with its complement, else BADDATA; NEC_8 gives the address when sent with its complement, else BADADDR; other protocols the 16-bit address |
| IrReceiver.WordBytes | device/ticle/src/ext/ky022.py:202-205 | the four bytes come back out of the word they make |
| IrReceiver.NecFrameDecodes | device/ticle/src/ext/ky022.py:167-217 | a NEC data frame whose pulses are all sound decodes to the address and command its spaces spell |
| IrReceiver.NecRepeatReplaysLast | device/ticle/src/ext/ky022.py:179-188 | a NEC repeat code stands for the last command and address, and is refused with BADREP when no command was received yet |
| IrReceiver.CapNecLike | device/ticle/src/ext/ky022.py:167-217 | the capture with its bit loop returns what the NEC capture function gives: BADSTART for a bad leader, BADREP for a bad repeat, the first bit error, BADDATA or BADADDR, or the frame |
| IrReceiver.SircFieldsRoundTrip | device/ticle/src/ext/ky022.py:236-244 | the SIRC command, address and extension come back out of the value they are packed into, for 12, 15 and 20 bits |
| IrReceiver.SircFrameDecodes | device/ticle/src/ext/ky022.py:219-244 | a SIRC frame whose pulses are all sound decodes to the command, address and extension its spaces spell |
| IrReceiver.CapSirc | device/ticle/src/ext/ky022.py:219-244 | the SIRC capture with its bit loop returns what the SIRC capture function gives: BADSTART, the first bit error, or the frame |
| IrReceiver.ClearToggleBits | device/ticle/src/ext/ky022.py:438-441 | clearing bits 2 and 3 of the command keeps the bits below and above them |
| IrReceiver.RepeatDroppedWhenOff | device/ticle/src/ext/ky022.py:426-428 | with repeats switched off a repeat frame changes nothing and queues nothing |
| IrReceiver.RepeatRateLimited | device/ticle/src/ext/ky022.py:426-433 | a repeat is queued only after the first-repeat delay since the last full frame and the minimum interval since the last repeat, and restarts the interval; when both passed and the hold filter lets it through it is queued |
| IrReceiver.FullFrameQueued | device/ticle/src/ext/ky022.py:434-448 | a full frame restarts the repeat timing and is queued unless the hold filter stops it |
| IrReceiver.QueuedPassedHold | device/ticle/src/ext/ky022.py:443-452 | whatever is queued passed the hold filter and becomes the key the next frame is compared with |
| IrReceiver.RepeatQueuesLastKey | device/ticle/src/ext/ky022.py:128-134 | an accepted repeat queues the command and address of the frame it repeats |
| IrReceiver.IrQueue.constructor | device/ticle/src/ext/ky022.py:90-93 | the queue has max(2, queue_size) slots and is empty |
| IrReceiver.IrQueue.Put | device/ticle/src/ext/ky022.py:454-460 | the event is appended, and a full queue drops its oldest so it keeps the newest len - 1 |
| IrReceiver.IrQueue.GetNowait | device/ticle/src/ext/ky022.py:462-468 | an empty queue gives nothing and stays empty; otherwise the oldest event is returned and leaves |
| IrReceiver.Receiver.constructor | device/ticle/src/ext/ky022.py:33-93 | a new receiver has the settings, an empty queue of max(2, queue_size) slots, and no memory of past frames |
| IrReceiver.Receiver.GatePhase | device/ticle/src/ext/ky022.py:426-436 | the repeat checks pass or stop as the gate function says and update the repeat timing only when they pass |
| IrReceiver.Receiver.ThrottlePhase | device/ticle/src/ext/ky022.py:438-452 | the hold filter and the queueing update the memory and the queue as the throttle function says |
| IrReceiver.Receiver.FinishOk | device/ticle/src/ext/ky022.py:423-452 | the memory and the queue after _finish_ok are those of the finish function |
| IrReceiver.Receiver.OnCapture | device/ticle/src/ext/ky022.py:128-139 | a capture sets the last address and command and is finished; a failed capture changes nothing |
| IrReceiver.Receiver.DecodeNec | device/ticle/src/ext/ky022.py:128-217 | decoding NEC pulses updates the memory and the queue as the NEC capture and then the finish step say |
| IrReceiver.Receiver.DecodeSirc | device/ticle/src/ext/ky022.py:128-244 | decoding SIRC pulses updates the memory and the queue as the SIRC capture and then the finish step say |
| IrReceiver.Receiver.Get | device/ticle/src/ext/ky022.py:102-104 | a non-blocking get returns the oldest queued event, or nothing from an empty queue |
| Ranger.EncodeTimeout | device/ticle/src/ext/distance/vl53l0x/vl53l0x.py:309-318 | the halving loop yields the register code the encoding function defines |
| Ranger.HalveApprox | device/ticle/src/ext/distance/vl53l0x/vl53l0x.py:313-317 | every halving keeps the count minus one between the scaled mantissa and the next step up, and a nonzero exponent only with a mantissa of at least 128 |
| Ranger.TimeoutCodeMeaning | device/ticle/src/ext/distance/vl53l0x/vl53l0x.py:304-318 | for counts up to 2^32 the register stands for the count rounded down to a multiple of 2^exponent, never more than the count and less than one step below it; counts up to 256 are exact; a count that is not positive gives 0 |
| Ranger.TimeoutCodeParts | device/ticle/src/ext/distance/vl53l0x/vl53l0x.py:309-318 | the code is the exponent in the high byte and the mantissa in the low byte, with the count placed between them |
| Ranger.TimeoutRoundTrip | device/ticle/src/ext/distance/vl53l0x/vl53l0x.py:304-318 | a register value whose mantissa has its top bit set whenever its exponent is nonzero is encoded back from what it decodes to |
| Ranger.RegisterFields | device/ticle/src/ext/distance/vl53l0x/vl53l0x.py:304-307 | a register value splits into its two bytes and decodes to mantissa times 2^exponent plus one |
| Ranger.MclksToUs | device/ticle/src/ext/distance/vl53l0x/vl53l0x.py:323-325 | the corrected conversion is within half a microsecond of the macro clocks' exact duration |
| Ranger.MclksToUsAsWrittenOverstates | device/ticle/src/ext/distance/vl53l0x/vl53l0x.py:323-325 | as written, one macro clock at VCSEL period 12 (45757 ns) converts to 68 us instead of 46, further off than rounding allows |
| Ranger.UsToMclks | device/ticle/src/ext/distance/vl53l0x/vl53l0x.py:327-329 | the number of macro periods is the nearest to the duration; a VCSEL period of 0 makes the division fail |
| Ranger.UsRoundTrip | device/ticle/src/ext/distance/vl53l0x/vl53l0x.py:323-329 | going to macro periods and back lands within half a macro period and the rounding of where it started |
| Ranger.Vl53l0x.Accept | device/ticle/src/ext/distance/vl53l0x/vl53l0x.py:224-237 | 0xFFFF and out-of-range readings are refused; statuses 0, 5 and 11 accept the rest; statuses 1 and 2 accept exactly the readings within the threshold of an earlier good one; any other status is refused |
| Ranger.Vl53l0x.constructor | device/ticle/src/ext/distance/vl53l0x/vl53l0x.py:56-66 | the acceptance settings are stored with no good reading yet, and the median window and minimum fill are exactly those set_median leaves for the given arguments: an odd window of at least 3 and a fill between 1 and it when filtering is on |
| Ranger.Vl53l0x.SetMedian | device/ticle/src/ext/distance/vl53l0x/vl53l0x.py:111-123 | switched off, there is no filter and the minimum fill is 1; switched on, the window is 3 for a smaller one, itself when odd and one more when even, and the minimum fill is 1 below 1, itself up to the window and the window above it; the acceptance settings stay |
| Bme68x.ShrinkFactor | device/ticle/src/ext/environmental/bme68x/bme68x.py:820-828 | the encoding loop never takes the factor past 3 |
| Bme68x.EncodeGasWait | device/ticle/src/ext/environmental/bme68x/bme68x.py:820-828 | the encoding loop yields the register byte the encoding function defines |
| Bme68x.ShrinkApprox | device/ticle/src/ext/environmental/bme68x/bme68x.py:825-827 | every step of the loop keeps the duration between the encoded value and one mantissa step up, and a coarser factor only when the duration needs it |
| Bme68x.GasWaitCodeMeaning | device/ticle/src/ext/environmental/bme68x/bme68x.py:554-557 | for a duration the register can hold, the code stands for it rounded down to a multiple of its scale, never longer and less than one step below; coarser scales only when needed; longer durations give 0xFF, the longest the register holds |
| Bme68x.GasWaitSmallExact | device/ticle/src/ext/environmental/bme68x/bme68x.py:820-828 | durations up to 63 ms are stored exactly |
| Bme68x.GasWaitNotLonger | device/ticle/src/ext/environmental/bme68x/bme68x.py:554-557 | the decoded heater duration never exceeds what was asked for below the register's limit |
| Bme68x.GasWaitRoundTrip | device/ticle/src/ext/environmental/bme68x/bme68x.py:554-557 | a code whose mantissa is at least 16 whenever its factor is nonzero is encoded back from the duration it stands for |
| Bme68x.PredictGasWait | device/ticle/src/ext/environmental/bme68x/bme68x.py:573-580 | the predicted heater duration always lies between 20 and 120 ms |
| Bme68x.PredictGasWaitMeaning | device/ticle/src/ext/environmental/bme68x/bme68x.py:573-580 | inside the band the duration is the period times 120 / 3000 rounded down, 20 below it and 120 above, and a longer period never gives a shorter duration |
| Bme68x.GasSettings.constructor | device/ticle/src/ext/environmental/bme68x/bme68x.py:149-150 | the baseline starts at 90 kOhm and the auto-update interval at five minutes |
| Bme68x.GasSettings.SetGasBaseline | device/ticle/src/ext/environmental/bme68x/bme68x.py:207-208 | the baseline is the value, or the nearer end of the 80 to 320 kOhm band when outside it, and the settings stay in their ranges |
| Bme68x.GasSettings.SetGasBaselineAutoUpdateMs | device/ticle/src/ext/environmental/bme68x/bme68x.py:215-216 | the auto-update interval is at least one minute, and the settings stay in their ranges |

## Left out

- Sockets, DNS lookup, TLS, `bind_address`, socket timeouts, `uselect` polling, `gc.collect` and the 100 ms sleep in `disconnect` are input and output. Each operation takes the outcome of a write as a `sendOk` flag, and `loop` takes what the poll found as an `Arrival`.
- `loop_forever`, `loop_start`, `loop_stop` and `connect_async` are a thread and retry wrapper around `connect` and `loop`. They are not modelled.
- `username_pw_set`, `will_set`, `will_clear`, `tls_set`, `tls_insecure_set`, `user_data_set`, `reconnect_delay_set`, `max_inflight_messages_set` and `message_retry_set` only store settings. The settings that the CONNECT packet uses are the `Config` given to the `Client` constructor. The others are never read by the modelled code and are not kept.
- `enable_logger`, `disable_logger`, `_log`, the `__repr__` methods and `sys.print_exception` are logging.
- `is_connected`, `MQTTMessageInfo.mid` and `rc`, and the `qos`, `retain` and `properties` accessors of `MQTTMessage` are plain field reads. The fields are public in the model.
- `MQTTMessageInfo.wait_for_publish` is a sleep loop. `SubscriptionInfo` is never used by the client.
- Callbacks are named by which `on_*` attribute they are, or by their topic filter. Their arguments are recorded in the event log. Exceptions a user callback raises are not modelled.
- The topic alias tables are initialised and never used, so they are not modelled.
- `time.ticks_ms` and `ticks_diff` wrap around, but time here is an unbounded count of milliseconds. The loop's float test "elapsed / 1000 >= keepalive * 1.5" is stated exactly, as 2 * elapsed >= 3000 * keepalive. The same unbounded time is used in the button machine and the IR filters.
- Strings are modelled as their UTF-8 bytes, and a `str` argument as the bytes it encodes to. MicroPython's own UTF-8 decoder is modelled by its well-formedness check.
- Sensors.Adapter.UpdateOnce: the float running average `avg_us` is not kept, and `_update_impl` and the timing are parameters, namely its outcome and `dtUs`.
- Sensors.Q: the codes are stated only for details below 256. For larger details `(dom << 8) | id` would mix the two bytes.
- A `Sample` has no timestamp `ts_us`, since it comes from the clock. Its shape is always the scalar `()`. Its value is an integer.
- Buttons.ButtonNB.UpdateImpl: the device read `_read_pressed` is the parameter `cur`, and `now_ms` is the parameter `t`. Without a `now_ms` the source reads the clock.
- RelayBank.Relays: `deinit`, which includes a sleep, and the `_View` indexing are not modelled. A view is the list of indices it selects. `pulse` is two `state` writes around a sleep, and each write is `SetStateAll`. The getters `_get_*_list` only read fields.
- `IrReceiver`:
  - The pin interrupt, `micropython.schedule` and `machine.time_pulse_us` are not modelled. The measured pulse widths are parameters, and a negative width stands for a pulse that timed out.
  - The RC5, RC6, Panasonic and Carrier/HVAC-NEC captures are not modelled. Neither is the raising for an unknown protocol in `_capture_frame`.
  - `get` with `block=True` is a sleep-and-retry loop around `_q_get_nowait`.
- IrReceiver.IrQueue.GetNowait: the slot is not reset to `None` after it is read. The slot is outside the queued window, so no operation can observe it.
- `Bme68x`: the I2C access, the heater profile, the IAQ average and `gas_update_hint_ms` are not modelled. They are register I/O or floats.
- Bme68x.PredictGasWait: the float `120 * base / 3000` is taken as an exact rational before `int()` truncates it toward zero. A float error for very large periods is not modelled.
- Bme68x.GasWaitCodeMeaning: stated only for durations that are not negative. A negative duration leaves the loop at once, and `GasWaitCode` gives its remainder modulo 64 with factor 0.
- `Ranger`: the I2C access, the initialisation sequence, `read`, `_read_nowait` and the `Median` filter class are not modelled. The filter's window and minimum fill are.
- Ranger.TimeoutCodeMeaning: stated only for counts up to 2^32, where the exponent stays below 25. Larger counts are not covered.
- MqttTopics.FirstMatch: uses the corrected matcher of the first finding, so filter `s/#` is found for topic `s`, where the source's `_topic_matches` (client.py:1031-1055) finds nothing and the message goes to `on_message`.
- MqttTopics.FirstMatchSpec: specifies the search with the corrected matcher, and over the filters in the order they were added. MicroPython's `dict` iterates `_message_callbacks` in an order it leaves unspecified, so which of several matching callbacks fires is not pinned down by the source.
- MqttClient.Client.FindCallback: searches with the corrected matcher and in the order the filters were added, as MqttTopics.FirstMatch does.
- MqttClient.Client.DeliverMessage: a PUBLISH on topic `s` goes to the `s/#` callback, where the source, with its as-written matcher, hands it to `on_message`.
- MqttClient.Client.HandlePublish: QoS 0 and 1 messages are delivered through the corrected matcher, as in MqttClient.Client.DeliverMessage.
- MqttClient.Client.HandlePubRel: the held QoS 2 message is delivered through the corrected matcher, as in MqttClient.Client.DeliverMessage.
- MqttClient.Client.Handle: its PUBLISH and PUBREL steps deliver through the corrected matcher.
- MqttClient.Client.Loop: a packet it reads is delivered through the corrected matcher. The receive time is the `now` the call was given, where the source reads `ticks_ms()` again after the packet has arrived (client.py:767). An exception while handling a packet is taken before any of the handler's effects, so the partial effects of a handler that raises halfway are not modelled.
- MqttClient.Client.Subscribe: takes the items already normalised. The wrapping of a `str` or a tuple into a list, the `ValueError` for any other argument, and the `options` argument, which the source accepts and never reads, are not modelled.
- MqttProperties.Properties.Pack: writes the entries in the order their identifiers were first set. MicroPython's `dict` leaves the iteration order of `_properties` unspecified, so the source's order of properties on the wire is not pinned down; MqttProperties.PackUnpackRoundTrip holds for any order the bag keeps. It also requires every value to be of its identifier's table type. `set` accepts any value, and for a value of the wrong kind the source's `_encode_property_value` raises, for instance `_encode_utf8` on a number or `struct.pack` on a string. That error path is not modelled.
- MqttPackets.Pack: with the other packet packers, it requires property bags that `Properties.pack` can encode, so the exception the source raises for a property value of the wrong kind is not modelled.
- RingBuffers.RingBuffer.GetUntil: searches with the corrected FindPattern of the second finding. With `aaab` stored and pattern `aab` the source returns None and keeps the four bytes, while the model returns `aaab` and removes it.
- RingBuffers.GetUntilMeaning: states that None means the window holds no occurrence. That holds for the corrected search only; the source's `get_until` also returns None when the only occurrences overlap a failed partial match.
- Slip.SlipDecoder.FeedByte: moves by the corrected step of the third finding, so `DB DC` outside a frame leaves nothing in the buffer, where the source's `feed` keeps a `C0`.
- Slip.SlipDecoder.Feed: on the stream `DB DC C0 41 C0` it returns the frame `41`, where the source returns `C0 41`.
- RelayBank.Relays.constructor: writes each pin as OFF through its contact type, HIGH for a normally closed relay, where the source drives every pin LOW (relays.py:31). The as-written start is RelayBank.NormallyClosedStartsOnAsWritten. The invariant `Valid()` that every method requires holds only for the corrected start.
- RelayBank.Relays.Create: promises the corrected start, with every pin in step with OFF, which a normally closed bank built by the source is not in.
- `Bme68x` gas baseline: `iaq_heuristics` and `_update_baseline_ema` (bme68x.py:534, 873-874) write a float moving average to the baseline without clamping it. They are part of the IAQ estimate and are not modelled, so the band holds only for what the constructor and the two setters leave.

## Findings

| source | as written | input that shows it | evidently intended | confidence | as-written member | corrected member |
|---|---|---|---|---|---|---|
| core/RP2350/src/upaho/client.py:1043-1055 | `#` matches only when at least one topic level is left at its position | filter `s/#`, topic `s` | `#` also matches the parent level, as section 4.7.1.2 of MQTT v5.0 requires | high, not executed | MqttTopics.HashParentLevel | MqttTopics.HashMatchesBelow |
| core/RP2350/src/ringbuffer.py:29-34 | after a mismatch the scan restarts at the current byte only, dropping overlapping candidates | pattern `aab` in the stored bytes `aaab` | the first occurrence is found, at offset 1 | high, not executed | RingBuffers.AsWrittenMissesOverlap | RingBuffers.FindPattern |
| core/RP2350/src/slip.py:79-88 | an escape sequence seen outside a frame still appends the escaped byte | the stream `DB DC C0 41 C0` | the junk before the frame is dropped and the frame `41` comes out | high, not executed | Slip.AsWrittenLeaksEscape | Slip.EscapeOutsideDropped |
| device/ticle/src/ext/actuators/relays/relays.py:25-31 | every pin is driven LOW, whatever the contact type | one normally closed relay | a normally closed relay in state OFF has its pin HIGH, so its load is off | medium, not executed | RelayBank.NormallyClosedStartsOnAsWritten | RelayBank.Relays.constructor |
| device/ticle/src/ext/distance/vl53l0x/vl53l0x.py:323-325 | half a macro period is added before dividing by 1000 | 1 macro clock at a VCSEL period of 12 PCLKs | the nearest microsecond, 46 instead of 68 | high, not executed | Ranger.MclksToUsAsWrittenOverstates | Ranger.MclksToUs |
