/** MQTT v5.0 properties (upaho/properties.py): an ordered bag of
    (identifier, value) entries, its wire encoding (section 2.2.2 of
    MQTT v5.0) and the container class the packets carry. */
module MqttProperties {
  import opened Wrappers
  import opened Bytes
  import opened MqttCodec

  /** The value encodings named in the property table. */
  datatype DataType = TByte | TU16 | TU32 | TUtf8 | TBinary | TVarint | TUtf8Pair

  const PAYLOAD_FORMAT_INDICATOR: byte := 0x01
  const SERVER_KEEP_ALIVE: byte := 0x13
  const RECEIVE_MAXIMUM: byte := 0x21
  const TOPIC_ALIAS_MAXIMUM: byte := 0x22
  const USER_PROPERTY: byte := 0x26
  const MAXIMUM_PACKET_SIZE: byte := 0x27

  /** The property table `PROPERTY_DATA_TYPE`: the value encoding of each
      identifier it lists, `None` for any other byte. */
  function PropertyType(id: byte): Option<DataType>
  {
    if id == 0x01 || id == 0x17 || id == 0x19 || id == 0x24 || id == 0x25 ||
       id == 0x28 || id == 0x29 || id == 0x2A then Some(TByte)
    else if id == 0x13 || id == 0x21 || id == 0x22 || id == 0x23 then Some(TU16)
    else if id == 0x02 || id == 0x11 || id == 0x18 || id == 0x27 then Some(TU32)
    else if id == 0x03 || id == 0x08 || id == 0x12 || id == 0x15 || id == 0x1A ||
            id == 0x1C || id == 0x1F then Some(TUtf8)
    else if id == 0x09 || id == 0x16 then Some(TBinary)
    else if id == 0x0B then Some(TVarint)
    else if id == 0x26 then Some(TUtf8Pair)
    else None
  }

  /** Only the user property holds pairs. */
  lemma PairTypeIsUser(id: byte)
    ensures PropertyType(id) == Some(TUtf8Pair) <==> id == USER_PROPERTY
  {
  }

  datatype Pair = Pair(key: bytes, val: bytes)

  /** A property value. Strings are held as their UTF-8 bytes. A user
      property is set one `PPair` at a time and stored as the list `PPairs`. */
  datatype PropValue =
    | PByte(b: byte)
    | PU16(h: u16)
    | PU32(w: u32)
    | PUtf8(s: bytes)
    | PBinary(bin: bytes)
    | PVarint(n: nat)
    | PPair(pair: Pair)
    | PPairs(pairs: seq<Pair>)

  datatype Entry = Entry(id: byte, value: PropValue)

  /** The dictionary `_properties`, its entries kept in the order their
      identifiers were first set. */
  type Bag = seq<Entry>

  predicate DistinctIds(b: Bag)
  {
    forall i, j :: 0 <= i < j < |b| ==> b[i].id != b[j].id
  }

  /** What `set` can leave under an identifier: a non-empty list of pairs
      under the user property, a single value under any other. */
  predicate Storable(e: Entry)
  {
    if e.id == USER_PROPERTY then e.value.PPairs? && |e.value.pairs| > 0
    else !e.value.PPairs? && !e.value.PPair?
  }

  predicate ValidBag(b: Bag)
  {
    DistinctIds(b) && forall k :: 0 <= k < |b| ==> Storable(b[k])
  }

  /** The value `set` accepts under `id`. */
  predicate Settable(id: byte, v: PropValue)
  {
    if id == USER_PROPERTY then v.PPair? else !v.PPairs? && !v.PPair?
  }

  function IndexOf(b: Bag, id: byte): (r: Option<nat>)
    ensures r.Some? ==> r.value < |b| && b[r.value].id == id
    ensures r.None? ==> forall k :: 0 <= k < |b| ==> b[k].id != id
  {
    if b == [] then None
    else if b[0].id == id then Some(0)
    else match IndexOf(b[1..], id)
      case None => None
      case Some(k) => Some(k + 1)
  }

  function Lookup(b: Bag, id: byte): (r: Option<PropValue>)
  {
    match IndexOf(b, id)
    case None => None
    case Some(k) => Some(b[k].value)
  }

  /** `Properties.set`: the user property appends a pair to its list (the
      list is created at the end of the bag the first time); any other
      identifier replaces its value in place, or is added at the end. */
  function Store(b: Bag, id: byte, v: PropValue): (r: Bag)
    requires Settable(id, v)
  {
    match IndexOf(b, id)
    case None =>
      b + [Entry(id, if id == USER_PROPERTY then PPairs([v.pair]) else v)]
    case Some(k) =>
      b[k := Entry(id, if id == USER_PROPERTY && b[k].value.PPairs? then PPairs(b[k].value.pairs + [v.pair]) else v)]
  }

  /** `Properties.remove`: drop the identifier, keep the order of the rest. */
  function Without(b: Bag, id: byte): (r: Bag)
    ensures |r| <= |b|
    ensures forall k :: 0 <= k < |r| ==> r[k].id != id && r[k] in b
  {
    if b == [] then []
    else if b[0].id == id then Without(b[1..], id)
    else [b[0]] + Without(b[1..], id)
  }

  lemma DistinctIndex(b: Bag, id: byte, k: nat)
    requires DistinctIds(b) && k < |b| && b[k].id == id
    ensures IndexOf(b, id) == Some(k)
  {
  }

  /** `set` keeps the bag well formed, stores the value (or appends the
      pair), keeps every other identifier's value, and keeps the order of
      the identifiers already present. */
  lemma {:induction false} StoreSpec(b: Bag, id: byte, v: PropValue)
    requires ValidBag(b) && Settable(id, v)
    ensures ValidBag(Store(b, id, v))
    ensures id != USER_PROPERTY ==> Lookup(Store(b, id, v), id) == Some(v)
    ensures id == USER_PROPERTY ==>
      Lookup(Store(b, id, v), id) == Some(PPairs((if Lookup(b, id).Some? then Lookup(b, id).value.pairs else []) + [v.pair]))
    ensures forall other :: other != id ==> Lookup(Store(b, id, v), other) == Lookup(b, other)
    ensures var r := Store(b, id, v);
      |r| >= |b| && forall k :: 0 <= k < |b| ==> r[k].id == b[k].id
  {
    var r := Store(b, id, v);
    match IndexOf(b, id)
    case None =>
      DistinctIndex(r, id, |b|);
      if id == USER_PROPERTY { assert [] + [v.pair] == [v.pair]; }
      forall other | other != id ensures Lookup(r, other) == Lookup(b, other) {
        match IndexOf(b, other)
        case None =>
        case Some(k) => DistinctIndex(r, other, k);
      }
    case Some(k) =>
      DistinctIndex(r, id, k);
      forall other | other != id ensures Lookup(r, other) == Lookup(b, other) {
        match IndexOf(b, other)
        case None =>
        case Some(j) => DistinctIndex(r, other, j);
      }
  }

  /** `remove` deletes exactly one identifier and keeps the rest. */
  lemma {:induction false} WithoutSpec(b: Bag, id: byte)
    requires ValidBag(b)
    ensures ValidBag(Without(b, id))
    ensures Lookup(Without(b, id), id) == None
    ensures forall other :: other != id ==> Lookup(Without(b, id), other) == Lookup(b, other)
  {
    if b != [] {
      WithoutSpec(b[1..], id);
      var r := Without(b, id);
      var t := Without(b[1..], id);
      if b[0].id != id {
        assert r[1..] == t;
      }
      forall other | other != id ensures Lookup(r, other) == Lookup(b, other) {
        if b[0].id != other {
          assert Lookup(b, other) == Lookup(b[1..], other);
          if b[0].id != id {
            assert Lookup(r, other) == Lookup(t, other);
          }
        }
      }
      assert ValidBag(r) by {
        if b[0].id != id {
          forall k | 1 <= k < |r| ensures r[k].id != b[0].id {
            assert r[k] == t[k - 1];
            var j :| 0 <= j < |b[1..]| && b[1..][j] == t[k - 1];
            assert b[j + 1] == t[k - 1];
          }
        }
      }
    }
  }

  // ---------------------------------------------------------------------
  // Encoding

  predicate Fits(v: PropValue, t: DataType)
  {
    match t
    case TByte => v.PByte?
    case TU16 => v.PU16?
    case TU32 => v.PU32?
    case TUtf8 => v.PUtf8?
    case TBinary => v.PBinary?
    case TVarint => v.PVarint?
    case TUtf8Pair => v.PPair?
  }

  /** An entry `pack` can encode: a known identifier other than the user
      property holds a value of the encoding the table names (unknown
      identifiers are skipped by `pack`). */
  predicate Encodable(e: Entry)
  {
    Storable(e) &&
    (PropertyType(e.id).Some? && e.id != USER_PROPERTY ==> Fits(e.value, PropertyType(e.id).value))
  }

  predicate Encodables(b: Bag)
  {
    forall k {:trigger Encodable(b[k])} {:trigger Storable(b[k])} :: 0 <= k < |b| ==> Encodable(b[k])
  }

  /** A bag `pack` can encode. */
  predicate Packable(b: Bag)
  {
    DistinctIds(b) && Encodables(b)
  }

  function PairBytes(p: Pair): bytes
  {
    Prefixed(p.key) + Prefixed(p.val)
  }

  /** `_encode_property_value`. */
  function EncodeValue(v: PropValue, t: DataType): (r: bytes)
    requires Fits(v, t)
    ensures |r| >= 1
  {
    match t
    case TByte => [v.b]
    case TU16 => Be16(v.h)
    case TU32 => Be32(v.w)
    case TUtf8 => Prefixed(v.s)
    case TBinary => Prefixed(v.bin)
    case TVarint => VarintBytes(v.n)
    case TUtf8Pair => PairBytes(v.pair)
  }

  /** One identifier byte and one pair per user property. */
  function UserPairsBytes(ps: seq<Pair>): bytes
  {
    if ps == [] then [] else [USER_PROPERTY] + PairBytes(ps[0]) + UserPairsBytes(ps[1..])
  }

  function EntryBytes(e: Entry): bytes
    requires Encodable(e)
  {
    match PropertyType(e.id)
    case None => []
    case Some(t) =>
      if e.id == USER_PROPERTY then UserPairsBytes(e.value.pairs)
      else [e.id] + EncodeValue(e.value, t)
  }

  function BodyBytes(b: Bag): bytes
    requires Encodables(b)
  {
    if b == [] then [] else assert Encodable(b[0]); EntryBytes(b[0]) + BodyBytes(b[1..])
  }

  /** `Properties.pack`: the property length, then the entries in order. */
  function PackBag(b: Bag): bytes
    requires Packable(b)
  {
    if b == [] then VarintBytes(0)
    else VarintBytes(|BodyBytes(b)|) + BodyBytes(b)
  }

  // ---------------------------------------------------------------------
  // Decoding

  /** `_decode_property_value`: `None` wherever the source raises (index
      past the end, short `struct.unpack_from`, malformed integer, invalid
      UTF-8). Yields the value and the offset after it. */
  function DecodeValue(data: bytes, offset: nat, t: DataType): (r: Option<(PropValue, nat)>)
    ensures r.Some? ==> r.value.1 > offset && Fits(r.value.0, t)
  {
    match t
    case TByte =>
      if offset < |data| then Some((PByte(data[offset]), offset + 1)) else None
    case TU16 =>
      if offset + 2 <= |data| then Some((PU16(Be16Value(data[offset], data[offset + 1])), offset + 2)) else None
    case TU32 =>
      if offset + 4 <= |data| then Some((PU32(Be32Value(data[offset..offset + 4])), offset + 4)) else None
    case TUtf8 =>
      (match DecodeUtf8(data, offset)
       case None => None
       case Some((s, next)) => Some((PUtf8(s), next)))
    case TBinary =>
      (match DecodeBinary(data, offset)
       case None => None
       case Some((s, next)) => Some((PBinary(s), next)))
    case TVarint =>
      (match DecodeVarint(data, offset)
       case None => None
       case Some((n, next)) => Some((PVarint(n), next)))
    case TUtf8Pair =>
      (match DecodeUtf8(data, offset)
       case None => None
       case Some((k, mid)) =>
         match DecodeUtf8(data, mid)
         case None => None
         case Some((w, next)) => Some((PPair(Pair(k, w)), next)))
  }

  /** The loop of `Properties.unpack` from `offset` up to `end`: an unknown
      identifier stops it (the offset is then just after that byte); a
      value may run past `end`, which is not checked. Both branches the
      source writes for the user property amount to `set`. */
  function UnpackEntries(data: bytes, offset: nat, end: nat, acc: Bag): (r: Option<(Bag, nat)>)
    ensures r.Some? ==> r.value.1 >= offset
    decreases end - offset
  {
    if offset >= end then Some((acc, offset))
    else if offset >= |data| then None
    else
      var id := data[offset];
      match PropertyType(id)
      case None => Some((acc, offset + 1))
      case Some(t) =>
        match DecodeValue(data, offset + 1, t)
        case None => None
        case Some((v, next)) =>
          PairTypeIsUser(id);
          UnpackEntries(data, next, end, Store(acc, id, v))
  }

  /** `Properties.unpack`: the property length, then the entries. */
  function UnpackBag(data: bytes, offset: nat): (r: Option<(Bag, nat)>)
    ensures r.Some? ==> r.value.1 > offset
  {
    match DecodeVarint(data, offset)
    case None => None
    case Some((len, start)) =>
      if len == 0 then Some(([], start))
      else UnpackEntries(data, start, start + len, [])
  }

  /** Every bag the unpack loop builds is well formed, since it is built
      by `set`. */
  lemma {:induction false} UnpackEntriesValid(data: bytes, offset: nat, end: nat, acc: Bag)
    requires ValidBag(acc)
    ensures UnpackEntries(data, offset, end, acc).Some? ==> ValidBag(UnpackEntries(data, offset, end, acc).value.0)
    decreases end - offset
  {
    if offset < end && offset < |data| {
      var id := data[offset];
      if PropertyType(id).Some? {
        var t := PropertyType(id).value;
        if DecodeValue(data, offset + 1, t).Some? {
          var (v, next) := DecodeValue(data, offset + 1, t).value;
          PairTypeIsUser(id);
          StoreSpec(acc, id, v);
          UnpackEntriesValid(data, next, end, Store(acc, id, v));
        }
      }
    }
  }

  lemma UnpackBagValid(data: bytes, offset: nat)
    ensures UnpackBag(data, offset).Some? ==> ValidBag(UnpackBag(data, offset).value.0)
  {
    match DecodeVarint(data, offset)
    case None =>
    case Some((len, start)) =>
      if len != 0 {
        UnpackEntriesValid(data, start, start + len, []);
      }
  }

  // ---------------------------------------------------------------------
  // Round trip

  predicate PairRoundTrips(p: Pair)
  {
    |p.key| <= 0xFFFF && ValidUtf8(p.key) && |p.val| <= 0xFFFF && ValidUtf8(p.val)
  }

  /** Values whose encoding decodes back to them: strings and binary data
      of at most 65535 bytes (strings valid UTF-8), integers up to MaxVarint. */
  predicate ValueRoundTrips(v: PropValue)
  {
    match v
    case PUtf8(s) => |s| <= 0xFFFF && ValidUtf8(s)
    case PBinary(s) => |s| <= 0xFFFF
    case PVarint(n) => n <= MaxVarint
    case PPair(p) => PairRoundTrips(p)
    case PPairs(ps) => forall k {:trigger PairRoundTrips(ps[k])} :: 0 <= k < |ps| ==> PairRoundTrips(ps[k])
    case _ => true
  }

  predicate BagRoundTrips(b: Bag)
  {
    forall k {:trigger ValueRoundTrips(b[k].value)} :: 0 <= k < |b| ==> ValueRoundTrips(b[k].value)
  }

  /** The entries `pack` writes: those whose identifier the table knows. */
  function Known(b: Bag): (r: Bag)
    ensures |r| <= |b|
  {
    if b == [] then []
    else if PropertyType(b[0].id).Some? then [b[0]] + Known(b[1..])
    else Known(b[1..])
  }

  /** The encoding a single value is written with. */
  function ValueType(v: PropValue): (t: DataType)
    requires !v.PPairs?
    ensures Fits(v, t)
  {
    match v
    case PByte(_) => TByte
    case PU16(_) => TU16
    case PU32(_) => TU32
    case PUtf8(_) => TUtf8
    case PBinary(_) => TBinary
    case PVarint(_) => TVarint
    case PPair(_) => TUtf8Pair
  }

  lemma FitsType(v: PropValue, t: DataType)
    ensures Fits(v, t) <==> !v.PPairs? && ValueType(v) == t
  { }

  /** A single value whose encoding decodes back to it. */
  predicate Recordable(r: Entry)
  {
    !r.value.PPairs? && ValueRoundTrips(r.value)
  }

  /** A record as written on the wire: a known identifier and one value
      of its encoding (one per pair for the user property). */
  predicate WellRecord(r: Entry)
  {
    !r.value.PPairs? && PropertyType(r.id) == Some(ValueType(r.value))
  }

  /** Every record of the run can be written, read back and stored. */
  predicate RecordsOk(rs: seq<Entry>)
  {
    forall k {:trigger Recordable(rs[k])} {:trigger WellRecord(rs[k])} {:trigger Settable(rs[k].id, rs[k].value)} ::
      0 <= k < |rs| ==> Recordable(rs[k]) && WellRecord(rs[k]) && Settable(rs[k].id, rs[k].value)
  }

  function RecordBytes(r: Entry): (out: bytes)
    requires !r.value.PPairs?
    ensures |out| >= 2 && out[0] == r.id
  {
    [r.id] + EncodeValue(r.value, ValueType(r.value))
  }

  function RecordsBytes(rs: seq<Entry>): bytes
    requires forall k :: 0 <= k < |rs| ==> Recordable(rs[k])
  {
    if rs == [] then [] else assert Recordable(rs[0]); RecordBytes(rs[0]) + RecordsBytes(rs[1..])
  }

  lemma RecordsBytesCons(rs: seq<Entry>)
    requires |rs| > 0 && forall k :: 0 <= k < |rs| ==> Recordable(rs[k])
    ensures Recordable(rs[0]) && RecordsBytes(rs) == RecordBytes(rs[0]) + RecordsBytes(rs[1..])
  {
    assert Recordable(rs[0]);
  }

  function PairRecords(ps: seq<Pair>): (rs: seq<Entry>)
    ensures |rs| == |ps|
    ensures forall k :: 0 <= k < |rs| ==> rs[k] == Entry(USER_PROPERTY, PPair(ps[k]))
  {
    if ps == [] then [] else [Entry(USER_PROPERTY, PPair(ps[0]))] + PairRecords(ps[1..])
  }

  function EntryRecords(e: Entry): (rs: seq<Entry>)
    requires Storable(e)
    ensures forall k :: 0 <= k < |rs| ==> Settable(rs[k].id, rs[k].value)
  {
    if PropertyType(e.id).None? then []
    else if e.id == USER_PROPERTY then PairRecords(e.value.pairs)
    else [e]
  }

  function Records(b: Bag): (rs: seq<Entry>)
    requires forall k :: 0 <= k < |b| ==> Storable(b[k])
    ensures forall k :: 0 <= k < |rs| ==> Settable(rs[k].id, rs[k].value)
  {
    if b == [] then [] else EntryRecords(b[0]) + Records(b[1..])
  }

  /** Storing the records one after the other, as the unpack loop does. */
  function Replay(acc: Bag, rs: seq<Entry>): Bag
    requires forall k :: 0 <= k < |rs| ==> Settable(rs[k].id, rs[k].value)
    decreases |rs|
  {
    if rs == [] then acc else Replay(Store(acc, rs[0].id, rs[0].value), rs[1..])
  }

  lemma {:induction false} RecordsBytesConcat(x: seq<Entry>, y: seq<Entry>)
    requires forall k :: 0 <= k < |x| ==> Recordable(x[k])
    requires forall k :: 0 <= k < |y| ==> Recordable(y[k])
    ensures RecordsBytes(x + y) == RecordsBytes(x) + RecordsBytes(y)
    decreases |x|
  {
    if x == [] {
      assert x + y == y;
    } else {
      assert (x + y)[0] == x[0] && (x + y)[1..] == x[1..] + y;
      RecordsBytesConcat(x[1..], y);
      BytesAssoc(RecordBytes(x[0]), RecordsBytes(x[1..]), RecordsBytes(y));
    }
  }

  lemma {:induction false} ReplayConcat(acc: Bag, x: seq<Entry>, y: seq<Entry>)
    requires forall k :: 0 <= k < |x| ==> Settable(x[k].id, x[k].value)
    requires forall k :: 0 <= k < |y| ==> Settable(y[k].id, y[k].value)
    ensures Replay(acc, x + y) == Replay(Replay(acc, x), y)
    decreases |x|
  {
    if x == [] {
      assert x + y == y;
    } else {
      assert (x + y)[0] == x[0] && (x + y)[1..] == x[1..] + y;
      ReplayConcat(Store(acc, x[0].id, x[0].value), x[1..], y);
    }
  }

  lemma {:induction false} UserPairsRecords(ps: seq<Pair>)
    requires forall k :: 0 <= k < |ps| ==> PairRoundTrips(ps[k])
    ensures forall k :: 0 <= k < |PairRecords(ps)| ==> WellRecord(PairRecords(ps)[k])
    ensures forall k :: 0 <= k < |PairRecords(ps)| ==> Recordable(PairRecords(ps)[k])
    ensures UserPairsBytes(ps) == RecordsBytes(PairRecords(ps))
  {
    if ps != [] {
      UserPairsRecords(ps[1..]);
      assert PairRecords(ps)[1..] == PairRecords(ps[1..]);
    }
  }

  /** The body `pack` writes is the records of the bag, in order, and every
      one of them can be read back. */
  lemma {:induction false} BodyIsRecords(b: Bag)
    requires Encodables(b) && BagRoundTrips(b)
    ensures forall k :: 0 <= k < |Records(b)| ==> WellRecord(Records(b)[k])
    ensures forall k :: 0 <= k < |Records(b)| ==> Recordable(Records(b)[k])
    ensures BodyBytes(b) == RecordsBytes(Records(b))
    ensures RecordsOk(Records(b))
    ensures |Records(b)| >= |Known(b)|
  {
    if b != [] {
      var e := b[0];
      assert Encodable(e) && ValueRoundTrips(e.value);
      assert Encodables(b[1..]) && BagRoundTrips(b[1..]) by {
        forall k | 0 <= k < |b[1..]| ensures b[1..][k] == b[k + 1] { }
      }
      BodyIsRecords(b[1..]);
      EntryIsRecords(e);
      RecordsJoin(EntryRecords(e), Records(b[1..]));
    }
  }

  /** The records one entry is written as. */
  lemma EntryIsRecords(e: Entry)
    requires Encodable(e) && ValueRoundTrips(e.value)
    ensures forall k :: 0 <= k < |EntryRecords(e)| ==> WellRecord(EntryRecords(e)[k])
    ensures forall k :: 0 <= k < |EntryRecords(e)| ==> Recordable(EntryRecords(e)[k])
    ensures EntryBytes(e) == RecordsBytes(EntryRecords(e))
    ensures PropertyType(e.id).Some? ==> |EntryRecords(e)| >= 1
  {
    var x := EntryRecords(e);
    if PropertyType(e.id).Some? {
      if e.id == USER_PROPERTY {
        UserPairsRecords(e.value.pairs);
      } else {
        FitsType(e.value, PropertyType(e.id).value);
        assert RecordsBytes(x) == RecordBytes(e) + [];
      }
    }
  }

  /** Two runs of good records make one. */
  lemma RecordsJoin(x: seq<Entry>, y: seq<Entry>)
    requires forall k :: 0 <= k < |x| ==> WellRecord(x[k]) && Recordable(x[k]) && Settable(x[k].id, x[k].value)
    requires forall k :: 0 <= k < |y| ==> WellRecord(y[k]) && Recordable(y[k]) && Settable(y[k].id, y[k].value)
    ensures forall k :: 0 <= k < |x + y| ==> WellRecord((x + y)[k]) && Recordable((x + y)[k])
    ensures RecordsOk(x + y)
    ensures RecordsBytes(x + y) == RecordsBytes(x) + RecordsBytes(y)
  {
    RecordsBytesConcat(x, y);
  }

  lemma DecodeFixedRoundTrip(v: PropValue, t: DataType, data: bytes, offset: nat)
    requires t == TByte || t == TU16 || t == TU32
    requires Fits(v, t) && At(data, offset, EncodeValue(v, t))
    ensures DecodeValue(data, offset, t) == Some((v, offset + |EncodeValue(v, t)|))
  {
    var enc := EncodeValue(v, t);
    if t == TByte {
      AtIndex(data, offset, enc, 0);
    } else if t == TU16 {
      AtIndex(data, offset, enc, 0);
      AtIndex(data, offset, enc, 1);
    } else {
      AtSlice(data, offset, enc);
      assert data[offset..offset + 4] == enc;
    }
  }

  lemma DecodePairRoundTrip(p: Pair, data: bytes, offset: nat)
    requires PairRoundTrips(p) && At(data, offset, PairBytes(p))
    ensures DecodeValue(data, offset, TUtf8Pair) == Some((PPair(p), offset + |PairBytes(p)|))
  {
    var mid := offset + 2 + |p.key|;
    AtConcat(data, offset, PairBytes(p), Prefixed(p.key), Prefixed(p.val), mid);
    PrefixedRoundTrip(p.key, data, offset);
    PrefixedRoundTrip(p.val, data, mid);
    assert DecodeUtf8(data, offset) == Some((p.key, mid));
    assert DecodeUtf8(data, mid) == Some((p.val, mid + 2 + |p.val|));
  }

  /** `_decode_property_value` inverts `_encode_property_value`; the
      decoder stops at `next`, just after the encoding. */
  lemma DecodeValueRoundTrip(v: PropValue, t: DataType, data: bytes, offset: nat, next: nat)
    requires Fits(v, t) && ValueRoundTrips(v)
    requires At(data, offset, EncodeValue(v, t)) && next == offset + |EncodeValue(v, t)|
    ensures DecodeValue(data, offset, t) == Some((v, next))
  {
    match t
    case TByte => DecodeFixedRoundTrip(v, t, data, offset);
    case TU16 => DecodeFixedRoundTrip(v, t, data, offset);
    case TU32 => DecodeFixedRoundTrip(v, t, data, offset);
    case TUtf8 => PrefixedRoundTrip(v.s, data, offset);
    case TBinary => PrefixedRoundTrip(v.bin, data, offset);
    case TVarint => VarintRoundTrip(v.n, data, offset);
    case TUtf8Pair => DecodePairRoundTrip(v.pair, data, offset);
  }

  /** One step of the unpack loop on a known identifier whose value decodes. */
  lemma UnpackStep(data: bytes, offset: nat, end: nat, acc: Bag, r: Entry, t: DataType, next: nat)
    requires offset < end && offset < |data| && data[offset] == r.id
    requires PropertyType(r.id) == Some(t) && DecodeValue(data, offset + 1, t) == Some((r.value, next))
    ensures Settable(r.id, r.value)
    ensures UnpackEntries(data, offset, end, acc) == UnpackEntries(data, next, end, Store(acc, r.id, r.value))
  {
    PairTypeIsUser(r.id);
  }

  /** `data` reads back as the records `rs` one after the other, from
      `offset` up to `end`: each starts with its identifier and its value
      decodes with the table's encoding. */
  predicate Reads(data: bytes, offset: nat, end: nat, rs: seq<Entry>)
    decreases |rs|
  {
    if rs == [] then offset == end
    else (offset < end && offset < |data| && data[offset] == rs[0].id && !rs[0].value.PPairs? &&
          match DecodeValue(data, offset + 1, ValueType(rs[0].value))
          case None => false
          case Some((v, next)) => v == rs[0].value && Reads(data, next, end, rs[1..]))
  }

  /** One more record in front of a run that reads back. */
  lemma ReadsCons(data: bytes, offset: nat, end: nat, rs: seq<Entry>, next: nat)
    requires |rs| > 0 && offset < end && offset < |data| && data[offset] == rs[0].id && !rs[0].value.PPairs?
    requires DecodeValue(data, offset + 1, ValueType(rs[0].value)) == Some((rs[0].value, next))
    requires Reads(data, next, end, rs[1..])
    ensures Reads(data, offset, end, rs)
  {
  }

  /** A record's identifier and value read back from its encoding. */
  lemma RecordDecodes(r: Entry, data: bytes, offset: nat, next: nat)
    requires Recordable(r) && At(data, offset, RecordBytes(r)) && next == offset + |RecordBytes(r)|
    ensures data[offset] == r.id
    ensures DecodeValue(data, offset + 1, ValueType(r.value)) == Some((r.value, next))
  {
    var t := ValueType(r.value);
    var enc := EncodeValue(r.value, t);
    AtConcat(data, offset, RecordBytes(r), [r.id], enc, offset + 1);
    DecodeValueRoundTrip(r.value, t, data, offset + 1, next);
  }

  /** The first record of a run, and where the rest of the run starts. */
  lemma RecordsHead(rs: seq<Entry>, data: bytes, offset: nat, end: nat) returns (next: nat)
    requires |rs| > 0 && forall k :: 0 <= k < |rs| ==> Recordable(rs[k])
    requires At(data, offset, RecordsBytes(rs)) && end == offset + |RecordsBytes(rs)|
    ensures offset < next && next + |RecordsBytes(rs[1..])| == end
    ensures data[offset] == rs[0].id && !rs[0].value.PPairs?
    ensures DecodeValue(data, offset + 1, ValueType(rs[0].value)) == Some((rs[0].value, next))
    ensures At(data, next, RecordsBytes(rs[1..]))
  {
    var r := rs[0];
    assert Recordable(r);
    next := offset + |RecordBytes(r)|;
    RecordsBytesCons(rs);
    AtConcat(data, offset, RecordsBytes(rs), RecordBytes(r), RecordsBytes(rs[1..]), next);
    RecordDecodes(r, data, offset, next);
  }

  lemma {:induction false} RecordsRead(rs: seq<Entry>, data: bytes, offset: nat, end: nat)
    requires forall k :: 0 <= k < |rs| ==> Recordable(rs[k])
    requires At(data, offset, RecordsBytes(rs)) && end == offset + |RecordsBytes(rs)|
    ensures Reads(data, offset, end, rs)
    decreases |rs|
  {
    if |rs| > 0 {
      var next := RecordsHead(rs, data, offset, end);
      assert forall k :: 0 <= k < |rs[1..]| ==> rs[1..][k] == rs[k + 1];
      RecordsRead(rs[1..], data, next, end);
      ReadsCons(data, offset, end, rs, next);
    }
  }

  /** The unpack loop reads a run of records exactly, storing each as
      `set` would. */
  lemma {:induction false} UnpackRecords(rs: seq<Entry>, data: bytes, offset: nat, end: nat, acc: Bag)
    requires forall k :: 0 <= k < |rs| ==> WellRecord(rs[k]) && Settable(rs[k].id, rs[k].value)
    requires Reads(data, offset, end, rs)
    ensures UnpackEntries(data, offset, end, acc) == Some((Replay(acc, rs), end))
    decreases |rs|
  {
    if rs != [] {
      var r := rs[0];
      assert WellRecord(r);
      var t := ValueType(r.value);
      var next := DecodeValue(data, offset + 1, t).value.1;
      UnpackStep(data, offset, end, acc, r, t, next);
      assert forall k :: 0 <= k < |rs[1..]| ==> rs[1..][k] == rs[k + 1];
      UnpackRecords(rs[1..], data, next, end, Store(acc, r.id, r.value));
    }
  }

  predicate Disjoint(a: Bag, b: Bag)
  {
    forall i, j :: 0 <= i < |a| && 0 <= j < |b| ==> a[i].id != b[j].id
  }

  lemma StoreUserLast(acc: Bag, qs: seq<Pair>, p: Pair)
    requires forall k :: 0 <= k < |acc| ==> acc[k].id != USER_PROPERTY
    ensures Store(acc + [Entry(USER_PROPERTY, PPairs(qs))], USER_PROPERTY, PPair(p)) == acc + [Entry(USER_PROPERTY, PPairs(qs + [p]))]
  {
    DistinctIndexLast(acc, Entry(USER_PROPERTY, PPairs(qs)));
  }

  lemma {:induction false} ReplayPairs(acc: Bag, qs: seq<Pair>, ps: seq<Pair>)
    requires forall k :: 0 <= k < |acc| ==> acc[k].id != USER_PROPERTY
    ensures Replay(acc + [Entry(USER_PROPERTY, PPairs(qs))], PairRecords(ps)) == acc + [Entry(USER_PROPERTY, PPairs(qs + ps))]
    decreases |ps|
  {
    var rs := PairRecords(ps);
    if ps == [] {
      assert qs + ps == qs;
    } else {
      var b := acc + [Entry(USER_PROPERTY, PPairs(qs))];
      StoreUserLast(acc, qs, ps[0]);
      assert rs[0] == Entry(USER_PROPERTY, PPair(ps[0]));
      assert rs[1..] == PairRecords(ps[1..]);
      assert Replay(b, rs) == Replay(acc + [Entry(USER_PROPERTY, PPairs(qs + [ps[0]]))], PairRecords(ps[1..]));
      ReplayPairs(acc, qs + [ps[0]], ps[1..]);
      assert qs + [ps[0]] + ps[1..] == qs + ps;
    }
  }

  lemma DistinctIndexLast(acc: Bag, e: Entry)
    requires forall k :: 0 <= k < |acc| ==> acc[k].id != e.id
    ensures IndexOf(acc + [e], e.id) == Some(|acc|)
    decreases |acc|
  {
    if acc != [] {
      assert (acc + [e])[1..] == acc[1..] + [e];
      DistinctIndexLast(acc[1..], e);
    }
  }

  lemma UserEntryReplay(acc: Bag, ps: seq<Pair>)
    requires forall k :: 0 <= k < |acc| ==> acc[k].id != USER_PROPERTY
    requires |ps| > 0
    ensures Replay(acc, PairRecords(ps)) == acc + [Entry(USER_PROPERTY, PPairs(ps))]
  {
    var rs := PairRecords(ps);
    var first := Entry(USER_PROPERTY, PPairs([ps[0]]));
    assert IndexOf(acc, USER_PROPERTY).None?;
    assert Store(acc, USER_PROPERTY, PPair(ps[0])) == acc + [first];
    assert rs[0] == Entry(USER_PROPERTY, PPair(ps[0]));
    assert rs[1..] == PairRecords(ps[1..]);
    assert Replay(acc, rs) == Replay(acc + [first], PairRecords(ps[1..]));
    ReplayPairs(acc, [ps[0]], ps[1..]);
    assert [ps[0]] + ps[1..] == ps;
  }

  lemma SingleReplay(acc: Bag, e: Entry)
    requires forall k :: 0 <= k < |acc| ==> acc[k].id != e.id
    requires Settable(e.id, e.value) && e.id != USER_PROPERTY
    ensures Replay(acc, [e]) == acc + [e]
  {
    assert IndexOf(acc, e.id).None?;
    assert [e][1..] == [];
  }

  lemma {:induction false} EntryReplay(acc: Bag, e: Entry)
    requires Storable(e)
    requires forall k :: 0 <= k < |acc| ==> acc[k].id != e.id
    ensures Replay(acc, EntryRecords(e)) == acc + Known([e])
  {
    assert Known([e]) == if PropertyType(e.id).Some? then [e] else [];
    if PropertyType(e.id).None? {
      assert EntryRecords(e) == [];
      assert acc + [] == acc;
    } else if e.id == USER_PROPERTY {
      assert EntryRecords(e) == PairRecords(e.value.pairs);
      UserEntryReplay(acc, e.value.pairs);
    } else {
      assert EntryRecords(e) == [e];
      SingleReplay(acc, e);
    }
  }

  lemma KnownStep(acc: Bag, b: Bag)
    requires ValidBag(acc) && ValidBag(b) && Disjoint(acc, b) && b != []
    ensures ValidBag(b[1..])
    ensures Known(b) == Known([b[0]]) + Known(b[1..])
    ensures ValidBag(acc + Known([b[0]])) && Disjoint(acc + Known([b[0]]), b[1..])
  {
    var acc' := acc + Known([b[0]]);
    assert Known([b[0]]) == if PropertyType(b[0].id).Some? then [b[0]] else [];
    assert forall k :: 0 <= k < |b[1..]| ==> b[1..][k] == b[k + 1];
  }

  lemma {:induction false} ReplayRecords(acc: Bag, b: Bag)
    requires ValidBag(acc) && ValidBag(b) && Disjoint(acc, b)
    ensures Replay(acc, Records(b)) == acc + Known(b)
    decreases |b|
  {
    if b == [] {
      assert acc + [] == acc;
    } else {
      var e := b[0];
      KnownStep(acc, b);
      var x := EntryRecords(e);
      var y := Records(b[1..]);
      assert Records(b) == x + y;
      ReplayConcat(acc, x, y);
      assert e == b[0] && forall k :: 0 <= k < |acc| ==> acc[k].id != e.id;
      EntryReplay(acc, e);
      var acc' := acc + Known([e]);
      ReplayRecords(acc', b[1..]);
      AppendAssoc(acc, Known([e]), Known(b[1..]));
    }
  }

  lemma AppendAssoc(a: Bag, b: Bag, c: Bag)
    ensures (a + b) + c == a + (b + c)
  {
  }

  /** A run of records reads back as the bag that storing them builds. */
  lemma RecordsRoundTrip(rs: seq<Entry>, data: bytes, start: nat, end: nat)
    requires RecordsOk(rs)
    requires At(data, start, RecordsBytes(rs)) && end == start + |RecordsBytes(rs)|
    ensures UnpackEntries(data, start, end, []) == Some((Replay([], rs), end))
  {
    RecordsRead(rs, data, start, end);
    UnpackRecords(rs, data, start, end, []);
  }

  /** The entries `pack` writes after the length read back as the known
      entries of the bag. */
  lemma BodyRoundTrip(b: Bag, data: bytes, start: nat, end: nat)
    requires Packable(b) && BagRoundTrips(b)
    requires At(data, start, BodyBytes(b)) && end == start + |BodyBytes(b)|
    ensures UnpackEntries(data, start, end, []) == Some((Known(b), end))
  {
    BodyIsRecords(b);
    ReplayKnown(b);
    var rs := Records(b);
    AtSame(data, start, BodyBytes(b), RecordsBytes(rs));
    RecordsRoundTrip(rs, data, start, end);
  }

  /** A bag with no known entry packs to an empty body. */
  lemma EmptyBodyKnown(b: Bag)
    requires Encodables(b) && BagRoundTrips(b)
    ensures |BodyBytes(b)| == 0 <==> Known(b) == []
  {
    BodyIsRecords(b);
    RecordsBytesLength(Records(b));
  }

  lemma ReplayKnown(b: Bag)
    requires Packable(b)
    ensures Replay([], Records(b)) == Known(b)
  {
    ReplayRecords([], b);
    assert [] + Known(b) == Known(b);
  }

  /** The round trip of `pack` and `unpack`: a bag of well-typed values
      reads back as the entries of known identifiers, in the same order,
      and the offset lands just after the encoding. */
  lemma PackUnpackRoundTrip(b: Bag, data: bytes, offset: nat, end: nat)
    requires Packable(b) && BagRoundTrips(b) && |BodyBytes(b)| <= MaxVarint
    requires At(data, offset, PackBag(b)) && end == offset + |PackBag(b)|
    ensures UnpackBag(data, offset) == Some((Known(b), end))
  {
    var start := PackSplit(b, data, offset);
    BagFromBody(b, data, offset, start, end);
  }

  /** Once the length has been read, the body reads back as the known
      entries. */
  lemma BagFromBody(b: Bag, data: bytes, offset: nat, start: nat, end: nat)
    requires Packable(b) && BagRoundTrips(b)
    requires DecodeVarint(data, offset) == Some((|BodyBytes(b)|, start)) && end == start + |BodyBytes(b)|
    requires At(data, start, BodyBytes(b))
    ensures UnpackBag(data, offset) == Some((Known(b), end))
  {
    if |BodyBytes(b)| == 0 {
      EmptyBodyKnown(b);
    } else {
      UnpackBagBody(data, offset, |BodyBytes(b)|, start, end);
      BodyRoundTrip(b, data, start, end);
    }
  }

  /** After a non-zero length, `unpack` reads the entries up to the end
      that length gives. */
  lemma UnpackBagBody(data: bytes, offset: nat, len: nat, start: nat, end: nat)
    requires DecodeVarint(data, offset) == Some((len, start)) && len > 0 && end == start + len
    ensures UnpackBag(data, offset) == UnpackEntries(data, start, end, [])
  {
    var d := DecodeVarint(data, offset);
    assert d.Some? && d.value.0 == len && d.value.1 == start;
  }

  lemma UnpackBagEmpty(data: bytes, offset: nat, start: nat)
    requires DecodeVarint(data, offset) == Some((0, start))
    ensures UnpackBag(data, offset) == Some(([], start))
  {
  }

  /** An empty bag packs as a zero length with nothing after it, which is
      the general shape with an empty body. */
  lemma PackBagShape(b: Bag)
    requires Packable(b)
    ensures PackBag(b) == VarintBytes(|BodyBytes(b)|) + BodyBytes(b)
  {
    if b == [] {
      assert VarintBytes(0) + [] == VarintBytes(0);
    }
  }

  /** The length `pack` writes first reads back, and the body follows it. */
  lemma PackSplit(b: Bag, data: bytes, offset: nat) returns (start: nat)
    requires Packable(b) && |BodyBytes(b)| <= MaxVarint
    requires At(data, offset, PackBag(b))
    ensures DecodeVarint(data, offset) == Some((|BodyBytes(b)|, start))
    ensures At(data, start, BodyBytes(b)) && start + |BodyBytes(b)| == offset + |PackBag(b)|
  {
    var body := BodyBytes(b);
    PackBagShape(b);
    start := offset + |VarintBytes(|body|)|;
    AtConcat(data, offset, PackBag(b), VarintBytes(|body|), body, start);
    VarintRoundTrip(|body|, data, offset);
  }

  lemma {:induction false} RecordsBytesLength(rs: seq<Entry>)
    requires forall k :: 0 <= k < |rs| ==> Recordable(rs[k])
    ensures |RecordsBytes(rs)| >= 2 * |rs|
  {
    if rs != [] { RecordsBytesLength(rs[1..]); }
  }

  /** An identifier the table does not know stops `unpack`: the entries
      read before it are kept and the rest of the property block is left
      unread. */
  lemma UnknownIdStops(data: bytes, offset: nat, end: nat, acc: Bag)
    requires offset < end && offset < |data| && PropertyType(data[offset]).None?
    ensures UnpackEntries(data, offset, end, acc) == Some((acc, offset + 1))
  {
  }

  // ---------------------------------------------------------------------
  // The container class

  /** `UserPairsBytes` over a concatenation. */
  lemma {:induction false} UserPairsBytesConcat(x: seq<Pair>, y: seq<Pair>)
    ensures UserPairsBytes(x + y) == UserPairsBytes(x) + UserPairsBytes(y)
    decreases |x|
  {
    if x == [] {
      assert x + y == y;
    } else {
      assert (x + y)[0] == x[0] && (x + y)[1..] == x[1..] + y;
      UserPairsBytesConcat(x[1..], y);
      var h := [USER_PROPERTY] + PairBytes(x[0]);
      BytesAssoc(h, UserPairsBytes(x[1..]), UserPairsBytes(y));
    }
  }

  /** One more pair written by the inner loop of `pack`. */
  lemma UserPairsSnoc(ps: seq<Pair>, j: nat)
    requires j < |ps|
    ensures UserPairsBytes(ps[..j + 1]) == UserPairsBytes(ps[..j]) + ([USER_PROPERTY] + PairBytes(ps[j]))
  {
    assert ps[..j + 1] == ps[..j] + [ps[j]];
    UserPairsBytesConcat(ps[..j], [ps[j]]);
    assert [ps[j]][1..] == [];
  }

  lemma EncodablesConcat(x: Bag, y: Bag)
    requires Encodables(x) && Encodables(y)
    ensures Encodables(x + y)
  {
    forall k | 0 <= k < |x + y| ensures Encodable((x + y)[k]) {
      if k < |x| {
        assert (x + y)[k] == x[k] && Encodable(x[k]);
      } else {
        assert (x + y)[k] == y[k - |x|] && Encodable(y[k - |x|]);
      }
    }
  }

  lemma EncodablesTail(x: Bag)
    requires Encodables(x) && x != []
    ensures Encodable(x[0]) && Encodables(x[1..])
  {
    assert Encodable(x[0]);
    forall k | 0 <= k < |x[1..]| ensures Encodable(x[1..][k]) {
      assert x[1..][k] == x[k + 1] && Encodable(x[k + 1]);
    }
  }

  /** `BodyBytes` over a concatenation. */
  lemma {:induction false} BodyBytesConcat(x: Bag, y: Bag)
    requires Encodables(x) && Encodables(y)
    ensures Encodables(x + y)
    ensures BodyBytes(x + y) == BodyBytes(x) + BodyBytes(y)
    decreases |x|
  {
    EncodablesConcat(x, y);
    if x == [] {
      assert x + y == y;
    } else {
      EncodablesTail(x);
      assert (x + y)[0] == x[0] && (x + y)[1..] == x[1..] + y;
      BodyBytesConcat(x[1..], y);
      BytesAssoc(EntryBytes(x[0]), BodyBytes(x[1..]), BodyBytes(y));
    }
  }

  /** One more entry written by the outer loop of `pack`. */
  lemma BodyBytesSnoc(b: Bag, i: nat)
    requires Encodables(b) && i < |b|
    ensures Encodable(b[i]) && Encodables(b[..i]) && Encodables(b[..i + 1])
    ensures BodyBytes(b[..i + 1]) == BodyBytes(b[..i]) + EntryBytes(b[i])
  {
    assert Encodable(b[i]);
    assert Encodables(b[..i]) by {
      forall k | 0 <= k < i ensures Encodable(b[..i][k]) { assert b[..i][k] == b[k]; assert Encodable(b[k]); }
    }
    assert Encodables([b[i]]) by {
      forall k | 0 <= k < 1 ensures Encodable([b[i]][k]) { assert [b[i]][k] == b[i]; }
    }
    assert b[..i + 1] == b[..i] + [b[i]];
    BodyBytesConcat(b[..i], [b[i]]);
    assert [b[i]][1..] == [];
    assert BodyBytes([b[i]]) == EntryBytes(b[i]) + [];
  }

  lemma EntryBytesUnknown(e: Entry)
    requires Encodable(e) && PropertyType(e.id).None?
    ensures EntryBytes(e) == []
  { }

  lemma EntryBytesUser(e: Entry)
    requires Encodable(e) && e.id == USER_PROPERTY
    ensures EntryBytes(e) == UserPairsBytes(e.value.pairs)
  { }

  lemma EntryBytesKnown(e: Entry, t: DataType)
    requires Encodable(e) && e.id != USER_PROPERTY && PropertyType(e.id) == Some(t)
    ensures Fits(e.value, t) && EntryBytes(e) == [e.id] + EncodeValue(e.value, t)
  { }

  /** `Properties`: the dictionary `_properties`, changed in place by
      `set`, `remove` and `clear`. */
  class Properties {
    var entries: Bag

    ghost predicate Valid()
      reads this
    {
      ValidBag(entries)
    }

    /** `__init__`: no properties. */
    constructor()
      ensures entries == [] && Valid()
    {
      entries := [];
    }

    /** `set`: replaces the value of `id`, or appends the pair to the user
        property's list. */
    method Set(id: byte, v: PropValue)
      requires Valid() && Settable(id, v)
      modifies this
      ensures entries == Store(old(entries), id, v) && Valid()
    {
      StoreSpec(entries, id, v);
      entries := Store(entries, id, v);
    }

    /** `get`: the stored value, or `fallback` (the caller's `default`,
        `None` when it gives none) when the identifier is absent. */
    method Get(id: byte, fallback: Option<PropValue>) returns (r: Option<PropValue>)
      ensures (forall k :: 0 <= k < |entries| ==> entries[k].id != id) ==> r == fallback
      ensures (exists k :: 0 <= k < |entries| && entries[k].id == id) ==>
        r.Some? && exists k :: 0 <= k < |entries| && entries[k] == Entry(id, r.value)
    {
      var found := Lookup(entries, id);
      r := if found.Some? then found else fallback;
    }

    /** `has`. */
    method Has(id: byte) returns (r: bool)
      ensures r <==> exists k :: 0 <= k < |entries| && entries[k].id == id
    {
      r := IndexOf(entries, id).Some?;
    }

    /** `remove`: no error when `id` is absent. */
    method Remove(id: byte)
      requires Valid()
      modifies this
      ensures entries == Without(old(entries), id) && Valid()
      ensures Lookup(entries, id) == None
      ensures forall other :: other != id ==> Lookup(entries, other) == Lookup(old(entries), other)
    {
      WithoutSpec(entries, id);
      entries := Without(entries, id);
    }

    /** `clear`. */
    method Clear()
      modifies this
      ensures entries == [] && Valid()
    {
      entries := [];
    }

    /** `pack`: the entries in the order the bag keeps, those the table does not
        know skipped, behind the Variable Byte Integer length of the body. */
    method Pack() returns (r: bytes)
      requires Valid() && Encodables(entries)
      ensures r == PackBag(entries)
    {
      var b := entries;
      if |b| == 0 {
        r := EncodeVariableLength(0);
        return;
      }
      var data: bytes := [];
      var i := 0;
      while i < |b|
        invariant 0 <= i <= |b| && Encodables(b[..i])
        invariant data == BodyBytes(b[..i])
      {
        BodyBytesSnoc(b, i);
        var enc := PackEntry(b[i]);
        data := data + enc;
        i := i + 1;
      }
      assert b[..i] == b;
      var len := EncodeVariableLength(|data|);
      r := len + data;
    }

    /** The body of the loop of `pack` for one entry: nothing for an
        identifier the table does not know, one record per pair for the
        user property, the identifier and the value otherwise. */
    static method PackEntry(e: Entry) returns (enc: bytes)
      requires Encodable(e)
      ensures enc == EntryBytes(e)
    {
      var t := PropertyType(e.id);
      if t.None? {
        EntryBytesUnknown(e);
        return [];
      }
      if e.id == USER_PROPERTY {
        EntryBytesUser(e);
        var ps := e.value.pairs;
        enc := [];
        var j := 0;
        while j < |ps|
          invariant 0 <= j <= |ps|
          invariant enc == UserPairsBytes(ps[..j])
        {
          UserPairsSnoc(ps, j);
          enc := enc + ([e.id] + PairBytes(ps[j]));
          j := j + 1;
        }
        assert ps[..j] == ps;
      } else {
        EntryBytesKnown(e, t.value);
        enc := [e.id] + EncodeValue(e.value, t.value);
      }
    }

    /** `unpack`: the property length, then records until the end of the
        block; `None` where the source raises. */
    static method Unpack(data: bytes, offset: nat) returns (r: Option<(Properties, nat)>)
      ensures r.None? <==> UnpackBag(data, offset).None?
      ensures r.Some? ==> fresh(r.value.0) && r.value.0.Valid()
      ensures r.Some? ==> (r.value.0.entries, r.value.1) == UnpackBag(data, offset).value
    {
      var length := DecodeVariableLength(data, offset);
      if length.None? {
        return None;
      }
      var len, start := length.value.0, length.value.1;
      var props := new Properties();
      if len == 0 {
        UnpackBagEmpty(data, offset, start);
        return Some((props, start));
      }
      UnpackBagBody(data, offset, len, start, start + len);
      var ok, pos := props.ReadEntries(data, start, start + len);
      if !ok {
        return None;
      }
      r := Some((props, pos));
    }

    /** The loop of `unpack` from `start` up to `end`, storing into this
        container; `ok` is false where the source raises. */
    method ReadEntries(data: bytes, start: nat, end: nat) returns (ok: bool, pos: nat)
      requires Valid()
      modifies this
      ensures Valid()
      ensures ok <==> UnpackEntries(data, start, end, old(entries)).Some?
      ensures ok ==> (entries, pos) == UnpackEntries(data, start, end, old(entries)).value
    {
      ghost var result := UnpackEntries(data, start, end, entries);
      pos := start;
      while pos < end
        invariant Valid()
        invariant UnpackEntries(data, pos, end, entries) == result
        decreases end - pos
      {
        var more;
        ok, more, pos := ReadRecord(data, pos, end);
        if !ok || !more {
          return;
        }
      }
      ok := true;
    }

    /** One pass of the `unpack` loop: the record at `pos` is stored and
        reading goes on after it, or an unknown identifier ends the block,
        or the record is cut short. */
    method ReadRecord(data: bytes, pos: nat, end: nat) returns (ok: bool, more: bool, next: nat)
      requires Valid() && pos < end
      modifies this
      ensures Valid()
      ensures !ok ==> UnpackEntries(data, pos, end, old(entries)).None?
      ensures ok && !more ==> UnpackEntries(data, pos, end, old(entries)) == Some((entries, next))
      ensures ok && more ==> pos < next && UnpackEntries(data, next, end, entries) == UnpackEntries(data, pos, end, old(entries))
    {
      if pos >= |data| {
        return false, false, pos;
      }
      var id := data[pos];
      var t := PropertyType(id);
      if t.None? {
        UnknownIdStops(data, pos, end, entries);
        return true, false, pos + 1;
      }
      var value := DecodeValue(data, pos + 1, t.value);
      if value.None? {
        return false, false, pos + 1;
      }
      UnpackStep(data, pos, end, entries, Entry(id, value.value.0), t.value, value.value.1);
      // Both branches the source writes for the user property amount to `set`.
      Set(id, value.value.0);
      return true, true, value.value.1;
    }
  }
}
