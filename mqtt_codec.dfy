/** Wire primitives of the MQTT property codec (upaho/properties.py):
    Variable Byte Integers (section 1.5.5 of MQTT v5.0), two-byte
    big-endian integers, and length-prefixed strings and binary data
    (sections 1.5.4 and 1.5.6 of MQTT v5.0). */
module MqttCodec {
  import opened Wrappers
  import opened Bytes

  /** The largest value four Variable Byte Integer bytes can carry. */
  const MaxVarint: nat := 268_435_455

  function Pow128(i: nat): (r: nat)
    ensures r >= 1
  {
    if i == 0 then 1 else 128 * Pow128(i - 1)
  }

  /** `_encode_variable_length`: seven bits per byte, least significant
      group first, bit 7 set on every byte that is followed by another. */
  function VarintBytes(v: nat): (r: bytes)
    decreases v
  {
    if v < 128 then [v] else [v % 128 + 128] + VarintBytes(v / 128)
  }

  /** Number of bytes the encoding of `v` takes, for values up to MaxVarint. */
  lemma Pow128Values()
    ensures Pow128(1) == 128 && Pow128(2) == 16384 && Pow128(3) == 2_097_152 && Pow128(4) == 268_435_456
  {
  }

  function VarintSize(v: nat): nat
  {
    if v < 128 then 1 else if v < 16384 then 2 else if v < 2_097_152 then 3 else 4
  }

  lemma {:induction false} VarintShape(v: nat)
    ensures var r := VarintBytes(v);
      |r| >= 1 && r[|r| - 1] < 128 &&
      (forall i :: 0 <= i < |r| - 1 ==> r[i] >= 128)
    ensures v <= MaxVarint ==> |VarintBytes(v)| == VarintSize(v) <= 4
    decreases v
  {
    if v >= 128 {
      VarintShape(v / 128);
      var r := VarintBytes(v);
      assert r == [v % 128 + 128] + VarintBytes(v / 128);
      forall i | 0 <= i < |r| - 1 ensures r[i] >= 128 {
        if i > 0 { assert r[i] == VarintBytes(v / 128)[i - 1]; }
      }
    }
  }

  /** The encoding loop of `_encode_variable_length`. */
  method EncodeVariableLength(value: nat) returns (r: bytes)
    ensures r == VarintBytes(value)
  {
    var v := value;
    r := [];
    var more := true;
    while more
      invariant more ==> r + VarintBytes(v) == VarintBytes(value)
      invariant !more ==> r == VarintBytes(value)
      decreases v + (if more then 1 else 0)
    {
      var b := v % 128;
      ghost var before := v;
      v := v / 128;
      if v > 0 {
        b := b + 128;
      }
      assert before >= 128 ==> VarintBytes(before) == [b] + VarintBytes(v);
      r := r + [b];
      more := v > 0;
    }
  }

  /** Decoding as `_decode_variable_length` does it, after `i` bytes that
      accumulated `acc`: error when the data ends, or when a fourth byte
      still announces a continuation. Yields (value, offset after). */
  function VarintFrom(data: bytes, offset: nat, i: nat, acc: nat): (r: Option<(nat, nat)>)
    requires i < 4
    ensures r.Some? ==> offset < r.value.1 <= |data| && r.value.1 <= offset + 4 - i
    ensures r.Some? ==> data[r.value.1 - 1] < 128
    decreases 4 - i
  {
    if offset >= |data| then None
    else
      var b := data[offset];
      var acc' := acc + (b % 128) * Pow128(i);
      if b < 128 then Some((acc', offset + 1))
      else if i == 3 then None
      else VarintFrom(data, offset + 1, i + 1, acc')
  }

  function DecodeVarint(data: bytes, offset: nat): (r: Option<(nat, nat)>)
  {
    VarintFrom(data, offset, 0, 0)
  }

  /** The decoding loop of `_decode_variable_length`. */
  method DecodeVariableLength(data: bytes, offset: nat) returns (r: Option<(nat, nat)>)
    ensures r == DecodeVarint(data, offset)
    ensures r.Some? ==> offset < r.value.1 <= offset + 4 && r.value.1 <= |data|
  {
    var multiplier: nat := 1;
    var value: nat := 0;
    var pos := offset;
    ghost var i := 0;
    Pow128Values();
    while true
      invariant i < 4 && multiplier == Pow128(i) && pos == offset + i
      invariant VarintFrom(data, pos, i, value) == DecodeVarint(data, offset)
      decreases 4 - i
    {
      if pos >= |data| {
        return None;
      }
      var b := data[pos];
      pos := pos + 1;
      value := value + (b % 128) * multiplier;
      if b < 128 {
        return Some((value, pos));
      }
      multiplier := multiplier * 128;
      assert multiplier == Pow128(i + 1);
      if multiplier > 128 * 128 * 128 {
        assert i == 3;
        return None;
      }
      i := i + 1;
    }
  }

  lemma SplitDigit(v: nat, p: nat)
    ensures (v % 128) * p + (v / 128) * (128 * p) == v * p
  {
    assert v == (v % 128) + 128 * (v / 128);
    assert (v / 128) * (128 * p) == (128 * (v / 128)) * p;
    assert v * p == ((v % 128) + 128 * (v / 128)) * p;
  }

  lemma VarintTail(v: nat, data: bytes, offset: nat)
    requires v >= 128 && At(data, offset, VarintBytes(v))
    ensures data[offset] == v % 128 + 128
    ensures At(data, offset + 1, VarintBytes(v / 128))
    ensures |VarintBytes(v)| == 1 + |VarintBytes(v / 128)|
  {
    var enc := VarintBytes(v);
    var rest := VarintBytes(v / 128);
    assert enc == [v % 128 + 128] + rest;
    AtConcat(data, offset, enc, [v % 128 + 128], rest, offset + 1);
    AtIndex(data, offset, enc, 0);
  }

  lemma {:induction false} VarintFromEncoding(v: nat, data: bytes, offset: nat, i: nat, acc: nat)
    requires i < 4 && v < Pow128(4 - i)
    requires At(data, offset, VarintBytes(v))
    ensures VarintFrom(data, offset, i, acc) == Some((acc + v * Pow128(i), offset + |VarintBytes(v)|))
    decreases v
  {
    if v < 128 {
      assert data[offset] == VarintBytes(v)[0];
    } else {
      VarintStep(v, i);
      VarintTail(v, data, offset);
      var acc' := acc + (v % 128) * Pow128(i);
      VarintFromEncoding(v / 128, data, offset + 1, i + 1, acc');
      SplitDigit(v, Pow128(i));
    }
  }

  lemma VarintStep(v: nat, i: nat)
    requires v >= 128 && i < 4 && v < Pow128(4 - i)
    ensures i < 3 && v / 128 < Pow128(4 - (i + 1)) && Pow128(i + 1) == 128 * Pow128(i)
  {
    Pow128Values();
    assert Pow128(4 - i) == 128 * Pow128(4 - (i + 1));
  }

  /** Round trip of section 1.5.5 of MQTT v5.0: every value up to MaxVarint
      decodes back from its encoding, consuming exactly the encoding. */
  lemma VarintRoundTrip(v: nat, data: bytes, offset: nat)
    requires v <= MaxVarint
    requires At(data, offset, VarintBytes(v))
    ensures DecodeVarint(data, offset) == Some((v, offset + |VarintBytes(v)|))
  {
    assert Pow128(4) == MaxVarint + 1;
    VarintFromEncoding(v, data, offset, 0, 0);
  }

  /** Decoding fails on data that ends inside the integer and on a fourth
      byte that still has its continuation bit set. */
  lemma VarintRejects(data: bytes, offset: nat)
    ensures (forall k :: offset <= k < |data| ==> data[k] >= 128) ==> DecodeVarint(data, offset) == None
    ensures (offset + 4 <= |data| && data[offset] >= 128 && data[offset + 1] >= 128 &&
             data[offset + 2] >= 128 && data[offset + 3] >= 128) ==> DecodeVarint(data, offset) == None
  {
  }

  /** Two-byte big-endian integer, `struct.pack('!H', n)`. */
  function Be16(n: u16): (r: bytes)
    ensures |r| == 2 && Be16Value(r[0], r[1]) == n
  {
    [n / 256, n % 256]
  }

  function Be16Value(hi: byte, lo: byte): u16
  {
    hi as int * 256 + lo
  }

  /** Four-byte big-endian integer, `struct.pack('!I', n)`. */
  function Be32(n: u32): (r: bytes)
    ensures |r| == 4 && Be32Value(r) == n
  {
    [n / 0x100_0000, (n / 0x1_0000) % 256, (n / 256) % 256, n % 256]
  }

  function Be32Value(s: bytes): u32
    requires |s| == 4
  {
    ((s[0] as int * 256 + s[1]) * 256 + s[2]) * 256 + s[3]
  }

  /** The length field as the 16-bit pack leaves it: the low 16 bits. */
  function Low16(n: nat): (m: u16)
    ensures m <= n && (n <= 0xFFFF ==> m == n)
  {
    n % 0x1_0000
  }

  /** `_encode_binary`, and `_encode_utf8` applied to the UTF-8 bytes of a
      string: a two-byte length, then the bytes. `struct.pack('!H', …)`
      keeps the low sixteen bits of the length. */
  function Prefixed(s: bytes): (r: bytes)
    ensures |r| == 2 + |s| && r[2..] == s
  {
    Be16(Low16(|s|)) + s
  }

  /** `_decode_binary`: an error when fewer than two bytes remain; the
      content is a slice, so it comes back short, and the offset goes past
      the end, when the data is truncated. */
  function DecodeBinary(data: bytes, offset: nat): (r: Option<(bytes, nat)>)
    ensures r.Some? <==> offset + 2 <= |data|
    ensures r.Some? ==> r.value.1 == offset + 2 + Be16Value(data[offset], data[offset + 1])
    ensures r.Some? ==> r.value.0 == data[offset + 2..Min(r.value.1, |data|)]
  {
    if offset + 2 > |data| then None
    else
      var n := Be16Value(data[offset], data[offset + 1]);
      var start := offset + 2;
      Some((data[start..Min(start + n, |data|)], start + n))
  }

  /** Number of continuation bytes a lead byte 0xC0..0xF7 announces. */
  function LeadNeed(c: byte): nat
  {
    if c < 0xE0 then 1 else if c < 0xF0 then 2 else 3
  }

  /** The well-formedness test `bytes.decode('utf-8')` applies: every lead
      byte 0xC0..0xF7 is followed by the continuation bytes (0x80..0xBF)
      it announces; other bytes from 0x80 up are refused. */
  predicate Utf8Scan(s: bytes, need: nat)
    decreases |s|
  {
    if s == [] then need == 0
    else if need > 0 then 0x80 <= s[0] < 0xC0 && Utf8Scan(s[1..], need - 1)
    else if s[0] < 0x80 then Utf8Scan(s[1..], 0)
    else if 0xC0 <= s[0] < 0xF8 then Utf8Scan(s[1..], LeadNeed(s[0]))
    else false
  }

  predicate ValidUtf8(s: bytes)
  {
    Utf8Scan(s, 0)
  }

  /** `_decode_utf8`: the binary framing, then the UTF-8 check. */
  function DecodeUtf8(data: bytes, offset: nat): (r: Option<(bytes, nat)>)
    ensures r.Some? ==> ValidUtf8(r.value.0) && DecodeBinary(data, offset) == r
    ensures DecodeBinary(data, offset).Some? && ValidUtf8(DecodeBinary(data, offset).value.0) ==> r.Some?
  {
    match DecodeBinary(data, offset)
    case None => None
    case Some((s, next)) => if ValidUtf8(s) then Some((s, next)) else None
  }

  /** A length-prefixed field of at most 65535 bytes decodes back to itself
      and the offset lands just after it. */
  lemma PrefixedRoundTrip(s: bytes, data: bytes, offset: nat)
    requires |s| <= 0xFFFF && At(data, offset, Prefixed(s))
    ensures DecodeBinary(data, offset) == Some((s, offset + 2 + |s|))
    ensures ValidUtf8(s) ==> DecodeUtf8(data, offset) == Some((s, offset + 2 + |s|))
  {
    var p := Prefixed(s);
    AtSlice(data, offset, p);
    AtIndex(data, offset, p, 0);
    AtIndex(data, offset, p, 1);
    assert data[offset + 2..offset + 2 + |s|] == p[2..];
  }

  /** The length is not checked against 65535: it is written modulo
      65536, and only that many bytes are read back. */
  lemma PrefixedTruncates(s: bytes)
    ensures DecodeBinary(Prefixed(s), 0) == Some((s[..Low16(|s|)], 2 + Low16(|s|)))
  {
    var d := Prefixed(s);
    var n := Low16(|s|);
    assert Be16Value(d[0], d[1]) == n;
    assert d[2..2 + n] == s[..n];
  }
}
