/** The optional-value wrapper used for the source's `None` results and for
    operations that raise on malformed input. */
module Wrappers {
  datatype Option<T> = None | Some(value: T)
}

/** Fixed-width unsigned integers as they appear on the wire. */
module Bytes {
  type byte = x: int | 0 <= x < 0x100
  type u16 = x: int | 0 <= x < 0x1_0000
  type u32 = x: int | 0 <= x < 0x1_0000_0000
  type bytes = seq<byte>

  function Min(a: int, b: int): (r: int)
    ensures r <= a && r <= b && (r == a || r == b)
  {
    if a < b then a else b
  }

  function Max(a: int, b: int): (r: int)
    ensures r >= a && r >= b && (r == a || r == b)
  {
    if a < b then b else a
  }

  /** `1 << k`. */
  function Pow2(k: nat): (r: nat)
    ensures r >= 1
  {
    if k == 0 then 1 else 2 * Pow2(k - 1)
  }

  lemma {:induction false} Pow2Add(a: nat, b: nat)
    ensures Pow2(a + b) == Pow2(a) * Pow2(b)
    decreases b
  {
    if b > 0 {
      Pow2Add(a, b - 1);
    }
  }

  /** A product of a nonzero factor is at least as far from zero as the
      other factor. */
  lemma MulAway(k: int, d: int)
    requires d > 0
    ensures k >= 1 ==> k * d >= d
    ensures k <= -1 ==> k * d <= -d
  {
    if k >= 1 {
      assert k * d == (k - 1) * d + d;
    }
    if k <= -1 {
      assert k * d == (k + 1) * d - d;
    }
  }

  /** Quotient and remainder are the only split of `x` into multiples of
      `d` and a remainder below `d`. */
  lemma DivModUnique(x: int, d: int, q: int, r: int)
    requires d > 0 && 0 <= r < d && x == q * d + r
    ensures x / d == q && x % d == r
  {
    var k := q - x / d;
    assert x == (x / d) * d + x % d;
    assert k * d == x % d - r;
    MulAway(k, d);
  }

  function Abs(x: int): nat
  {
    if x < 0 then -x else x
  }

  lemma MulLe(a: int, b: int, p: nat)
    requires a <= b
    ensures a * p <= b * p
  {
    assert b * p - a * p == (b - a) * p;
  }

  lemma MulLt(a: int, b: int, p: nat)
    requires a * p < b * p
    ensures a < b
  {
    if a >= b {
      MulLe(b, a, p);
    }
  }

  lemma BytesAssoc(a: bytes, b: bytes, c: bytes)
    ensures (a + b) + c == a + (b + c)
  {
  }

  /** `s` occurs in `data` starting at `offset`. */
  predicate At(data: bytes, offset: nat, s: bytes)
    decreases |s|
  {
    if s == [] then offset <= |data|
    else offset < |data| && data[offset] == s[0] && At(data, offset + 1, s[1..])
  }

  lemma AtSame(data: bytes, offset: nat, s: bytes, t: bytes)
    requires s == t && At(data, offset, s)
    ensures At(data, offset, t)
  { }

  /** The occurrence is the slice of `data` it covers. */
  lemma {:induction false} AtSlice(data: bytes, offset: nat, s: bytes)
    ensures At(data, offset, s) <==> offset + |s| <= |data| && data[offset..offset + |s|] == s
    decreases |s|
  {
    if s != [] {
      AtSlice(data, offset + 1, s[1..]);
      if offset + |s| <= |data| {
        assert data[offset..offset + |s|] == [data[offset]] + data[offset + 1..offset + |s|];
        assert s == [s[0]] + s[1..];
      }
    }
  }

  /** The bytes of `s` one by one. */
  lemma AtIndex(data: bytes, offset: nat, s: bytes, i: nat)
    requires At(data, offset, s) && i < |s|
    ensures offset + i < |data| && data[offset + i] == s[i]
  {
    AtSlice(data, offset, s);
    assert data[offset..offset + |s|][i] == data[offset + i];
  }

  /** `s` at `offset`, split as `a + b`, puts `a` at `offset` and `b` right after it. */
  lemma {:induction false} AtConcat(data: bytes, offset: nat, s: bytes, a: bytes, b: bytes, mid: nat)
    requires s == a + b && At(data, offset, s) && mid == offset + |a|
    ensures At(data, offset, a) && At(data, mid, b)
    decreases |a|
  {
    if a == [] {
      assert s == b;
    } else {
      assert s[0] == a[0];
      assert s[1..] == a[1..] + b;
      AtConcat(data, offset + 1, s[1..], a[1..], b, mid);
    }
  }
}
