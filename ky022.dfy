/** The infrared receiver of device/ticle/src/ext/ky022.py: pulse widths
    measured by the pin driver become NEC or SIRC frames, finished frames
    pass the repeat and hold filters and land in a fixed event queue that
    drops its oldest entry when full. A pulse width below zero stands for
    a pulse that timed out. */
module IrReceiver {
  import opened Wrappers
  import opened Bytes
  import opened RingBuffers

  /** Error codes. */
  const REPEAT: int := -1
  const BADSTART: int := -2
  const BADBLOCK: int := -3
  const BADREP: int := -4
  const OVERRUN: int := -5
  const BADDATA: int := -6
  const BADADDR: int := -7

  /** Protocols. */
  const NEC_8: int := 1
  const NEC_16: int := 2
  const SAMSUNG: int := 3
  const SIRC12: int := 4
  const SIRC15: int := 5
  const SIRC20: int := 6
  const RC5: int := 7
  const RC6: int := 8
  const PANA: int := 9
  const CARRIER40: int := 10
  const CARRIER84: int := 11
  const CARRIER128: int := 12
  const HVAC_NEC: int := 13

  /** The NEC space above which a bit is 1, and the SIRC unit, in us. */
  const NEC_ONE_BOUND: int := 1120
  const SIRC_T: int := 600

  // ---------------------------------------------------------------------
  // Timing

  /** `_close(v, t, p)`: `v` is within `p` percent of `t`, the tolerance
      rounded down (Python's `//`, which agrees with Dafny's `/` for a
      positive divisor). */
  predicate Close(v: int, t: int, p: int)
  {
    Abs(v - t) <= (t * p) / 100
  }

  /** The rounding of the tolerance loses nothing: `_close` is the exact
      comparison `|v - t| * 100 <= t * p`. */
  lemma CloseScaled(v: int, t: int, p: int)
    ensures Close(v, t, p) <==> 100 * Abs(v - t) <= t * p
  {
    var x := t * p;
    assert x == 100 * (x / 100) + x % 100;
  }

  // ---------------------------------------------------------------------
  // Bits

  /** The value of bits sent least significant first. */
  function Lsb(bs: seq<bool>): nat
    decreases |bs|
  {
    if bs == [] then 0 else Lsb(bs[..|bs| - 1]) + if bs[|bs| - 1] then Pow2(|bs| - 1) else 0
  }

  lemma {:induction false} LsbBound(bs: seq<bool>)
    ensures Lsb(bs) < Pow2(|bs|)
    decreases |bs|
  {
    if bs != [] {
      LsbBound(bs[..|bs| - 1]);
    }
  }

  /** The value gains the new bit's weight, if it is a 1. */
  lemma LsbSnoc(bs: seq<bool>, i: nat)
    requires i < |bs|
    ensures Lsb(bs[..i + 1]) == Lsb(bs[..i]) + if bs[i] then Pow2(i) else 0
  {
    assert bs[..i + 1][..i] == bs[..i];
  }

  /** Bit `k` of the value is the `k`-th bit received. */
  lemma {:induction false} LsbBit(bs: seq<bool>, k: nat)
    requires k < |bs|
    ensures (Lsb(bs) / Pow2(k)) % 2 == if bs[k] then 1 else 0
    decreases |bs|
  {
    var n := |bs| - 1;
    var front := bs[..n];
    var l := Lsb(front);
    LsbBound(front);
    if k == n {
      var b := if bs[n] then 1 else 0;
      DivModUnique(Lsb(bs), Pow2(n), b, l);
    } else {
      LsbBit(front, k);
      assert front[k] == bs[k];
      if bs[n] {
        var pk := Pow2(k);
        var w := Pow2(n - k - 1);
        Pow2Add(k, n - k);
        assert Pow2(n) == pk * (2 * w);
        assert Lsb(bs) == l + pk * (2 * w);
        HigherBitKeepsParity(l, pk, w);
      }
    }
  }

  /** Adding an even multiple of `pk` leaves the parity of the quotient
      by `pk` alone. */
  lemma HigherBitKeepsParity(l: nat, pk: nat, w: nat)
    requires pk > 0
    ensures ((l + pk * (2 * w)) / pk) % 2 == (l / pk) % 2
  {
    var ql := l / pk;
    assert l == ql * pk + l % pk;
    assert l + pk * (2 * w) == (ql + 2 * w) * pk + l % pk;
    DivModUnique(l + pk * (2 * w), pk, ql + 2 * w, l % pk);
    DivModUnique(ql + 2 * w, 2, ql / 2 + w, ql % 2);
  }

  /** Every per-bit check up to `n` passed, or the first one that failed. */
  function FirstError(errs: seq<Option<int>>, n: nat): Option<int>
    requires n <= |errs|
  {
    if n == 0 then None
    else if FirstError(errs, n - 1).Some? then FirstError(errs, n - 1)
    else errs[n - 1]
  }

  /** The first failure is the one reported: once a check has failed, the
      later bits do not matter. */
  lemma {:induction false} FirstErrorMeaning(errs: seq<Option<int>>, n: nat)
    requires n <= |errs|
    ensures FirstError(errs, n).None? <==> forall k :: 0 <= k < n ==> errs[k].None?
    ensures FirstError(errs, n).Some? ==>
              exists k :: (0 <= k < n && errs[k] == FirstError(errs, n)
                           && forall j :: 0 <= j < k ==> errs[j].None?)
  {
    if n > 0 {
      FirstErrorMeaning(errs, n - 1);
    }
  }

  lemma {:induction false} FirstErrorStays(errs: seq<Option<int>>, n: nat, m: nat)
    requires n <= m <= |errs| && FirstError(errs, n).Some?
    ensures FirstError(errs, m) == FirstError(errs, n)
    decreases m - n
  {
    if n < m {
      FirstErrorStays(errs, n, m - 1);
    }
  }

  /** What a bit loop yields: an error code or the collected value. */
  datatype Bits = Bad(code: int) | Val(v: nat)

  function BitsOutcome(e: Option<int>, v: nat): Bits
  {
    if e.Some? then Bad(e.value) else Val(v)
  }

  // ---------------------------------------------------------------------
  // NEC

  /** One NEC bit: the mark (timed out, or not about 560 us) and then the
      space (timed out). */
  function NecPairError(m: int, s: int, tol: int): Option<int>
  {
    if m < 0 then Some(BADBLOCK)
    else if !Close(m, 560, tol) then Some(BADDATA)
    else if s < 0 then Some(BADBLOCK)
    else None
  }

  function NecErrors(marks: seq<int>, spaces: seq<int>, tol: int): (r: seq<Option<int>>)
    requires |marks| == |spaces|
    ensures |r| == |marks|
  {
    seq(|marks|, k requires 0 <= k < |marks| => NecPairError(marks[k], spaces[k], tol))
  }

  /** A long space is a 1. */
  function NecBitList(spaces: seq<int>): (r: seq<bool>)
    ensures |r| == |spaces|
  {
    seq(|spaces|, k requires 0 <= k < |spaces| => spaces[k] > NEC_ONE_BOUND)
  }

  /** The word the NEC loop builds: each bit shifts the word right and a 1
      sets the top bit. */
  function NecShiftIn(bs: seq<bool>): nat
    decreases |bs|
  {
    if bs == [] then 0 else NecShiftIn(bs[..|bs| - 1]) / 2 + if bs[|bs| - 1] then 0x8000_0000 else 0
  }

  /** After `i` bits the word holds them, first bit lowest, shifted up by
      `32 - i`; after all 32 it is their value. */
  lemma {:induction false} NecShiftInValue(bs: seq<bool>)
    requires |bs| <= 32
    ensures NecShiftIn(bs) == Lsb(bs) * Pow2(32 - |bs|)
    decreases |bs|
  {
    if bs != [] {
      var i := |bs| - 1;
      NecShiftInValue(bs[..i]);
      NecShift(bs, i);
    }
  }

  /** The 32-bit loop of `_cap_nec_like`: each space shifts the word
      right and sets the top bit for a 1, so the first bit ends lowest. */
  method ReadNecBits(marks: seq<int>, spaces: seq<int>, tol: int) returns (r: Bits)
    requires |marks| == 32 && |spaces| == 32
    ensures r == BitsOutcome(FirstError(NecErrors(marks, spaces, tol), 32), Lsb(NecBitList(spaces)))
  {
    ghost var errs := NecErrors(marks, spaces, tol);
    ghost var bits := NecBitList(spaces);
    var val: nat := 0;
    var i := 0;
    while i < 32
      invariant 0 <= i <= 32 && FirstError(errs, i).None?
      invariant val == NecShiftIn(bits[..i])
    {
      var m := marks[i];
      if m < 0 || !Close(m, 560, tol) {
        FirstErrorStays(errs, i + 1, 32);
        return if m < 0 then Bad(BADBLOCK) else Bad(BADDATA);
      }
      var s := spaces[i];
      if s < 0 {
        FirstErrorStays(errs, i + 1, 32);
        return Bad(BADBLOCK);
      }
      assert bits[..i + 1][..i] == bits[..i];
      // The shift leaves the top bit clear, so setting it adds 2^31.
      val := val / 2;
      if s > NEC_ONE_BOUND {
        val := val + 0x8000_0000;
      }
      i := i + 1;
    }
    assert bits[..32] == bits;
    NecShiftInValue(bits);
    r := Val(val);
  }

  /** One step of the NEC word: shifting `L * 2^(32-i)` right and adding
      the new bit on top. */
  lemma NecShift(bs: seq<bool>, i: nat)
    requires |bs| == i + 1 && i < 32
    ensures Lsb(bs[..i]) * Pow2(32 - i) / 2 + (if bs[i] then 0x8000_0000 else 0) == Lsb(bs) * Pow2(31 - i)
  {
    var l := Lsb(bs[..i]);
    var p := Pow2(31 - i);
    assert Pow2(32 - i) == 2 * p;
    Half(l, p);
    LsbSnoc(bs, i);
    assert bs[..i + 1] == bs;
    if bs[i] {
      Pow2Add(i, 31 - i);
      Pow2Values();
      Distr(l, Pow2(i), p);
    }
  }

  lemma Half(l: nat, p: nat)
    ensures l * (2 * p) / 2 == l * p
  {
    DivModUnique(l * (2 * p), 2, l * p, 0);
  }

  lemma Distr(l: nat, a: nat, p: nat)
    ensures (l + a) * p == l * p + a * p
  {
  }

  lemma Pow2Values()
    ensures Pow2(7) == 128 && Pow2(8) == 256 && Pow2(16) == 65536
    ensures Pow2(24) == 16777216 && Pow2(31) == 0x8000_0000
  {
    assert Pow2(8) == 256;
    assert Pow2(16) == 65536 by {
      Pow2Add(8, 8);
    }
    assert Pow2(24) == 16777216 by {
      Pow2Add(16, 8);
    }
    assert Pow2(31) == 0x8000_0000 by {
      Pow2Add(24, 7);
    }
  }

  /** `(x ^ y) & mask` for the mask of the low `n` bits, on the
      non-negative integers of the source: bit by bit, a 1 where the two
      bits differ. */
  function XorLow(x: nat, y: nat, n: nat): nat
  {
    if n == 0 then 0 else (if x % 2 != y % 2 then 1 else 0) + 2 * XorLow(x / 2, y / 2, n - 1)
  }

  function Xor8(x: nat, y: nat): nat
  {
    XorLow(x, y, 8)
  }

  /** Two `n`-bit values XOR to all ones exactly when one is the
      complement of the other. */
  lemma {:induction false} XorAllOnes(x: nat, y: nat, n: nat)
    requires x < Pow2(n) && y < Pow2(n)
    ensures XorLow(x, y, n) == Pow2(n) - 1 <==> y == Pow2(n) - 1 - x
  {
    if n > 0 {
      assert Pow2(n) == 2 * Pow2(n - 1);
      XorAllOnes(x / 2, y / 2, n - 1);
      assert x == 2 * (x / 2) + x % 2 && y == 2 * (y / 2) + y % 2;
    }
  }

  /** The check of `_cap_nec_like` on two bytes. */
  lemma XorComplement(x: byte, y: byte)
    ensures Xor8(x, y) == 0xFF <==> y == 255 - x
  {
    Pow2Values();
    XorAllOnes(x, y, 8);
  }

  /** The frame decoded, or the reason it was rejected. */
  datatype Frame = Frame(cmd: int, addr: int, ext: int, isRepeat: bool)
  datatype Capture = Got(f: Frame) | Fail(code: int)

  /** The fields of a 32-bit NEC word: address, inverted address, command,
      inverted command, first to last. */
  function NecFields(v: nat, proto: int): Capture
  {
    var a := v % 256;
    var na := (v / 256) % 256;
    var c := (v / 65536) % 256;
    var nc := (v / 16777216) % 256;
    if Xor8(c, nc) != 0xFF then Fail(BADDATA)
    else if proto == NEC_8 then
      if Xor8(a, na) != 0xFF then Fail(BADADDR) else Got(Frame(c, a, 0, false))
    else Got(Frame(c, a + na * 256, 0, false))
  }

  /** The word the four NEC bytes make. */
  function NecWord(a: byte, na: byte, c: byte, nc: byte): nat
  {
    a + na * 256 + c * 65536 + nc * 16777216
  }

  /** Reading a NEC word gives back its command and address when both are
      sent with their complements (NEC_8), the 16-bit address of NEC_16,
      and a command without its complement is always BADDATA. */
  lemma NecFieldsOfWord(a: byte, na: byte, c: byte, nc: byte, proto: int)
    ensures nc != 255 - c ==> NecFields(NecWord(a, na, c, nc), proto) == Fail(BADDATA)
    ensures nc == 255 - c && proto == NEC_8 ==>
      NecFields(NecWord(a, na, c, nc), proto) == if na == 255 - a then Got(Frame(c, a, 0, false)) else Fail(BADADDR)
    ensures nc == 255 - c && proto != NEC_8 ==>
      NecFields(NecWord(a, na, c, nc), proto) == Got(Frame(c, a + 256 * na, 0, false))
  {
    var v := NecWord(a, na, c, nc);
    assert v % 256 == a && (v / 256) % 256 == na && (v / 65536) % 256 == c && (v / 16777216) % 256 == nc by {
      WordBytes(a, na, c, nc);
    }
    XorComplement(c, nc);
    XorComplement(a, na);
  }

  lemma WordBytes(a: byte, na: byte, c: byte, nc: byte)
    ensures var v := NecWord(a, na, c, nc);
      v % 256 == a && (v / 256) % 256 == na && (v / 65536) % 256 == c && (v / 16777216) % 256 == nc
  {
    var v := NecWord(a, na, c, nc);
    DivModUnique(v, 256, na + 256 * c + 65536 * nc, a);
    DivModUnique(na + 256 * c + 65536 * nc, 256, c + 256 * nc, na);
    DivModUnique(v, 65536, c + 256 * nc, a + 256 * na);
    DivModUnique(c + 256 * nc, 256, nc, c);
    DivModUnique(v, 16777216, nc, a + 256 * na + 65536 * c);
  }

  /** `_cap_nec_like` on measured pulse widths: the 9 ms leader mark, the
      space that tells a frame (over 3 ms) from a repeat (1.7 to 3 ms),
      and then either the repeat's mark or the 32 data bits. */
  function NecCapture(mark1: int, space1: int, repMark: int, marks: seq<int>, spaces: seq<int>,
                      cmdLast: Option<int>, addrLast: int, proto: int, tol: int): Capture
    requires |marks| == 32 && |spaces| == 32
  {
    if mark1 < 0 || space1 < 0 then Fail(BADBLOCK)
    else if !Close(mark1, 9000, tol) then Fail(BADSTART)
    else if space1 <= 1700 then Fail(BADSTART)
    else if space1 <= 3000 then
      if repMark < 0 || !Close(repMark, 560, tol) || cmdLast.None? then Fail(BADREP)
      else Got(Frame(cmdLast.value, addrLast, 0, true))
    else
      match BitsOutcome(FirstError(NecErrors(marks, spaces, tol), 32), Lsb(NecBitList(spaces)))
      case Bad(e) => Fail(e)
      case Val(v) => NecFields(v, proto)
  }

  /** A NEC data frame whose pulses are all sound decodes to the address
      and command its spaces spell, least significant bit first. */
  lemma NecFrameDecodes(mark1: int, space1: int, repMark: int, marks: seq<int>, spaces: seq<int>,
                        cmdLast: Option<int>, addrLast: int, tol: int, a: byte, c: byte)
    requires |marks| == 32 && |spaces| == 32 && Close(mark1, 9000, tol) && mark1 >= 0 && space1 > 3000
    requires forall k :: 0 <= k < 32 ==> marks[k] >= 0 && Close(marks[k], 560, tol) && spaces[k] >= 0
    requires Lsb(NecBitList(spaces)) == NecWord(a, 255 - a, c, 255 - c)
    ensures NecCapture(mark1, space1, repMark, marks, spaces, cmdLast, addrLast, NEC_8, tol) == Got(Frame(c, a, 0, false))
  {
    var errs := NecErrors(marks, spaces, tol);
    FirstErrorMeaning(errs, 32);
    NecFieldsOfWord(a, 255 - a, c, 255 - c, NEC_8);
  }

  /** `_cap_nec_like` with the bit loop. */
  method CapNecLike(mark1: int, space1: int, repMark: int, marks: seq<int>, spaces: seq<int>,
                    cmdLast: Option<int>, addrLast: int, proto: int, tol: int) returns (r: Capture)
    requires |marks| == 32 && |spaces| == 32
    ensures r == NecCapture(mark1, space1, repMark, marks, spaces, cmdLast, addrLast, proto, tol)
  {
    if mark1 < 0 || space1 < 0 {
      return Fail(BADBLOCK);
    }
    if !Close(mark1, 9000, tol) {
      return Fail(BADSTART);
    }
    var normal := space1 > 3000;
    var repeat := 1700 < space1 <= 3000;
    if !(normal || repeat) {
      return Fail(BADSTART);
    }
    if repeat {
      if repMark < 0 || !Close(repMark, 560, tol) || cmdLast.None? {
        return Fail(BADREP);
      }
      return Got(Frame(cmdLast.value, addrLast, 0, true));
    }
    var bits := ReadNecBits(marks, spaces, tol);
    if bits.Bad? {
      return Fail(bits.code);
    }
    r := NecFields(bits.v, proto);
  }

  // ---------------------------------------------------------------------
  // SIRC

  /** One SIRC bit: the mark and the space are read, then the mark must
      be about one unit. */
  function SircPairError(dm: int, ds: int, tol: int): Option<int>
  {
    if dm < 0 || ds < 0 then Some(BADBLOCK)
    else if !Close(dm, SIRC_T, tol) then Some(BADDATA)
    else None
  }

  function SircErrors(dms: seq<int>, dss: seq<int>, tol: int): (r: seq<Option<int>>)
    requires |dms| == |dss|
    ensures |r| == |dms|
  {
    seq(|dms|, k requires 0 <= k < |dms| => SircPairError(dms[k], dss[k], tol))
  }

  /** A space of about two units is a 1. */
  function SircBitList(dss: seq<int>, tol: int): (r: seq<bool>)
    ensures |r| == |dss|
  {
    seq(|dss|, k requires 0 <= k < |dss| => Close(dss[k], 2 * SIRC_T, tol))
  }

  function SircWidth(proto: int): nat
  {
    if proto == SIRC12 then 12 else if proto == SIRC15 then 15 else 20
  }

  /** The SIRC fields: a 7-bit command, then a 5-bit address (12 bits), an
      8-bit address (15 bits), or a 5-bit address and an 8-bit extension
      (20 bits). */
  function SircFields(v: nat, width: nat): Frame
  {
    var cmd := v % 128;
    if width == 12 then Frame(cmd, (v / 128) % 32, 0, false)
    else if width == 15 then Frame(cmd, (v / 128) % 256, 0, false)
    else Frame(cmd, (v / 128) % 32, (v / 4096) % 256, false)
  }

  /** The fields come back out of the value they were packed into. */
  lemma SircFieldsRoundTrip(cmd: nat, addr: nat, ext: nat, width: nat)
    requires cmd < 128 && ext < 256
    requires width == 12 || width == 15 || width == 20
    requires if width == 15 then addr < 256 else addr < 32
    requires width != 20 ==> ext == 0
    ensures SircFields(cmd + 128 * addr + 4096 * ext, width) == Frame(cmd, addr, ext, false)
  {
    var v := cmd + 128 * addr + 4096 * ext;
    DivModUnique(v, 128, addr + 32 * ext, cmd);
    if width == 15 {
      DivModUnique(addr, 256, 0, addr);
    } else {
      DivModUnique(addr + 32 * ext, 32, ext, addr);
    }
    if width == 20 {
      DivModUnique(v, 4096, ext, cmd + 128 * addr);
    }
  }

  /** `_cap_sirc` on measured pulse widths. */
  function SircCapture(m: int, s: int, dms: seq<int>, dss: seq<int>, proto: int, tol: int): Capture
    requires |dms| == SircWidth(proto) && |dss| == SircWidth(proto)
  {
    if m < 0 || s < 0 then Fail(BADBLOCK)
    else if !(Close(m, 4 * SIRC_T, tol) && Close(s, SIRC_T, tol)) then Fail(BADSTART)
    else
      match BitsOutcome(FirstError(SircErrors(dms, dss, tol), |dms|), Lsb(SircBitList(dss, tol)))
      case Bad(e) => Fail(e)
      case Val(v) => Got(SircFields(v, SircWidth(proto)))
  }

  /** `_cap_sirc` with the bit loop: bit `i` is or-ed in at `1 << i`. */
  method CapSirc(m: int, s: int, dms: seq<int>, dss: seq<int>, proto: int, tol: int) returns (r: Capture)
    requires |dms| == SircWidth(proto) && |dss| == SircWidth(proto)
    ensures r == SircCapture(m, s, dms, dss, proto, tol)
  {
    if m < 0 || s < 0 {
      return Fail(BADBLOCK);
    }
    if !(Close(m, 4 * SIRC_T, tol) && Close(s, SIRC_T, tol)) {
      return Fail(BADSTART);
    }
    var width := if proto == SIRC12 then 12 else if proto == SIRC15 then 15 else 20;
    ghost var errs := SircErrors(dms, dss, tol);
    ghost var bits := SircBitList(dss, tol);
    var val: nat := 0;
    var i := 0;
    while i < width
      invariant 0 <= i <= width && FirstError(errs, i).None?
      invariant val == Lsb(bits[..i])
    {
      var dm := dms[i];
      var ds := dss[i];
      if dm < 0 || ds < 0 || !Close(dm, SIRC_T, tol) {
        FirstErrorStays(errs, i + 1, width);
        return if dm < 0 || ds < 0 then Fail(BADBLOCK) else Fail(BADDATA);
      }
      // `val` is below `1 << i`, so or-ing in bit `i` adds it.
      if Close(ds, 2 * SIRC_T, tol) {
        val := val + Pow2(i);
      }
      LsbSnoc(bits, i);
      i := i + 1;
    }
    assert bits[..i] == bits;
    r := Got(SircFields(val, width));
  }

  // ---------------------------------------------------------------------
  // The event queue

  datatype Event = Event(cmd: int, addr: int, ext: int)

  /** The queue of decoded events: `max(2, queue_size)` slots, read at
      `qh` and written at `qt`, one slot always free. */
  class IrQueue {
    const q: array<Event>
    var qh: nat
    var qt: nat

    ghost predicate Valid()
      reads this
    {
      2 <= q.Length && qh < q.Length && qt < q.Length
    }

    /** The queued events, oldest first. */
    ghost function Contents(): seq<Event>
      reads this, q
      requires Valid()
    {
      Ring(q[..], qh, Dist(qh, qt, q.Length))
    }

    constructor (queueSize: int)
      ensures Valid() && fresh(q) && q.Length == Max(2, queueSize) && Contents() == []
    {
      q := new Event[Max(2, queueSize)](_ => Event(0, 0, 0));
      qh := 0;
      qt := 0;
    }

    /** `_q_put`: the event is appended; on a full queue the oldest event
        goes, so the queue keeps the newest `len - 1`. */
    method Put(evt: Event)
      requires Valid()
      modifies this, q
      ensures Valid() && Contents() == Newest(old(Contents()) + [evt], q.Length - 1)
    {
      ghost var b := q[..];
      ghost var h := qh;
      ghost var t := qt;
      ModWrap(qt + 1, q.Length);
      var nxt := (qt + 1) % q.Length;
      if nxt == qh {
        ModWrap(qh + 1, q.Length);
        qh := (qh + 1) % q.Length;
      }
      q[qt] := evt;
      qt := nxt;
      RingPush(b, t, h, evt, nxt, qh);
      assert q[..] == b[t := evt];
    }

    /** `_q_get_nowait`: nothing from an empty queue; otherwise the oldest
        event. */
    method GetNowait() returns (r: Option<Event>)
      requires Valid()
      modifies this
      ensures Valid()
      ensures old(Contents()) == [] ==> r.None? && Contents() == []
      ensures old(Contents()) != [] ==> r == Some(old(Contents())[0]) && Contents() == old(Contents())[1..]
    {
      if qh == qt {
        return None;
      }
      ghost var a := Dist(qh, qt, q.Length);
      RingAt(q[..], qh, a, 0);
      r := Some(q[qh]);
      ModWrap(qh + 1, q.Length);
      var h := (qh + 1) % q.Length;
      RingAdvance(q[..], qt, qh, a, 1, h);
      qh := h;
    }
  }

  // ---------------------------------------------------------------------
  // Finishing a frame

  /** The receiver's filter settings. */
  datatype RxConfig = RxConfig(proto: int, tolPct: int, emitRepeat: bool, firstDelayMs: int, minIntervalMs: int, holdMs: int)

  /** The receiver's memory of past frames. */
  datatype RxMemory = RxMemory(lastFullMs: int, lastRepeatMs: int, lastEmitMs: int,
                               lastEmitCmd: Option<int>, lastEmitAddr: int, cmdLast: Option<int>, addrLast: int)

  /** `cmd & ~0x0C`: bits 2 and 3 cleared (two's complement, as Python). */
  function ClearToggle(cmd: int): int
  {
    cmd - ((cmd / 4) % 4) * 4
  }

  /** The command the hold filter compares: HVAC-style protocols ignore
      bits 2 and 3. */
  function BaseCmd(proto: int, cmd: int): int
  {
    if proto in {CARRIER40, CARRIER84, CARRIER128, HVAC_NEC} then ClearToggle(cmd) else cmd
  }

  /** Clearing the two bits keeps the bits below and above them. */
  lemma ClearToggleBits(cmd: int)
    ensures ClearToggle(cmd) % 4 == cmd % 4 && (ClearToggle(cmd) / 4) % 4 == 0
    ensures ClearToggle(cmd) / 16 == cmd / 16
  {
    var q := cmd / 4;
    assert cmd == 4 * q + cmd % 4;
    assert q == 4 * (q / 4) + q % 4;
    var c := ClearToggle(cmd);
    assert c == 16 * (q / 4) + cmd % 4;
    DivModUnique(c, 4, 4 * (q / 4), cmd % 4);
    DivModUnique(4 * (q / 4), 4, q / 4, 0);
    DivModUnique(c, 16, q / 4, cmd % 4);
    DivModUnique(cmd, 16, q / 4, 4 * (q % 4) + cmd % 4);
  }

  /** A press of the same key on the same address within the hold time. */
  predicate Held(c: RxConfig, s: RxMemory, now: int, base: int, addr: int)
  {
    c.holdMs > 0 && s.lastEmitCmd == Some(base) && addr == s.lastEmitAddr && now - s.lastEmitMs < c.holdMs
  }

  /** The first half of `_finish_ok`: a repeat is dropped when repeats
      are off or come too early; a frame that passes restarts the repeat
      timing. */
  function Gate(c: RxConfig, s: RxMemory, now: int, isRepeat: bool): Option<RxMemory>
  {
    if isRepeat && (!c.emitRepeat || now - s.lastFullMs < c.firstDelayMs || now - s.lastRepeatMs < c.minIntervalMs) then
      None
    else if isRepeat then Some(s.(lastRepeatMs := now))
    else Some(s.(lastFullMs := now, lastRepeatMs := 0))
  }

  /** The second half of `_finish_ok`: the hold filter, then the event is
      queued and remembered. */
  function Throttle(c: RxConfig, s: RxMemory, now: int, cmd: int, addr: int, ext: int): (RxMemory, Option<Event>)
  {
    var base := BaseCmd(c.proto, cmd);
    if Held(c, s, now, base, addr) then (s, None)
    else (s.(cmdLast := if cmd >= 0 then Some(cmd) else s.cmdLast,
             lastEmitMs := now, lastEmitCmd := Some(base), lastEmitAddr := addr),
          Some(Event(cmd, addr, ext)))
  }

  /** `_finish_ok`: the new memory and the event queued, if any. */
  function Finish(c: RxConfig, s: RxMemory, now: int, cmd: int, addr: int, ext: int, isRepeat: bool): (RxMemory, Option<Event>)
  {
    match Gate(c, s, now, isRepeat)
    case None => (s, None)
    case Some(s1) => Throttle(c, s1, now, cmd, addr, ext)
  }

  /** With repeats switched off, a repeat frame changes nothing. */
  lemma RepeatDroppedWhenOff(c: RxConfig, s: RxMemory, now: int, cmd: int, addr: int, ext: int)
    requires !c.emitRepeat
    ensures Finish(c, s, now, cmd, addr, ext, true) == (s, None)
  {
  }

  /** A repeat is queued only after the first-repeat delay since the last
      full frame and the minimum interval since the last repeat, and it
      restarts the interval; when both have passed and the hold filter
      lets it through, it is queued. */
  lemma RepeatRateLimited(c: RxConfig, s: RxMemory, now: int, cmd: int, addr: int, ext: int)
    ensures var (s', e) := Finish(c, s, now, cmd, addr, ext, true);
      (e.Some? ==> c.emitRepeat && now - s.lastFullMs >= c.firstDelayMs
                   && now - s.lastRepeatMs >= c.minIntervalMs && s'.lastRepeatMs == now)
      && ((c.emitRepeat && now - s.lastFullMs >= c.firstDelayMs && now - s.lastRepeatMs >= c.minIntervalMs
              && !Held(c, s, now, BaseCmd(c.proto, cmd), addr)) ==> e == Some(Event(cmd, addr, ext)))
  {
  }

  /** A full frame always restarts the repeat timing, and is queued unless
      the hold filter stops it. */
  lemma FullFrameQueued(c: RxConfig, s: RxMemory, now: int, cmd: int, addr: int, ext: int)
    ensures var (s', e) := Finish(c, s, now, cmd, addr, ext, false);
      s'.lastFullMs == now && s'.lastRepeatMs == 0
      && (e.Some? <==> !Held(c, s, now, BaseCmd(c.proto, cmd), addr))
      && (e.Some? ==> e == Some(Event(cmd, addr, ext)))
  {
  }

  /** Whatever is queued passed the hold filter and becomes the key the
      next frame is compared with. */
  lemma QueuedPassedHold(c: RxConfig, s: RxMemory, now: int, cmd: int, addr: int, ext: int, isRepeat: bool)
    ensures var (s', e) := Finish(c, s, now, cmd, addr, ext, isRepeat);
      e.Some? ==> !Held(c, s, now, BaseCmd(c.proto, cmd), addr) && s'.lastEmitMs == now
                  && s'.lastEmitCmd == Some(BaseCmd(c.proto, cmd)) && s'.lastEmitAddr == addr
  {
  }

  /** `_decode_hw_sched` on a capture: a frame sets the last address and,
      for a non-negative command, the last command, and is then finished;
      a failed capture changes nothing. */
  function AfterCapture(c: RxConfig, s: RxMemory, now: int, cap: Capture): (RxMemory, Option<Event>)
  {
    match cap
    case Fail(_) => (s, None)
    case Got(f) =>
      var s1 := s.(addrLast := f.addr, cmdLast := if f.cmd >= 0 then Some(f.cmd) else s.cmdLast);
      Finish(c, s1, now, f.cmd, f.addr, f.ext, f.isRepeat)
  }

  /** The queue after `_q_put` of the event, if there is one, in a queue
      that keeps `keep` events. */
  function Enqueued(contents: seq<Event>, e: Option<Event>, keep: nat): seq<Event>
  {
    if e.Some? then Newest(contents + [e.value], keep) else contents
  }

  /** A NEC repeat code (a 9 ms mark, a 1.7 to 3 ms space and a 560 us
      mark) stands for the last command and address, and is refused when
      no command has been received yet. */
  lemma NecRepeatReplaysLast(mark1: int, space1: int, repMark: int, marks: seq<int>, spaces: seq<int>,
                             cmdLast: Option<int>, addrLast: int, proto: int, tol: int)
    requires |marks| == 32 && |spaces| == 32 && mark1 >= 0 && Close(mark1, 9000, tol)
    requires 1700 < space1 <= 3000 && repMark >= 0 && Close(repMark, 560, tol)
    ensures NecCapture(mark1, space1, repMark, marks, spaces, cmdLast, addrLast, proto, tol)
            == if cmdLast.Some? then Got(Frame(cmdLast.value, addrLast, 0, true)) else Fail(BADREP)
  {
  }

  /** Once a repeat has been accepted, the receiver queues the command
      and address of the frame it repeats. */
  lemma RepeatQueuesLastKey(c: RxConfig, s: RxMemory, now: int, cmd: int, addr: int)
    requires cmd >= 0
    ensures var e := AfterCapture(c, s, now, Got(Frame(cmd, addr, 0, true))).1;
      e.Some? ==> e.value == Event(cmd, addr, 0)
  {
  }

  /** A SIRC frame whose pulses are all sound decodes to the command,
      address and extension its spaces spell. */
  lemma SircFrameDecodes(m: int, s: int, dms: seq<int>, dss: seq<int>, proto: int, tol: int,
                         cmd: nat, addr: nat, ext: nat)
    requires |dms| == SircWidth(proto) && |dss| == SircWidth(proto)
    requires m >= 0 && s >= 0 && Close(m, 4 * SIRC_T, tol) && Close(s, SIRC_T, tol)
    requires forall k :: 0 <= k < |dms| ==> dms[k] >= 0 && dss[k] >= 0 && Close(dms[k], SIRC_T, tol)
    requires cmd < 128 && ext < 256
    requires if SircWidth(proto) == 15 then addr < 256 else addr < 32
    requires SircWidth(proto) != 20 ==> ext == 0
    requires Lsb(SircBitList(dss, tol)) == cmd + 128 * addr + 4096 * ext
    ensures SircCapture(m, s, dms, dss, proto, tol) == Got(Frame(cmd, addr, ext, false))
  {
    FirstErrorMeaning(SircErrors(dms, dss, tol), |dms|);
    SircFieldsRoundTrip(cmd, addr, ext, SircWidth(proto));
  }

  /** The receiver: settings, memory and queue. */
  class Receiver {
    const cfg: RxConfig
    const queue: IrQueue
    var lastFullMs: int
    var lastRepeatMs: int
    var lastEmitMs: int
    var lastEmitCmd: Option<int>
    var lastEmitAddr: int
    var cmdLast: Option<int>
    var addrLast: int

    function Memory(): RxMemory
      reads this
    {
      RxMemory(lastFullMs, lastRepeatMs, lastEmitMs, lastEmitCmd, lastEmitAddr, cmdLast, addrLast)
    }

    ghost predicate Valid()
      reads this, queue, queue.q
    {
      queue.Valid()
    }

    constructor (c: RxConfig, queueSize: int)
      ensures Valid() && cfg == c && fresh(queue) && fresh(queue.q)
      ensures queue.q.Length == Max(2, queueSize) && queue.Contents() == []
      ensures Memory() == RxMemory(0, 0, 0, None, 0, None, 0)
    {
      cfg := c;
      queue := new IrQueue(queueSize);
      lastFullMs := 0;
      lastRepeatMs := 0;
      lastEmitMs := 0;
      lastEmitCmd := None;
      lastEmitAddr := 0;
      cmdLast := None;
      addrLast := 0;
    }

    /** The repeat checks of `_finish_ok`. */
    method GatePhase(now: int, isRepeat: bool) returns (pass: bool)
      modifies this
      ensures pass == Gate(cfg, old(Memory()), now, isRepeat).Some?
      ensures Memory() == if pass then Gate(cfg, old(Memory()), now, isRepeat).value else old(Memory())
    {
      if isRepeat {
        if !cfg.emitRepeat {
          return false;
        }
        if now - lastFullMs < cfg.firstDelayMs {
          return false;
        }
        if now - lastRepeatMs < cfg.minIntervalMs {
          return false;
        }
        lastRepeatMs := now;
      } else {
        lastFullMs := now;
        lastRepeatMs := 0;
      }
      pass := true;
    }

    /** The hold filter and the queueing of `_finish_ok`. */
    method ThrottlePhase(now: int, cmd: int, addr: int, ext: int)
      requires Valid()
      modifies this, queue, queue.q
      ensures Valid() && Memory() == Throttle(cfg, old(Memory()), now, cmd, addr, ext).0
      ensures queue.Contents() == Enqueued(old(queue.Contents()), Throttle(cfg, old(Memory()), now, cmd, addr, ext).1, queue.q.Length - 1)
    {
      var base := BaseCmd(cfg.proto, cmd);
      if Held(cfg, Memory(), now, base, addr) {
        return;
      }
      cmdLast := if cmd >= 0 then Some(cmd) else cmdLast;
      queue.Put(Event(cmd, addr, ext));
      lastEmitMs := now;
      lastEmitCmd := Some(base);
      lastEmitAddr := addr;
    }

    /** `_finish_ok` at time `now`. */
    method FinishOk(now: int, cmd: int, addr: int, ext: int, isRepeat: bool)
      requires Valid()
      modifies this, queue, queue.q
      ensures Valid() && Memory() == Finish(cfg, old(Memory()), now, cmd, addr, ext, isRepeat).0
      ensures queue.Contents() == Enqueued(old(queue.Contents()), Finish(cfg, old(Memory()), now, cmd, addr, ext, isRepeat).1, queue.q.Length - 1)
    {
      var pass := GatePhase(now, isRepeat);
      if pass {
        ThrottlePhase(now, cmd, addr, ext);
      }
    }

    /** `_decode_hw_sched` once a capture has ended. */
    method OnCapture(now: int, cap: Capture)
      requires Valid()
      modifies this, queue, queue.q
      ensures Valid()
      ensures (Memory(), queue.Contents())
              == (AfterCapture(cfg, old(Memory()), now, cap).0,
                  Enqueued(old(queue.Contents()), AfterCapture(cfg, old(Memory()), now, cap).1, queue.q.Length - 1))
    {
      if cap.Got? {
        addrLast := cap.f.addr;
        if cap.f.cmd >= 0 {
          cmdLast := Some(cap.f.cmd);
        }
        FinishOk(now, cap.f.cmd, cap.f.addr, cap.f.ext, cap.f.isRepeat);
      }
    }

    /** `_decode_hw_sched` for the NEC family, with the pulse widths the
        pin measured. */
    method DecodeNec(now: int, mark1: int, space1: int, repMark: int, marks: seq<int>, spaces: seq<int>)
      requires Valid() && cfg.proto in {NEC_8, NEC_16, SAMSUNG}
      requires |marks| == 32 && |spaces| == 32
      modifies this, queue, queue.q
      ensures Valid()
      ensures var cap := NecCapture(mark1, space1, repMark, marks, spaces, old(cmdLast), old(addrLast), cfg.proto, cfg.tolPct);
        (Memory(), queue.Contents())
        == (AfterCapture(cfg, old(Memory()), now, cap).0,
            Enqueued(old(queue.Contents()), AfterCapture(cfg, old(Memory()), now, cap).1, queue.q.Length - 1))
    {
      var cap := CapNecLike(mark1, space1, repMark, marks, spaces, cmdLast, addrLast, cfg.proto, cfg.tolPct);
      OnCapture(now, cap);
    }

    /** `_decode_hw_sched` for SIRC. */
    method DecodeSirc(now: int, m: int, s: int, dms: seq<int>, dss: seq<int>)
      requires Valid() && cfg.proto in {SIRC12, SIRC15, SIRC20}
      requires |dms| == SircWidth(cfg.proto) && |dss| == SircWidth(cfg.proto)
      modifies this, queue, queue.q
      ensures Valid()
      ensures var cap := SircCapture(m, s, dms, dss, cfg.proto, cfg.tolPct);
        (Memory(), queue.Contents())
        == (AfterCapture(cfg, old(Memory()), now, cap).0,
            Enqueued(old(queue.Contents()), AfterCapture(cfg, old(Memory()), now, cap).1, queue.q.Length - 1))
    {
      var cap := CapSirc(m, s, dms, dss, cfg.proto, cfg.tolPct);
      OnCapture(now, cap);
    }

    /** `get` without blocking. */
    method Get() returns (r: Option<Event>)
      requires Valid()
      modifies queue
      ensures Valid() && Memory() == old(Memory())
      ensures old(queue.Contents()) == [] ==> r.None? && queue.Contents() == []
      ensures old(queue.Contents()) != [] ==> r == Some(old(queue.Contents())[0]) && queue.Contents() == old(queue.Contents())[1..]
    {
      r := queue.GetNowait();
    }
  }
}
