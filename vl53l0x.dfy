/** The time-of-flight ranger of device/ticle/src/ext/distance/vl53l0x/vl53l0x.py:
    the 16-bit timeout register format (an 8-bit mantissa and an 8-bit
    exponent), the conversions between macro clock periods and
    microseconds, the rules that decide whether a range reading is
    accepted, and the median filter settings. */
module Ranger {
  import opened Wrappers
  import opened Bytes

  // ---------------------------------------------------------------------
  // Timeout register

  /** `_decode_timeout`: `ls * 2^ms + 1` for the low byte `ls` and the
      high byte `ms`. */
  function DecodeTimeout(v: u16): nat
  {
    (v % 256) * Pow2((v / 256) % 256) + 1
  }

  /** The loop of `_encode_timeout`: halve, rounding down, until the
      mantissa fits a byte, counting the halvings. */
  function Halve(ls: nat, ms: nat): (nat, nat)
  {
    if ls > 255 then Halve(ls / 2, ms + 1) else (ls, ms)
  }

  /** `_encode_timeout`: 0 for a count that is not positive; otherwise the
      exponent in the high byte and the mantissa of `count - 1` in the low
      byte, cut to 16 bits. */
  function TimeoutCode(mclks: int): u16
  {
    if mclks <= 0 then 0
    else
      var (ls, ms) := Halve(mclks - 1, 0);
      (ms * 256 + ls % 256) % 0x1_0000
  }

  method EncodeTimeout(mclks: int) returns (r: u16)
    ensures r == TimeoutCode(mclks)
  {
    if mclks <= 0 {
      return 0;
    }
    var ls: nat := mclks - 1;
    var ms: nat := 0;
    while ls > 255
      invariant Halve(ls, ms) == Halve(mclks - 1, 0)
    {
      ls := ls / 2;
      ms := ms + 1;
    }
    r := (ms * 256 + ls % 256) % 0x1_0000;
  }

  lemma {:induction false} Pow2Mono(a: nat, b: nat)
    requires a <= b
    ensures Pow2(a) <= Pow2(b)
    decreases b
  {
    if a < b {
      Pow2Mono(a, b - 1);
    }
  }

  /** Halving keeps `x` between the scaled value and the next step up. */
  lemma HalfStep(ls: nat, p: nat, x: int)
    requires ls * p <= x < (ls + 1) * p
    ensures (ls / 2) * (2 * p) <= x < (ls / 2 + 1) * (2 * p)
  {
    var q := ls / 2;
    assert ls == 2 * q + ls % 2;
    MulLe(2 * q, ls, p);
    MulLe(ls + 1, 2 * q + 2, p);
    assert (2 * q) * p == q * (2 * p);
    assert (2 * q + 2) * p == (q + 1) * (2 * p);
  }

  lemma {:induction false} HalveApprox(ls: nat, ms: nat, x: int)
    requires ls * Pow2(ms) <= x < (ls + 1) * Pow2(ms)
    requires ms > 0 ==> ls >= 128
    ensures var (l, k) := Halve(ls, ms);
      l <= 255 && l * Pow2(k) <= x < (l + 1) * Pow2(k) && (k > 0 ==> l >= 128)
  {
    if ls > 255 {
      HalfStep(ls, Pow2(ms), x);
      HalveApprox(ls / 2, ms + 1, x);
    }
  }

  /** For every count up to 2^32 the register stands for the count rounded
      down to a multiple of `2^exponent`: never more than the count and
      less than one step below it; a nonzero exponent is used only when
      the count needs it; counts up to 256 are stored exactly. A count
      that is not positive gives 0. */
  lemma TimeoutCodeMeaning(mclks: int)
    requires mclks <= 0x1_0000_0000
    ensures mclks <= 0 ==> TimeoutCode(mclks) == 0
    ensures 1 <= mclks ==>
      var r := TimeoutCode(mclks);
      DecodeTimeout(r) <= mclks < DecodeTimeout(r) + Pow2(r / 256)
      && (r / 256 > 0 ==> mclks > 128 * Pow2(r / 256))
    ensures 1 <= mclks <= 256 ==> DecodeTimeout(TimeoutCode(mclks)) == mclks
  {
    if 1 <= mclks {
      var (l, k) := Halve(mclks - 1, 0);
      TimeoutCodeParts(mclks);
      CodeFields(l, k);
    }
  }

  /** The register value with exponent `k` and mantissa `l`. */
  lemma CodeFields(l: nat, k: nat)
    requires l <= 255 && k <= 255
    ensures var r := k * 256 + l;
      r / 256 == k && r % 256 == l && 0 <= r < 0x1_0000 && DecodeTimeout(r) == l * Pow2(k) + 1
  {
    CodeBytes(l, k);
  }

  lemma CodeBytes(l: nat, k: nat)
    requires l <= 255 && k <= 255
    ensures (k * 256 + l) / 256 == k && (k * 256 + l) % 256 == l && k % 256 == k
  {
    DivModUnique(k * 256 + l, 256, k, l);
  }

  /** The mantissa and exponent `_encode_timeout` computes, and where the
      count lies relative to them. */
  lemma TimeoutCodeParts(mclks: int)
    requires 1 <= mclks <= 0x1_0000_0000
    ensures var (l, k) := Halve(mclks - 1, 0);
      TimeoutCode(mclks) == k * 256 + l && l <= 255 && k <= 24
      && l * Pow2(k) <= mclks - 1 < l * Pow2(k) + Pow2(k)
      && (k > 0 ==> mclks > 128 * Pow2(k) && mclks > 256)
  {
    HalveApprox(mclks - 1, 0, mclks - 1);
    var (l, k) := Halve(mclks - 1, 0);
    assert (l + 1) * Pow2(k) == l * Pow2(k) + Pow2(k);
    if k > 0 {
      LargeExponent(l, k, mclks - 1);
    }
    CodeOfHalves(mclks, l, k);
  }

  /** A nonzero exponent means a mantissa of at least 128, so a count
      above 256 and an exponent of at most 24. */
  lemma LargeExponent(l: nat, k: nat, x: int)
    requires 0 < k && 128 <= l && l * Pow2(k) <= x < 0x1_0000_0000
    ensures x + 1 > 128 * Pow2(k) && x + 1 > 256 && k <= 24
  {
    MulLe(128, l, Pow2(k));
    ExponentSmall(k, x);
    Pow2Mono(1, k);
  }

  lemma Pow2Consts()
    ensures Pow2(7) == 128 && Pow2(32) == 0x1_0000_0000
  {
    assert Pow2(8) == 256;
    Pow2Add(8, 8);
    Pow2Add(16, 16);
  }

  /** A count below 2^32 needs an exponent of at most 24. */
  lemma ExponentSmall(k: nat, x: int)
    requires 128 * Pow2(k) <= x < 0x1_0000_0000
    ensures k <= 24
  {
    Pow2Consts();
    Pow2Add(7, k);
    if k > 24 {
      Pow2Mono(32, k + 7);
    }
  }

  lemma {:induction false} HalveExact(l: nat, k: nat, j: nat)
    requires l <= 255 && j <= k
    requires j > 0 ==> l >= 128
    ensures Halve(l * Pow2(j), k - j) == (l, k)
    decreases j
  {
    if j > 0 {
      var p := Pow2(j - 1);
      assert l * Pow2(j) == 2 * (l * p);
      MulLe(1, p, l);
      HalveExact(l, k, j - 1);
    }
  }

  /** A register value whose mantissa has its top bit set whenever its
      exponent is nonzero is the one `_encode_timeout` picks for the count
      it stands for. */
  lemma TimeoutRoundTrip(v: u16)
    requires v / 256 == 0 || v % 256 >= 128
    ensures TimeoutCode(DecodeTimeout(v)) == v
  {
    var l := v % 256;
    var k := v / 256;
    RegisterFields(v);
    HalveExact(l, k, k);
    CodeOfHalves(DecodeTimeout(v), l, k);
  }

  /** A register value splits into its two bytes. */
  lemma RegisterFields(v: u16)
    ensures v == (v / 256) * 256 + v % 256 && v / 256 <= 255
    ensures DecodeTimeout(v) == (v % 256) * Pow2(v / 256) + 1
  {
  }

  /** The code for a count whose halving ends at mantissa `l` and
      exponent `k`. */
  lemma CodeOfHalves(mclks: int, l: nat, k: nat)
    requires 1 <= mclks && l <= 255 && k <= 255 && Halve(mclks - 1, 0) == (l, k)
    ensures TimeoutCode(mclks) == k * 256 + l
  {
    CodeBytes(l, k);
    DivModUnique(k * 256 + l, 0x1_0000, 0, k * 256 + l);
  }

  // ---------------------------------------------------------------------
  // Macro clock periods

  /** `_macro_period_ns`: the macro period for a VCSEL period in PCLKs,
      rounded to the nearest ns. */
  function MacroPeriodNs(vcselPclks: byte): nat
  {
    (2304 * vcselPclks * 1655 + 500) / 1000
  }

  /** `_timeout_mclks_to_us` as written: half a macro period is added
      before dividing by 1000. */
  function MclksToUsAsWritten(mclks: nat, vcselPclks: byte): nat
  {
    var mp := MacroPeriodNs(vcselPclks);
    (mclks * mp + mp / 2) / 1000
  }

  /** The conversion rounded to the nearest microsecond. */
  function MclksToUs(mclks: nat, vcselPclks: byte): (r: nat)
    ensures 2 * Abs(1000 * r - mclks * MacroPeriodNs(vcselPclks)) <= 1000
  {
    (mclks * MacroPeriodNs(vcselPclks) + 500) / 1000
  }

  /** One macro clock at the common VCSEL period of 12 PCLKs lasts
      45757 ns, about 46 us; the conversion as written reports 68 us, off
      by a third of a macro period more than rounding allows. */
  lemma MclksToUsAsWrittenOverstates()
    ensures MacroPeriodNs(12) == 45757
    ensures MclksToUs(1, 12) == 46 && MclksToUsAsWritten(1, 12) == 68
    ensures 2 * Abs(1000 * MclksToUsAsWritten(1, 12) - MacroPeriodNs(12)) > 1000
  {
  }

  /** `_timeout_us_to_mclks`: the number of macro periods nearest to the
      duration; a VCSEL period of 0 makes the macro period 0 and the
      division fails. */
  function UsToMclks(us: nat, vcselPclks: byte): (r: Option<nat>)
    ensures r.None? <==> vcselPclks == 0
    ensures r.Some? ==> 2 * Abs(1000 * us - r.value * MacroPeriodNs(vcselPclks)) <= MacroPeriodNs(vcselPclks)
  {
    var mp := MacroPeriodNs(vcselPclks);
    if mp == 0 then None else Some((us * 1000 + mp / 2) / mp)
  }

  /** Going to macro periods and back lands within half a macro period
      (and the microsecond rounding) of where it started. */
  lemma UsRoundTrip(us: nat, vcselPclks: byte)
    requires vcselPclks > 0
    ensures var mp := MacroPeriodNs(vcselPclks);
      2000 * Abs(MclksToUs(UsToMclks(us, vcselPclks).value, vcselPclks) - us) <= mp + 1000
  {
  }

  // ---------------------------------------------------------------------
  // Reading acceptance and the median filter

  /** The ranger's acceptance and filter settings. */
  class Vl53l0x {
    var minValidMm: int
    var maxValidMm: Option<int>
    var consisPct: int
    var consisMm: int
    var lastGoodMm: int
    /** The window of the median filter, when there is one. */
    var medWindow: Option<nat>
    var medMinFill: int

    /** Out of the valid range: below a nonzero minimum or above the
        maximum. */
    predicate OutOfRange(mm: int)
      reads this
    {
      (minValidMm != 0 && mm < minValidMm) || (maxValidMm.Some? && mm > maxValidMm.value)
    }

    /** How far a soft-status reading may be from the last good one: the
        fixed distance or the percentage of the last reading, whichever is
        larger. */
    function Threshold(): int
      reads this
    {
      Max(consisMm, (lastGoodMm * consisPct) / 100)
    }

    /** `_accept`: 0xFFFF and out-of-range readings are refused; statuses
        0, 5 and 11 are good; statuses 1 and 2 are trusted only near a
        previous good reading; every other status is refused. */
    function Accept(mm: int, st: int): (ok: bool)
      reads this
      ensures ok ==> mm != 0xFFFF && !OutOfRange(mm)
      ensures mm != 0xFFFF && !OutOfRange(mm) && st in {0, 5, 11} ==> ok
      ensures st in {1, 2} ==>
        (ok <==> mm != 0xFFFF && !OutOfRange(mm) && lastGoodMm >= 0 && Abs(mm - lastGoodMm) <= Threshold())
      ensures st !in {0, 1, 2, 5, 11} ==> !ok
    {
      if mm == 0xFFFF then false
      else if minValidMm != 0 && mm < minValidMm then false
      else if maxValidMm.Some? && mm > maxValidMm.value then false
      else if st in {0, 5, 11} then true
      else if st in {1, 2} && lastGoodMm >= 0 then
        var thr := Max(consisMm, (lastGoodMm * consisPct) / 100);
        Abs(mm - lastGoodMm) <= thr
      else false
    }

    /** The filter settings `set_median(enable, window, minFill)` leaves:
        switched off, no filter and a minimum fill of 1; switched on, a
        window of 3 for a smaller or missing one, the window itself when
        odd and one more when even, and the minimum fill clamped to lie
        between 1 and that window, 0 counting as 1. */
    predicate MedianSet(enable: bool, window: int, minFill: int)
      reads this
    {
      if !enable then medWindow.None? && medMinFill == 1
      else
        medWindow.Some? &&
        (window < 3 ==> medWindow.value == 3) &&
        (window >= 3 && window % 2 == 1 ==> medWindow.value == window) &&
        (window >= 3 && window % 2 == 0 ==> medWindow.value == window + 1) &&
        (minFill <= 1 ==> medMinFill == 1) &&
        (1 <= minFill <= medWindow.value ==> medMinFill == minFill) &&
        (minFill >= medWindow.value ==> medMinFill == medWindow.value)
    }

    /** The settings the constructor stores, with no good reading yet. */
    constructor (minMm: int, maxMm: Option<int>, pct: int, consMm: int,
                 filterMedian: bool, window: int, minFill: int)
      ensures (minValidMm, maxValidMm, consisPct, consisMm, lastGoodMm) == (minMm, maxMm, pct, consMm, -1)
      ensures MedianSet(filterMedian, window, minFill)
      ensures filterMedian ==> medWindow.Some? && medWindow.value % 2 == 1 && medWindow.value >= 3
                               && 1 <= medMinFill <= medWindow.value
    {
      minValidMm := minMm;
      maxValidMm := maxMm;
      consisPct := pct;
      consisMm := consMm;
      lastGoodMm := -1;
      medWindow := None;
      medMinFill := 1;
      new;
      SetMedian(filterMedian, window, minFill);
    }

    /** `set_median`: the settings `MedianSet` describes; switched on, the
        window is odd and at least 3 and the minimum fill lies between 1
        and the window. The acceptance settings stay. */
    method SetMedian(enable: bool, window: int, minFill: int)
      modifies this
      ensures (minValidMm, maxValidMm, consisPct, consisMm, lastGoodMm)
              == old((minValidMm, maxValidMm, consisPct, consisMm, lastGoodMm))
      ensures MedianSet(enable, window, minFill)
      ensures enable ==> medWindow.Some? && medWindow.value % 2 == 1 && medWindow.value >= 3
                         && 1 <= medMinFill <= medWindow.value
    {
      medWindow := None;
      medMinFill := 1;
      if !enable {
        return;
      }
      var w := if window != 0 && window > 0 then window else 3;
      if w < 3 {
        w := 3;
      }
      if w % 2 == 0 {
        w := w + 1;
      }
      medMinFill := Max(1, Min(if minFill != 0 then minFill else 1, w));
      medWindow := Some(w);
    }
  }
}
