/** The gas-heater timing of the BME68x driver
    (device/ticle/src/ext/environmental/bme68x/bme68x.py): the one-byte
    gas-wait register holds a 6-bit mantissa and a 2-bit factor that
    scales it by 1, 4, 16 or 64 milliseconds; the driver picks a heater
    duration from the update period, and its `gas_baseline` setter clamps
    the gas baseline to a fixed band. */
module Bme68x {
  import opened Bytes

  /** The period the default heater duration is tuned for, in ms. */
  const NORM_BASE_PERIOD_MS: int := 3000

  /** The longest duration the register can hold: 63 * 64 ms. */
  const GAS_WAIT_MAX_MS: int := 0xFC0

  /** `1 << (2 * factor)`. */
  function Scale(factor: nat): (r: nat)
    ensures r >= 1
  {
    Pow2(2 * factor)
  }

  lemma ScaleStep(factor: nat)
    ensures Scale(factor + 1) == 4 * Scale(factor)
  {
    assert Pow2(2 * factor + 2) == 2 * Pow2(2 * factor + 1);
  }

  lemma ScaleValues()
    ensures Scale(0) == 1 && Scale(1) == 4 && Scale(2) == 16 && Scale(3) == 64
  {
    ScaleStep(0);
    ScaleStep(1);
    ScaleStep(2);
  }

  /** `_decode_gas_wait_ms`: the mantissa times four to the factor. */
  function GasWaitMs(reg: byte): nat
  {
    (reg % 64) * Scale((reg / 64) % 4)
  }

  /** The loop of `_encode_gas_wait`: divide by four, rounding down, while
      the value does not fit six bits and the factor can still grow. */
  function Shrink(dur: int, factor: nat): (int, nat)
    decreases if dur > 0 then dur else 0
  {
    if dur > 0x3F && factor < 3 then Shrink(dur / 4, factor + 1) else (dur, factor)
  }

  /** `_encode_gas_wait`: the register byte for a duration in ms. The
      mantissa is taken as `dur & 0x3F`, which for a negative duration is
      its remainder modulo 64. */
  function GasWaitCode(ms: int): byte
  {
    if ms >= GAS_WAIT_MAX_MS then 0xFF
    else
      var (dur, factor) := Shrink(ms, 0);
      assert factor <= 3 by {
        ShrinkFactor(ms, 0);
      }
      dur % 64 + 64 * factor
  }

  lemma {:induction false} ShrinkFactor(dur: int, factor: nat)
    requires factor <= 3
    ensures Shrink(dur, factor).1 <= 3
    decreases if dur > 0 then dur else 0
  {
    if dur > 0x3F && factor < 3 {
      ShrinkFactor(dur / 4, factor + 1);
    }
  }

  /** The encoding loop, as the driver runs it. */
  method EncodeGasWait(ms: int) returns (r: byte)
    ensures r == GasWaitCode(ms)
  {
    var dur := ms;
    if dur >= GAS_WAIT_MAX_MS {
      return 0xFF;
    }
    var factor: nat := 0;
    while dur > 0x3F && factor < 3
      invariant factor <= 3 && Shrink(dur, factor) == Shrink(ms, 0)
      decreases dur
    {
      dur := dur / 4;
      factor := factor + 1;
    }
    r := dur % 64 + 64 * factor;
  }

  // ---------------------------------------------------------------------
  // What the encoding means

  /** Dividing by four keeps `ms` between the scaled value and the next
      step up. */
  lemma QuarterStep(dur: nat, p: nat, ms: int)
    requires dur * p <= ms < (dur + 1) * p
    ensures (dur / 4) * (4 * p) <= ms < (dur / 4 + 1) * (4 * p)
  {
    var q := dur / 4;
    assert dur == 4 * q + dur % 4;
    MulLe(4 * q, dur, p);
    MulLe(dur + 1, 4 * q + 4, p);
    assert (4 * q) * p == q * (4 * p);
    assert (4 * q + 4) * p == (q + 1) * (4 * p);
  }

  /** Every step of the loop keeps the duration between the encoded value
      and the value one mantissa step up, and a factor is used only when
      the duration needs it. */
  lemma {:induction false} ShrinkApprox(dur: int, factor: nat, ms: int)
    requires 0 <= dur && factor <= 3
    requires dur * Scale(factor) <= ms < (dur + 1) * Scale(factor)
    requires factor > 0 ==> ms >= 64 * Scale(factor - 1)
    ensures var (d, f) := Shrink(dur, factor);
      0 <= d && f <= 3 && d * Scale(f) <= ms < (d + 1) * Scale(f)
      && (f > 0 ==> ms >= 64 * Scale(f - 1)) && (f < 3 ==> d <= 63)
    decreases dur
  {
    if dur > 0x3F && factor < 3 {
      ScaleStep(factor);
      QuarterStep(dur, Scale(factor), ms);
      MulLe(64, dur, Scale(factor));
      ShrinkApprox(dur / 4, factor + 1, ms);
    }
  }

  /** For a duration the register can hold, the code stands for the
      duration rounded down to a multiple of its scale: at most the
      duration, and less than one scale step below it; the coarser scales
      are used only for durations that need them. Longer durations give
      0xFF, the longest the register holds. */
  lemma GasWaitCodeMeaning(ms: int)
    requires 0 <= ms
    ensures ms < GAS_WAIT_MAX_MS ==>
      var r := GasWaitCode(ms);
      GasWaitMs(r) <= ms < GasWaitMs(r) + Scale(r / 64)
      && (r / 64 > 0 ==> ms >= 64 * Scale(r / 64 - 1))
    ensures ms >= GAS_WAIT_MAX_MS ==> GasWaitCode(ms) == 0xFF && GasWaitMs(0xFF) == GAS_WAIT_MAX_MS
  {
    ScaleValues();
    if ms < GAS_WAIT_MAX_MS {
      ShrinkApprox(ms, 0, ms);
      var (d, f) := Shrink(ms, 0);
      if f == 3 {
        MulLt(d, 64, 64);
      }
      var r := GasWaitCode(ms);
      assert r % 64 == d && r / 64 == f;
    }
  }

  /** Durations up to 63 ms are stored exactly. */
  lemma GasWaitSmallExact(ms: int)
    requires 0 <= ms <= 63
    ensures GasWaitCode(ms) == ms && GasWaitMs(GasWaitCode(ms)) == ms
  {
  }

  /** The decoded value never exceeds the duration asked for below the
      register's limit. */
  lemma GasWaitNotLonger(ms: int)
    requires 0 <= ms < GAS_WAIT_MAX_MS
    ensures GasWaitMs(GasWaitCode(ms)) <= ms
  {
    GasWaitCodeMeaning(ms);
  }

  /** A code whose mantissa is at least 16 whenever its factor is nonzero
      is the one `_encode_gas_wait` picks for the duration it stands for. */
  lemma GasWaitRoundTrip(reg: byte)
    requires reg / 64 == 0 || reg % 64 >= 16
    ensures GasWaitCode(GasWaitMs(reg)) == reg
  {
    var mant := reg % 64;
    var f := reg / 64;
    ScaleValues();
    assert GasWaitMs(reg) < GAS_WAIT_MAX_MS || reg == 0xFF by {
      MulLe(mant, 63, Scale(f));
      MulLe(Scale(f), 64, 63);
    }
    if GasWaitMs(reg) < GAS_WAIT_MAX_MS {
      ShrinkExact(mant, f, f);
    }
  }

  lemma {:induction false} ShrinkExact(mant: nat, factor: nat, k: nat)
    requires mant <= 63 && k <= factor <= 3
    requires k > 0 ==> mant >= 16
    ensures Shrink(mant * Scale(k), factor - k) == (mant, factor)
    decreases k
  {
    if k > 0 {
      ScaleStep(k - 1);
      var p := Scale(k - 1);
      assert mant * Scale(k) == 4 * (mant * p);
      MulLe(1, p, mant);
      assert mant * Scale(k) / 4 == mant * p;
      ShrinkExact(mant, factor, k - 1);
    }
  }

  // ---------------------------------------------------------------------
  // Heater duration from the update period

  /** `int(a / b)` for a positive `b`: the quotient rounded toward zero. */
  function TruncDiv(a: int, b: int): int
    requires b > 0
  {
    if a >= 0 then a / b else -((-a) / b)
  }

  /** `_predict_gas_wait_for_period`: 120 ms at the normal 3 s period,
      scaled with the period and kept between 20 and 120 ms. */
  function PredictGasWait(periodMs: int): (r: int)
    ensures 20 <= r <= 120
  {
    var dur := TruncDiv(120 * periodMs, NORM_BASE_PERIOD_MS);
    if dur < 20 then 20 else if dur > 120 then 120 else dur
  }

  /** Inside the band the duration is the period scaled by 120 / 3000,
      rounded down; a longer period never gives a shorter duration. */
  lemma PredictGasWaitMeaning(p: int, p': int)
    ensures 500 <= p <= 3000 ==> PredictGasWait(p) == p / 25
    ensures p <= 500 ==> PredictGasWait(p) == 20
    ensures p >= 3000 ==> PredictGasWait(p) == 120
    ensures p <= p' ==> PredictGasWait(p) <= PredictGasWait(p')
  {
    DivModUnique(120 * p, 3000, p / 25, 120 * (p % 25));
    if 0 <= p <= p' {
      DivModUnique(120 * p', 3000, p' / 25, 120 * (p' % 25));
    }
  }

  // ---------------------------------------------------------------------
  // The gas baseline

  const BASELINE_MIN: int := 80_000
  const BASELINE_MAX: int := 320_000

  /** The driver's gas-baseline settings, as the constructor and the two
      setters leave them. */
  class GasSettings {
    var gasBaseline: int
    var gasBaselineAutoUpdateMs: int

    ghost predicate Valid()
      reads this
    {
      BASELINE_MIN <= gasBaseline <= BASELINE_MAX && gasBaselineAutoUpdateMs >= 60_000
    }

    /** The constructor's defaults: 90 kOhm and five minutes. */
    constructor ()
      ensures Valid() && gasBaseline == 90_000 && gasBaselineAutoUpdateMs == 300_000
    {
      gasBaseline := 90_000;
      gasBaselineAutoUpdateMs := 300_000;
    }

    /** The `gas_baseline` setter: the value, or the nearer end of the
        80 to 320 kOhm band when it lies outside it. */
    method SetGasBaseline(value: int)
      requires Valid()
      modifies this
      ensures Valid()
      ensures BASELINE_MIN <= gasBaseline <= BASELINE_MAX
      ensures BASELINE_MIN <= value <= BASELINE_MAX ==> gasBaseline == value
      ensures value < BASELINE_MIN ==> gasBaseline == BASELINE_MIN
      ensures value > BASELINE_MAX ==> gasBaseline == BASELINE_MAX
      ensures gasBaselineAutoUpdateMs == old(gasBaselineAutoUpdateMs)
    {
      gasBaseline := Max(BASELINE_MIN, Min(BASELINE_MAX, value));
    }

    /** The `gas_baseline_auto_update_ms` setter: at least one minute. */
    method SetGasBaselineAutoUpdateMs(updateMs: int)
      requires Valid()
      modifies this
      ensures Valid()
      ensures gasBaselineAutoUpdateMs == Max(60_000, updateMs) && gasBaseline == old(gasBaseline)
    {
      gasBaselineAutoUpdateMs := Max(60_000, updateMs);
    }
  }
}
