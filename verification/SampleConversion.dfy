/** Converter codes and samples: unsigned offset-binary on the wire, fractions of full scale inside. */
module SampleConversions {
  import opened RealArithmetic

  /** Half the number of codes of a converter, and the code of silence. */
  function HalfScale(bits: nat): (m: int)
    requires bits > 0
    ensures m > 0
  {
    if bits == 1 then 1 else 2 * HalfScale(bits - 1)
  }

  /** It is a one shifted left by one bit less than the converter has. */
  lemma HalfScaleIsShift(bits: nat)
    requires 0 < bits <= 16
    ensures HalfScale(bits) == ((1 as bv32) << (bits - 1)) as int
  {
    assert HalfScale(1) == 1 && HalfScale(2) == 2 && HalfScale(3) == 4 && HalfScale(4) == 8;
    assert HalfScale(5) == 16 && HalfScale(6) == 32 && HalfScale(7) == 64 && HalfScale(8) == 128;
    assert HalfScale(9) == 256 && HalfScale(10) == 512 && HalfScale(11) == 1024 && HalfScale(12) == 2048;
    assert HalfScale(13) == 4096 && HalfScale(14) == 8192 && HalfScale(15) == 16384 && HalfScale(16) == 32768;
  }

  /** ADC code to sample value. */
  function AdcToFloat(sample: int, midpoint: int): real
    requires midpoint > 0
  {
    (sample - midpoint) as real / midpoint as real
  }

  lemma AdcScaled(code: int, midpoint: int)
    requires midpoint > 0
    ensures AdcToFloat(code, midpoint) * midpoint as real == code as real - midpoint as real
  {
    var m := midpoint as real;
    assert (code - midpoint) as real / m * m == (code - midpoint) as real;
  }

  /** The midpoint is silence, code zero is negative full scale, and every code of the converter stays below
      positive full scale. */
  lemma AdcInRange(code: int, midpoint: int)
    requires midpoint > 0 && 0 <= code < 2 * midpoint
    ensures AdcToFloat(midpoint, midpoint) == 0.0 && AdcToFloat(0, midpoint) == -1.0
    ensures -1.0 <= AdcToFloat(code, midpoint) < 1.0
  {
    AdcScaled(code, midpoint);
    QuotientInRange(AdcToFloat(code, midpoint), (code - midpoint) as real, midpoint as real);
    AdcScaled(midpoint, midpoint);
    AdcScaled(0, midpoint);
    QuotientIs(AdcToFloat(midpoint, midpoint), 0.0, midpoint as real);
    QuotientIs(AdcToFloat(0, midpoint), -1.0, midpoint as real);
  }

  lemma QuotientIs(q: real, r: real, m: real)
    requires m > 0.0 && q * m == r * m
    ensures q == r
  {
    if q < r {
      ProductStrict(q, r, m);
    } else if r < q {
      ProductStrict(r, q, m);
    }
  }

  lemma QuotientInRange(q: real, a: real, m: real)
    requires m > 0.0 && q * m == a && -m <= a < m
    ensures -1.0 <= q < 1.0
  {
    if q >= 1.0 {
      ProductMonotone(1.0, q, m);
    }
    if q < -1.0 {
      ProductStrict(q, -1.0, m);
    }
  }

  /** Steps between codes are one part in the midpoint, upwards. */
  lemma AdcSteps(code: int, midpoint: int)
    requires midpoint > 0
    ensures (AdcToFloat(code + 1, midpoint) - AdcToFloat(code, midpoint)) * midpoint as real == 1.0
  {
    var m, a, b := midpoint as real, AdcToFloat(code + 1, midpoint), AdcToFloat(code, midpoint);
    assert a * m == code as real + 1.0 - m && b * m == code as real - m;
    assert (a - b) * m == a * m - b * m;
  }

  /** The last code not above a scaled value; past either end of the range, the code of that end. */
  function Quantized(scaled: real, maxCode: int): (code: int)
    requires maxCode >= 0
    ensures 0 <= code <= maxCode
    ensures scaled < 0.0 ==> code == 0
    ensures scaled >= maxCode as real ==> code == maxCode
    ensures 0.0 <= scaled < maxCode as real ==> code as real <= scaled < code as real + 1.0
  {
    var clamped := if scaled < 0.0 then 0.0 else if scaled > maxCode as real then maxCode as real else scaled;
    clamped.Floor
  }

  /** Sample value to DAC code, clamped to the converter's range. */
  function FloatToDac(x: real, midpoint: int, maxCode: int): (code: int)
    requires maxCode >= 0
    ensures 0 <= code <= maxCode
  {
    Quantized(x * midpoint as real + midpoint as real, maxCode)
  }

  /** Order of samples is order of scaled values. */
  lemma ScaledOrder(x: real, y: real, m: real, a: real)
    requires m > 0.0 && y * m == a - m
    ensures x < y <==> x * m + m < a
  {
    if x < y {
      ProductStrict(x, y, m);
    } else {
      ProductMonotone(y, x, m);
    }
  }

  /** Within the range the code is the last one whose sample is not above the value; an overload takes the code of the
      end it leaves the range by. */
  lemma DacIsNearestBelow(x: real, midpoint: int)
    requires midpoint > 0
    ensures var code := FloatToDac(x, midpoint, 2 * midpoint - 1);
      && (x < -1.0 ==> code == 0)
      && (x >= 1.0 ==> code == 2 * midpoint - 1)
      && (x >= -1.0 ==> AdcToFloat(code, midpoint) <= x)
      && (x < 1.0 ==> x < AdcToFloat(code + 1, midpoint))
  {
    var m, code := midpoint as real, FloatToDac(x, midpoint, 2 * midpoint - 1);
    var a, b := AdcToFloat(code, midpoint), AdcToFloat(code + 1, midpoint);
    AdcScaled(code, midpoint);
    AdcScaled(code + 1, midpoint);
    ScaledOrder(x, a, m, code as real);
    ScaledOrder(x, b, m, (code + 1) as real);
    ScaledOrder(x, -1.0, m, 0.0);
    ScaledOrder(x, 1.0, m, 2.0 * m);
  }

  /** Every ADC code survives the trip to a sample and back. */
  lemma DacInvertsAdc(code: int, midpoint: int)
    requires midpoint > 0 && 0 <= code < 2 * midpoint
    ensures FloatToDac(AdcToFloat(code, midpoint), midpoint, 2 * midpoint - 1) == code
  {
    AdcScaled(code, midpoint);
  }
}
