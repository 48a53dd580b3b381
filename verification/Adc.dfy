/** The ESP32-S3 ADC curve over the reals, and its inversion by binary search. */
module Adc {
  import opened Prelude

  const ADC_MAX_COUNT := 4095
  const ADC_EFUSE_CAL_VOLTAGE_MV := 850.0
  const ADC_EFUSE_CAL_RAW_COUNT := 929.0

  // The coefficients of Espressif's curve-fit error polynomial.
  const C0 := 0.644403418269478
  const C1 := 0.0644334888647536
  const C2 := 0.0001297891447611
  const C3 := 0.000000070769718
  const C4 := 0.000000000013515

  type Count = c: int | 0 <= c <= ADC_MAX_COUNT

  /** A voltage in millivolts as a float may hold it: a number, or an infinity or not-a-number. */
  datatype Millivolts = Finite(mv: real) | NotFinite

  function Square(x: real): real { x * x }

  function Cube(x: real): real { x * x * x }

  function Fourth(x: real): real { x * x * x * x }

  /** The polynomial with the given coefficients, lowest degree first, in nested form. */
  function Polynomial(coefficients: seq<real>, x: real): real {
    if coefficients == [] then 0.0 else coefficients[0] + x * Polynomial(coefficients[1..], x)
  }

  const ERROR_COEFFICIENTS: seq<real> := [-C0, -C1, C2, -C3, C4]

  function ErrorMv(x: real): real { Polynomial(ERROR_COEFFICIENTS, x) }

  function FirstStepMv(count: Count): real {
    count as real * ADC_EFUSE_CAL_VOLTAGE_MV / ADC_EFUSE_CAL_RAW_COUNT
  }

  /** The pin voltage a raw count stands for. */
  function CalibratedMv(count: Count): real {
    if count == 0 then 0.0 else FirstStepMv(count) - ErrorMv(FirstStepMv(count))
  }

  /** The curve's coefficients, and what it makes of the counts that stand for 850, 1700 and 3400 mV. */
  lemma CurveValues()
    ensures ERROR_COEFFICIENTS == [-0.6444034182694780, -0.0644334888647536, 0.0001297891447611,
                                   -0.000000070769718, 0.000000000013515]
    ensures CalibratedMv(0) == 0.0 && CalibratedMv(929) == 848.0467504614152880
    ensures CalibratedMv(1858) == 1669.9036991627715980 && CalibratedMv(3716) == 3094.8306443921157180
  {
    var c := ERROR_COEFFICIENTS;
    Quartic(c[0], c[1], c[2], c[3], c[4], 850.0);
    Quartic(c[0], c[1], c[2], c[3], c[4], 1700.0);
    Quartic(c[0], c[1], c[2], c[3], c[4], 3400.0);
  }

  // ----- the curve is strictly increasing

  /** The linear and quadratic part of the curve, which carries its slope. */
  function Base(x: real): real { C0 + (1.0 + C1) * x - C2 * Square(x) }

  /** The cubic and quartic part, which only adds to it below 3750 mV. */
  function Rest(x: real): real { C3 * Cube(x) - C4 * Fourth(x) }

  lemma SquareDifference(x: real, y: real)
    ensures Square(y) - Square(x) == (y - x) * (x + y)
  {}

  lemma CubeDifference(x: real, y: real)
    ensures Cube(y) - Cube(x) == (y - x) * (x * x + x * y + y * y)
  {}

  lemma FourthDifference(x: real, y: real)
    ensures Fourth(y) - Fourth(x) == (y - x) * ((x * x + y * y) * (x + y))
  {}

  lemma ProductPositive(a: real, b: real)
    requires a > 0.0 && b > 0.0
    ensures a * b > 0.0
  {}

  lemma ProductNonNegative(a: real, b: real)
    requires a >= 0.0 && b >= 0.0
    ensures a * b >= 0.0
  {}

  lemma BaseIncreasing(x: real, y: real)
    requires 0.0 <= x < y <= 3750.0
    ensures Base(x) < Base(y)
  {
    SquareDifference(x, y);
    var slope := 1.0 + C1 - C2 * (x + y);
    assert slope > 0.0;
    ProductPositive(y - x, slope);
    assert (y - x) * slope == (1.0 + C1) * (y - x) - C2 * ((y - x) * (x + y));
  }

  /** Three times the fourth-power quotient is at most four times the cubic one times the larger argument. */
  lemma QuarticBound(x: real, y: real)
    requires 0.0 <= x <= y
    ensures 3.0 * ((x * x + y * y) * (x + y)) <= 4.0 * ((x * x + x * y + y * y) * y)
  {
    var d := y - x;
    var xx, xy, dd := x * x, x * d, d * d;
    ProductNonNegative(x, x);
    ProductNonNegative(x, d);
    ProductNonNegative(d, d);
    ProductNonNegative(x, xx);
    ProductNonNegative(x, xy);
    ProductNonNegative(x, dd);
    ProductNonNegative(d, xx);
    ProductNonNegative(d, dd);
    QuarticGap(x, d);
  }

  /** The gap, written out in x and d = y - x: every coefficient is non-negative. */
  lemma QuarticGap(x: real, d: real)
    ensures
      var y := x + d;
      4.0 * ((x * x + x * y + y * y) * y) - 3.0 * ((x * x + y * y) * (x + y))
      == 6.0 * (x * x * d) + 4.0 * (x * d * d) + d * d * d
  {}

  /** With y at most 3750, the quartic part takes back no more than the cubic part gives. */
  lemma SlopeOfRest(x: real, y: real)
    requires 0.0 <= x <= y <= 3750.0
    ensures C3 * (x * x + x * y + y * y) - C4 * ((x * x + y * y) * (x + y)) >= 0.0
  {
    var cubic, quartic := x * x + x * y + y * y, (x * x + y * y) * (x + y);
    ProductNonNegative(x, x);
    ProductNonNegative(x, y);
    ProductNonNegative(y, y);
    QuarticBound(x, y);
    ProductNonNegative(cubic, 3750.0 - y);
    assert cubic * (3750.0 - y) == 3750.0 * cubic - cubic * y;
    assert quartic <= 5000.0 * cubic;
  }

  lemma RestIncreasing(x: real, y: real)
    requires 0.0 <= x <= y <= 3750.0
    ensures Rest(x) <= Rest(y)
  {
    hide Cube, Fourth;
    var cubic, quartic := x * x + x * y + y * y, (x * x + y * y) * (x + y);
    SlopeOfRest(x, y);
    CubeDifference(x, y);
    FourthDifference(x, y);
    Factored(y - x, cubic, quartic);
    ProductNonNegative(y - x, C3 * cubic - C4 * quartic);
  }

  lemma Factored(d: real, cubic: real, quartic: real)
    ensures d * (C3 * cubic - C4 * quartic) == C3 * (d * cubic) - C4 * (d * quartic)
  {}

  lemma FirstTerm(c: real, rest: seq<real>, x: real)
    ensures Polynomial([c] + rest, x) == c + x * Polynomial(rest, x)
  {
    assert ([c] + rest)[1..] == rest;
  }

  /** The nested form of a quartic is the sum of its powers. */
  lemma Quartic(a: real, b: real, c: real, d: real, e: real, x: real)
    ensures Polynomial([a, b, c, d, e], x) == a + b * x + c * (x * x) + d * (x * x * x) + e * (x * x * x * x)
  {
    ThreeTerms(c, d, e, x);
    FirstTerm(b, [c, d, e], x);
    FirstTerm(a, [b] + [c, d, e], x);
    assert [a, b, c, d, e] == [a] + ([b] + [c, d, e]);
  }

  lemma ThreeTerms(a: real, b: real, c: real, x: real)
    ensures Polynomial([a, b, c], x) == a + x * (b + x * c)
  {
    assert [a, b, c] == [a] + ([b] + [c]) && [c] == [c] + [];
    FirstTerm(a, [b] + [c], x);
    FirstTerm(b, [c], x);
    FirstTerm(c, [], x);
  }

  /** The nested form is the sum of powers. */
  lemma Expand(x: real)
    ensures x * (-C1 + x * (C2 + x * (-C3 + x * C4))) == -C1 * x + C2 * Square(x) - C3 * Cube(x) + C4 * Fourth(x)
  {}

  lemma FirstStepRange(a: Count, b: Count)
    requires a < b
    ensures 0.0 <= FirstStepMv(a) < FirstStepMv(b) <= 3750.0
  {}

  lemma BaseAtZero()
    ensures Base(0.0) == C0 && Rest(0.0) == 0.0
  {}

  /** MAIN: over the reals the calibrated curve is strictly increasing on the counts 0 to 4095. */
  lemma CurveIncreasing(a: Count, b: Count)
    requires a < b
    ensures CalibratedMv(a) < CalibratedMv(b)
  {
    var x, y := FirstStepMv(a), FirstStepMv(b);
    forall t | t == x || t == y ensures t - ErrorMv(t) == Base(t) + Rest(t) {
      hide Polynomial;
      var c2 := [C2, -C3, C4];
      ThreeTerms(C2, -C3, C4, t);
      FirstTerm(-C1, c2, t);
      FirstTerm(-C0, [-C1] + c2, t);
      assert ERROR_COEFFICIENTS == [-C0] + ([-C1] + c2);
      Expand(t);
    }
    hide ErrorMv, Base, Rest;
    FirstStepRange(a, b);
    BaseIncreasing(x, y);
    RestIncreasing(x, y);
    BaseAtZero();
  }

  // ----- inversion

  function Distance(count: Count, mv: real): real {
    var d := CalibratedMv(count) - mv;
    if d < 0.0 then -d else d
  }

  /** No count's calibrated voltage is nearer to `mv`. */
  ghost predicate Nearest(count: Count, mv: real) {
    forall c: Count :: Distance(count, mv) <= Distance(c, mv)
  }

  /** With `mv` between the voltages of two neighbouring counts, the nearer of the two is nearest of all. */
  lemma NearerNeighbour(low: Count, mv: real)
    requires low < ADC_MAX_COUNT && CalibratedMv(low) <= mv <= CalibratedMv(low + 1)
    ensures Distance(low, mv) <= Distance(low + 1, mv) ==> Nearest(low, mv)
    ensures Distance(low + 1, mv) <= Distance(low, mv) ==> Nearest(low + 1, mv)
  {
    hide CalibratedMv;
    forall c: Count ensures Distance(c, mv) >= Distance(low, mv) || Distance(c, mv) >= Distance(low + 1, mv) {
      if c < low {
        CurveIncreasing(c, low);
      } else if c > low + 1 {
        CurveIncreasing(low + 1, c);
      }
    }
  }

  /**
   MAIN: the binary search returns the count whose calibrated voltage is nearest to the pin voltage, the lower
   one of two that are equally near; what is not a number gives zero, and so does an infinite voltage.
   */
  method RawCountForPinMv(pin: Millivolts) returns (count: Count)
    ensures pin.NotFinite? ==> count == 0
    ensures pin.Finite? ==> Nearest(count, pin.mv)
    ensures pin.Finite? ==> forall c: Count :: c < count ==> Distance(c, pin.mv) > Distance(count, pin.mv)
  {
    hide CalibratedMv;
    if pin.NotFinite? || pin.mv <= 0.0 {
      if pin.Finite? {
        ZeroIsNearest(pin.mv);
      }
      return 0;
    }
    var mv := pin.mv;
    ZeroCount();
    if mv >= CalibratedMv(ADC_MAX_COUNT) {
      forall c: Count | c < ADC_MAX_COUNT ensures Distance(c, mv) > Distance(ADC_MAX_COUNT, mv) {
        CurveIncreasing(c, ADC_MAX_COUNT);
      }
      return ADC_MAX_COUNT;
    }
    var low: Count, high: Count := 0, ADC_MAX_COUNT;
    while low + 1 < high
      invariant low < high
      invariant CalibratedMv(low) < mv <= CalibratedMv(high)
      decreases high - low
    {
      var middle := low + (high - low) / 2;
      if CalibratedMv(middle) < mv {
        low := middle;
      } else {
        high := middle;
      }
    }
    NearerNeighbour(low, mv);
    forall c: Count | c < low ensures Distance(c, mv) > Distance(low, mv) {
      CurveIncreasing(c, low);
    }
    if Distance(low, mv) <= Distance(high, mv) {
      return low;
    } else {
      return high;
    }
  }

  lemma ZeroCount()
    ensures CalibratedMv(0) == 0.0
  {}

  /** Nothing lies below count 0. */
  lemma ZeroIsNearest(mv: real)
    requires mv <= 0.0
    ensures Nearest(0, mv)
  {
    hide CalibratedMv;
    ZeroCount();
    forall c: Count ensures Distance(0, mv) <= Distance(c, mv) {
      if c > 0 {
        CurveIncreasing(0, c);
      }
    }
  }

  /** The nearest count to a voltage on the curve is the count it belongs to. */
  lemma NearestOfCalibrated(count: Count, c: Count)
    requires Nearest(count, CalibratedMv(c))
    ensures count == c
  {
    hide CalibratedMv;
    assert Distance(count, CalibratedMv(c)) <= Distance(c, CalibratedMv(c));
    if count < c {
      CurveIncreasing(count, c);
    } else if c < count {
      CurveIncreasing(c, count);
    }
  }

  /** MAIN: searching for the calibrated voltage of a count returns that count, for every count. */
  method RoundTrip(c: Count) returns (count: Count)
    ensures count == c
  {
    hide CalibratedMv;
    ZeroCount();
    if c > 0 {
      CurveIncreasing(0, c);
    }
    count := RawCountForPinMv(Finite(CalibratedMv(c)));
    NearestOfCalibrated(count, c);
  }
}
