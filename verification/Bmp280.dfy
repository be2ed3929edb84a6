/**
 Fixed-point compensation of the BMP280 readings, in the C integer types of the driver, against
 the integer formulas of section 3.11.3 of the Bosch BMP280 datasheet (BST-BMP280-DS001).
 */
module Bmp280 {
  import opened Types

  /** A raw reading is 20 bits wide. */
  type Reading = x: int | 0 <= x < 0x10_0000

  // ---------------------------------------------------------------- machine integers

  /** Two's complement wrap-around to 32 bits. */
  function W32(x: int): int {
    (x + 0x8000_0000) % 0x1_0000_0000 - 0x8000_0000
  }

  /** Two's complement wrap-around to 64 bits. */
  function W64(x: int): int {
    (x + 0x8000_0000_0000_0000) % 0x1_0000_0000_0000_0000 - 0x8000_0000_0000_0000
  }

  lemma Fits32(x: int)
    requires -0x8000_0000 <= x < 0x8000_0000
    ensures W32(x) == x
  {
  }

  ghost predicate Int64(x: int) {
    -0x8000_0000_0000_0000 <= x < 0x8000_0000_0000_0000
  }

  lemma Fits64(x: int)
    requires Int64(x)
    ensures W64(x) == x
  {
  }

  /** C division, which truncates toward zero. */
  function TruncDiv(a: int, b: int): int
    requires b != 0
  {
    if a >= 0 then a / b else -((-a) / b)
  }

  ghost predicate Within(x: int, bound: int) {
    -bound <= x <= bound
  }

  lemma ProductGrows(p: nat, q: nat, boundA: nat, boundB: nat)
    requires p <= boundA && q <= boundB
    ensures 0 <= p * q <= boundA * boundB
  {
    assert (boundA - p) * q >= 0;
    assert boundA * (boundB - q) >= 0;
  }

  lemma ProductWithin(a: int, b: int, boundA: nat, boundB: nat)
    requires Within(a, boundA) && Within(b, boundB)
    ensures Within(a * b, boundA * boundB)
  {
    var p, q := if a < 0 then -a else a, if b < 0 then -b else b;
    ProductGrows(p, q, boundA, boundB);
    assert a * b == p * q || a * b == -(p * q);
  }

  // ---------------------------------------------------------------- temperature

  datatype TempCal = TempCal(t1: uint16, t2: int16, t3: int16)

  datatype Temperature = Temperature(celsius: int, fine: int)

  /** `BMP280_compensate_temperature` in 32-bit arithmetic. */
  function Temperature32(cal: TempCal, adc: Reading): Temperature {
    var x := W32(adc / 8 - W32(2 * cal.t1));
    var var1 := W32(x * cal.t2) / 2048;
    var d := W32(adc / 16 - cal.t1);
    var var2 := W32((W32(d * d) / 4096) * cal.t3) / 16384;
    var fine := W32(var1 + var2);
    Temperature(W32(W32(fine * 5) + 128) / 256, fine)
  }

  function Offset(cal: TempCal, adc: Reading): int {
    adc / 16 - cal.t1
  }

  function Linear(cal: TempCal, x: int): int {
    x * cal.t2 / 2048
  }

  function Quadratic(cal: TempCal, d: int): int {
    (d * d / 4096) * cal.t3 / 16384
  }

  function Celsius(fine: int): int {
    (fine * 5 + 128) / 256
  }

  /** The formula on unbounded integers. */
  function TemperatureExact(cal: TempCal, adc: Reading): Temperature {
    var fine := Linear(cal, adc / 8 - 2 * cal.t1) + Quadratic(cal, Offset(cal, adc));
    Temperature(Celsius(fine), fine)
  }

  ghost predicate Int32(x: int) {
    -0x8000_0000 <= x < 0x8000_0000
  }

  /** Every intermediate of the computation, with exact values, fits 32 bits. */
  ghost predicate NoOverflow(cal: TempCal, adc: Reading) {
    var x, d := adc / 8 - 2 * cal.t1, Offset(cal, adc);
    var fine := Linear(cal, x) + Quadratic(cal, d);
    && Int32(2 * cal.t1) && Int32(x) && Int32(x * cal.t2)
    && Int32(d) && Int32(d * d) && Int32((d * d / 4096) * cal.t3)
    && Int32(fine) && Int32(fine * 5) && Int32(fine * 5 + 128)
  }

  /** What decides it: two products, and an offset whose square fits. */
  ghost predicate Safe(cal: TempCal, adc: Reading) {
    var d := Offset(cal, adc);
    && Int32((adc / 8 - 2 * cal.t1) * cal.t2)
    && Within(d, 46340)
    && Int32((d * d / 4096) * cal.t3)
  }

  lemma SquareFits(d: int)
    ensures d * d >= 0
    ensures Int32(d * d) <==> Within(d, 46340)
  {
    var p := if d < 0 then -d else d;
    assert d * d == p * p;
    if p <= 46340 {
      ProductGrows(p, p, 46340, 46340);
    } else {
      ProductGrows(46341, 46341, p, p);
    }
  }

  /** For every calibration and reading: the computation overflows exactly when it is not safe. */
  lemma NoOverflowIff(cal: TempCal, adc: Reading)
    ensures NoOverflow(cal, adc) <==> Safe(cal, adc)
  {
    var x, d := adc / 8 - 2 * cal.t1, Offset(cal, adc);
    SquareFits(d);
    var a, b := x * cal.t2, (d * d / 4096) * cal.t3;
    assert Linear(cal, x) == a / 2048 && Quadratic(cal, d) == b / 16384;
    hide Linear, Quadratic;
    if Int32(a) && Int32(b) {
      FineSmall(a, b);
    }
  }

  lemma FineSmall(a: int, b: int)
    requires Int32(a) && Int32(b)
    ensures Within(a / 2048 + b / 16384, 1179648)
  {
  }

  /** A computation that does not overflow yields the exact formula. */
  lemma SafeIsExact(cal: TempCal, adc: Reading)
    requires Safe(cal, adc)
    ensures Temperature32(cal, adc) == TemperatureExact(cal, adc)
  {
    NoOverflowIff(cal, adc);
    hide W32, Safe;
    var x, d := adc / 8 - 2 * cal.t1, Offset(cal, adc);
    assert Linear(cal, x) == x * cal.t2 / 2048 && Quadratic(cal, d) == (d * d / 4096) * cal.t3 / 16384;
    hide Linear, Quadratic;
    var fine := Linear(cal, x) + Quadratic(cal, d);
    Fits32(2 * cal.t1);
    Fits32(x);
    Fits32(x * cal.t2);
    Fits32(d);
    Fits32(d * d);
    Fits32((d * d / 4096) * cal.t3);
    Fits32(fine);
    Fits32(fine * 5);
    Fits32(fine * 5 + 128);
  }

  /** Readings near enough to T1 and a quadratic coefficient small enough for 32 bits. */
  ghost predicate InRange(cal: TempCal, adc: Reading) {
    Within(Offset(cal, adc), 32767) && Within(cal.t3, 8191)
  }

  /** In that range no intermediate of the driver's 32-bit computation overflows. */
  lemma TemperatureDoesNotOverflow(cal: TempCal, adc: Reading)
    requires InRange(cal, adc)
    ensures NoOverflow(cal, adc)
    ensures Temperature32(cal, adc) == TemperatureExact(cal, adc)
  {
    var x, d := adc / 8 - 2 * cal.t1, Offset(cal, adc);
    assert Within(x, 65535);
    ProductWithin(x, cal.t2, 65535, 32768);
    ProductWithin(d, d, 32767, 32767);
    SquareFits(d);
    var e := d * d / 4096;
    assert 0 <= e <= 262128;
    ProductWithin(e, cal.t3, 262128, 8191);
    assert Safe(cal, adc);
    NoOverflowIff(cal, adc);
    SafeIsExact(cal, adc);
  }

  /** Far from T1 the 32-bit computation does overflow: the range is a real restriction. */
  lemma FarReadingOverflows()
    ensures var cal := TempCal(0, 16384, 1);
      !Safe(cal, 0xF_FFFF) && Temperature32(cal, 0xF_FFFF) != TemperatureExact(cal, 0xF_FFFF)
  {
    var cal := TempCal(0, 16384, 1);
    assert Offset(cal, 0xF_FFFF) == 65535;
    assert 65535 * 65535 == 4294836225 && W32(4294836225) == -131071;
    assert Linear(cal, 131071) == 1048568;
    assert W32(131071 * 16384) == 131071 * 16384;
    assert Quadratic(cal, 65535) == 63;
  }

  /** The linear term outweighs the quadratic one between neighbouring readings. */
  ghost predicate Rising(cal: TempCal) {
    cal.t2 >= 0 && Within(cal.t3, 1024 * (cal.t2 / 2048))
  }

  lemma LinearStep(cal: TempCal, x: int)
    requires cal.t2 >= 0
    ensures Linear(cal, x + 1) >= Linear(cal, x) + cal.t2 / 2048
  {
    var y := x * cal.t2;
    assert (x + 1) * cal.t2 == y + cal.t2;
  }

  lemma SquareStep(d: int)
    requires -32768 <= d <= 32767
    ensures Within((d + 1) * (d + 1) / 4096 - d * d / 4096, 16)
  {
    assert (d + 1) * (d + 1) == d * d + 2 * d + 1;
  }

  lemma QuadraticStep(cal: TempCal, d: int)
    requires -32768 <= d <= 32767 && Rising(cal)
    ensures Quadratic(cal, d + 1) >= Quadratic(cal, d) - cal.t2 / 2048
  {
    SquareStep(d);
    var e, e', q := d * d / 4096, (d + 1) * (d + 1) / 4096, cal.t2 / 2048;
    ProductWithin(e' - e, cal.t3, 16, 1024 * q);
    assert e' * cal.t3 == e * cal.t3 + (e' - e) * cal.t3;
    FloorDrop(e * cal.t3, e' * cal.t3, q);
  }

  lemma FloorDrop(a: int, b: int, q: int)
    requires b >= a - 16384 * q
    ensures b / 16384 >= a / 16384 - q
  {
    assert (a - 16384 * q) / 16384 == a / 16384 - q;
  }

  lemma ShiftStep(adc: int)
    requires 0 <= adc
    ensures (adc + 1) / 8 == adc / 8 || (adc + 1) / 8 == adc / 8 + 1
    ensures (adc + 1) / 16 == adc / 16 || ((adc + 1) / 16 == adc / 16 + 1 && (adc + 1) / 8 == adc / 8 + 1)
  {
  }

  /** Some reading has this offset from T1, and it is within 32767. */
  ghost predicate Reached(cal: TempCal, d: int) {
    Within(d, 32767) && 0 <= cal.t1 + d <= 65535
  }

  /** The fine temperature does not fall where the offset goes from d to d + 1. */
  ghost predicate StepRises(cal: TempCal, d: int) {
    Linear(cal, 2 * d + 1) + Quadratic(cal, d) <= Linear(cal, 2 * d + 2) + Quadratic(cal, d + 1)
  }

  /** A condition on the calibration alone: no step between neighbouring offsets falls. */
  ghost predicate StepsRise(cal: TempCal) {
    cal.t2 >= 0 && forall d | Reached(cal, d) && Reached(cal, d + 1) :: StepRises(cal, d)
  }

  ghost predicate FineRises(cal: TempCal) {
    forall low: Reading, high: Reading
      | low <= high && Reached(cal, Offset(cal, low)) && Reached(cal, Offset(cal, high)) ::
      TemperatureExact(cal, low).fine <= TemperatureExact(cal, high).fine
  }

  /** One count: both terms stay, the linear one steps, or the offset steps with it. */
  lemma FineParts(cal: TempCal, adc: Reading)
    requires adc + 1 < 0x10_0000
    ensures var x, d := adc / 8 - 2 * cal.t1, Offset(cal, adc);
      var x', d' := (adc + 1) / 8 - 2 * cal.t1, Offset(cal, adc + 1);
      (x' == x && d' == d) || (x' == x + 1 && d' == d) || (x == 2 * d + 1 && x' == 2 * d + 2 && d' == d + 1)
  {
    ShiftStep(adc);
    assert adc / 8 == 2 * (adc / 16) || adc / 8 == 2 * (adc / 16) + 1;
  }

  lemma FineStep(cal: TempCal, adc: Reading)
    requires adc + 1 < 0x10_0000 && StepsRise(cal)
    requires Reached(cal, Offset(cal, adc)) && Reached(cal, Offset(cal, adc + 1))
    ensures TemperatureExact(cal, adc).fine <= TemperatureExact(cal, adc + 1).fine
  {
    FineParts(cal, adc);
    var x, d := adc / 8 - 2 * cal.t1, Offset(cal, adc);
    assert Offset(cal, adc + 1) == d + 1 ==> StepRises(cal, d);
    assert (x + 1) * cal.t2 >= x * cal.t2 by {
      assert (x + 1) * cal.t2 == x * cal.t2 + cal.t2;
    }
    LinearStep(cal, x);
    hide Linear, Quadratic, Offset;
  }

  lemma OffsetReached(cal: TempCal, adc: Reading)
    ensures Reached(cal, Offset(cal, adc)) <==> Within(Offset(cal, adc), 32767)
  {
  }

  lemma {:induction false} FineClimbs(cal: TempCal, low: Reading, high: Reading)
    requires StepsRise(cal) && low <= high
    requires Reached(cal, Offset(cal, low)) && Reached(cal, Offset(cal, high))
    ensures TemperatureExact(cal, low).fine <= TemperatureExact(cal, high).fine
    decreases high - low
  {
    hide TemperatureExact, StepsRise;
    if low < high {
      FineClimbs(cal, low, high - 1);
      FineStep(cal, high - 1);
    }
  }

  /** The two readings on either side of the step from offset d to d + 1. */
  lemma AtStep(cal: TempCal, d: int)
    requires Reached(cal, d) && Reached(cal, d + 1)
    ensures var low := 16 * (cal.t1 + d) + 15;
      && Offset(cal, low) == d && Offset(cal, low + 1) == d + 1
      && (StepRises(cal, d) <==> TemperatureExact(cal, low).fine <= TemperatureExact(cal, low + 1).fine)
  {
    var low := 16 * (cal.t1 + d) + 15;
    assert low / 8 - 2 * cal.t1 == 2 * d + 1 && (low + 1) / 8 - 2 * cal.t1 == 2 * d + 2;
    hide Linear, Quadratic;
  }

  /** A negative T2 always shows: between these two readings the offset stays 0. */
  lemma NegativeFalls(cal: TempCal)
    requires cal.t2 < 0
    ensures Offset(cal, 16 * cal.t1) == Offset(cal, 16 * cal.t1 + 8) == 0
    ensures TemperatureExact(cal, 16 * cal.t1 + 8).fine < TemperatureExact(cal, 16 * cal.t1).fine
    ensures !FineRises(cal)
  {
    assert Linear(cal, 0) == 0 > Linear(cal, 1);
    hide Linear;
  }

  /**
   For every calibration: over all readings with an offset within 32767 the fine temperature never
   falls when the raw reading rises, rounding shifts included, exactly when no step falls.
   */
  lemma TemperatureMonotoneIff(cal: TempCal)
    ensures FineRises(cal) <==> StepsRise(cal)
  {
    hide TemperatureExact, StepRises, Reached;
    if StepsRise(cal) {
      forall low: Reading, high: Reading
        | low <= high && Reached(cal, Offset(cal, low)) && Reached(cal, Offset(cal, high))
        ensures TemperatureExact(cal, low).fine <= TemperatureExact(cal, high).fine
      {
        FineClimbs(cal, low, high);
      }
    }
    if cal.t2 < 0 {
      NegativeFalls(cal);
    }
    if FineRises(cal) {
      forall d | Reached(cal, d) && Reached(cal, d + 1) ensures StepRises(cal, d) {
        RisesAt(cal, d);
      }
    }
  }

  lemma RisesAt(cal: TempCal, d: int)
    requires FineRises(cal) && Reached(cal, d) && Reached(cal, d + 1)
    ensures StepRises(cal, d)
  {
    AtStep(cal, d);
    hide TemperatureExact, StepRises;
    var low: Reading, high: Reading := 16 * (cal.t1 + d) + 15, 16 * (cal.t1 + d) + 16;
    assert Reached(cal, Offset(cal, low)) && Reached(cal, Offset(cal, high));
    assert TemperatureExact(cal, low).fine <= TemperatureExact(cal, high).fine;
  }

  ghost predicate DriverRises(cal: TempCal) {
    forall low: Reading, high: Reading
      | low <= high && Reached(cal, Offset(cal, low)) && Reached(cal, Offset(cal, high)) ::
      Temperature32(cal, low).fine <= Temperature32(cal, high).fine
  }

  /** The same of the values the driver computes in 32 bits, for every T3 that cannot overflow there. */
  lemma DriverMonotoneIff(cal: TempCal)
    requires Within(cal.t3, 8191)
    ensures DriverRises(cal) <==> StepsRise(cal)
  {
    hide Temperature32, TemperatureExact, StepsRise, NoOverflow;
    TemperatureMonotoneIff(cal);
    forall adc: Reading | Reached(cal, Offset(cal, adc))
      ensures Temperature32(cal, adc) == TemperatureExact(cal, adc)
    {
      TemperatureDoesNotOverflow(cal, adc);
    }
  }

  /** In the range of 32 bits the driver's own results are ordered likewise. */
  lemma TemperatureMonotone(cal: TempCal, low: Reading, high: Reading)
    requires low <= high && InRange(cal, low) && InRange(cal, high) && StepsRise(cal)
    ensures Temperature32(cal, low).fine <= Temperature32(cal, high).fine
    ensures Temperature32(cal, low).celsius <= Temperature32(cal, high).celsius
  {
    OffsetReached(cal, low);
    OffsetReached(cal, high);
    FineClimbs(cal, low, high);
    TemperatureDoesNotOverflow(cal, low);
    TemperatureDoesNotOverflow(cal, high);
    hide StepsRise, Temperature32, NoOverflow, Linear, Quadratic;
  }

  /** A simple sufficient test: the linear term outweighs the quadratic one at every offset. */
  lemma RisingIsEnough(cal: TempCal)
    requires Rising(cal)
    ensures StepsRise(cal)
  {
    forall d | Reached(cal, d) && Reached(cal, d + 1) ensures StepRises(cal, d) {
      LinearStep(cal, 2 * d + 1);
      QuadraticStep(cal, d);
      hide Linear, Quadratic;
    }
  }

  lemma FloorRise(a: int, b: int, unit: nat, k: int)
    requires unit > 0 && b - a <= k
    ensures unit * (b / unit - a / unit) <= k + unit - 1
  {
    assert a == unit * (a / unit) + a % unit && b == unit * (b / unit) + b % unit;
    assert unit * (b / unit - a / unit) == unit * (b / unit) - unit * (a / unit);
  }

  /** Where the squared offset changes most, a steep quadratic term takes back more than the linear one adds. */
  lemma SteepStep(cal: TempCal, x: int, e: int, f: int)
    requires 2 * ((e - f) * cal.t3) > 16 * (cal.t2 + 4096)
    ensures Linear(cal, x + 1) + f * cal.t3 / 16384 < Linear(cal, x) + e * cal.t3 / 16384
  {
    assert (x + 1) * cal.t2 - x * cal.t2 == cal.t2;
    assert f * cal.t3 - e * cal.t3 == -((e - f) * cal.t3);
    FloorRise(x * cal.t2, (x + 1) * cal.t2, 2048, cal.t2);
    FloorRise(e * cal.t3, f * cal.t3, 16384, -((e - f) * cal.t3));
  }

  /**
   A simple test for the other side, at any offset a reading can have: where the scaled square
   changes so much that T3 takes back more than T2 and the rounding add, the driver's fine
   temperature falls from one reading to the next.
   */
  lemma SteepQuadraticFalls(cal: TempCal, d: int)
    requires Reached(cal, d) && Reached(cal, d + 1)
    requires 2 * ((d * d / 4096 - (d + 1) * (d + 1) / 4096) * cal.t3) > 16 * (cal.t2 + 4096)
    ensures !StepsRise(cal)
    ensures var low := 16 * (cal.t1 + d) + 15;
      && TemperatureExact(cal, low + 1).fine < TemperatureExact(cal, low).fine
      && (Within(cal.t3, 8191) ==> Temperature32(cal, low + 1).fine < Temperature32(cal, low).fine)
  {
    AtStep(cal, d);
    SteepStep(cal, 2 * d + 1, d * d / 4096, (d + 1) * (d + 1) / 4096);
    assert !StepRises(cal, d);
    hide Temperature32, TemperatureExact, NoOverflow, StepRises;
    if Within(cal.t3, 8191) {
      TemperatureDoesNotOverflow(cal, 16 * (cal.t1 + d) + 15);
      TemperatureDoesNotOverflow(cal, 16 * (cal.t1 + d) + 16);
    }
  }

  /** A calibration and two readings where it falls. */
  lemma TemperatureFalls()
    ensures var cal := TempCal(32767, 1, 8191);
      InRange(cal, 15) && InRange(cal, 16) && Temperature32(cal, 16).fine < Temperature32(cal, 15).fine
  {
    SteepQuadraticFalls(TempCal(32767, 1, 8191), -32767);
  }

  // ---------------------------------------------------------------- pressure

  datatype PressCal = PressCal(p1: uint16, p2: int16, p3: int16, p4: int16, p5: int16, p6: int16,
                               p7: int16, p8: int16, p9: int16)

  // the driver's computation, each operation in 64 bits

  function Bias64(cal: PressCal, v: int): int {
    W64(W64(W64(W64(v * v) * cal.p6) + W64(W64(v * cal.p5) * 0x2_0000)) + W64(cal.p4 * 0x8_0000_0000))
  }

  function Divisor64(cal: PressCal, v: int): int {
    var var1 := W64(W64(W64(v * v) * cal.p3) / 256 + W64(W64(v * cal.p2) * 4096));
    W64(W64(0x8000_0000_0000 + var1) * cal.p1) / 0x2_0000_0000
  }

  function Quotient64(adc: Reading, bias: int, divisor: int): int
    requires divisor != 0
  {
    W64(TruncDiv(W64(W64(W64((1048576 - adc) * 0x8000_0000) - bias) * 3125), divisor))
  }

  function Pascal64(cal: PressCal, p: int): int {
    var corr9 := W64(W64(cal.p9 * (p / 8192)) * (p / 8192)) / 0x200_0000;
    var corr8 := W64(cal.p8 * p) / 0x8_0000;
    W64(W64(W64(p + corr9) + corr8) / 256 + W64(cal.p7 * 16))
  }

  /** `BMP280_compensate_pressure`; the result is cut to 32 bits. */
  function Pressure64(cal: PressCal, adc: Reading, fine: int): int {
    var v := W64(fine - 128000);
    var bias, divisor := Bias64(cal, v), Divisor64(cal, v);
    if divisor == 0 then 0 else Pascal64(cal, Quotient64(adc, bias, divisor)) % 0x1_0000_0000
  }

  // the same on unbounded integers, step by step

  function Bias(cal: PressCal, v: int): int {
    v * v * cal.p6 + v * cal.p5 * 0x2_0000 + cal.p4 * 0x8_0000_0000
  }

  function Slope(cal: PressCal, v: int): int {
    v * v * cal.p3 / 256 + v * cal.p2 * 4096
  }

  function Scaled(cal: PressCal, v: int): int {
    (0x8000_0000_0000 + Slope(cal, v)) * cal.p1
  }

  function Divisor(cal: PressCal, v: int): int {
    Scaled(cal, v) / 0x2_0000_0000
  }

  function Excess(cal: PressCal, adc: Reading, v: int): int {
    (1048576 - adc) * 0x8000_0000 - Bias(cal, v)
  }

  function Numerator(cal: PressCal, adc: Reading, v: int): int {
    Excess(cal, adc, v) * 3125
  }

  function Quotient(cal: PressCal, adc: Reading, v: int): int {
    if Divisor(cal, v) == 0 then 0 else TruncDiv(Numerator(cal, adc, v), Divisor(cal, v))
  }

  function Square9(cal: PressCal, p: int): int {
    cal.p9 * (p / 8192) * (p / 8192) / 0x200_0000
  }

  function Linear8(cal: PressCal, p: int): int {
    cal.p8 * p / 0x8_0000
  }

  function Level(cal: PressCal, p: int): int {
    p + Square9(cal, p) + Linear8(cal, p)
  }

  /** Pascals with 8 fractional bits. */
  function Pascal(cal: PressCal, p: int): int {
    Level(cal, p) / 256 + cal.p7 * 16
  }

  function PressureExact(cal: PressCal, adc: Reading, fine: int): int {
    if Divisor(cal, fine - 128000) == 0 then 0 else Pascal(cal, Quotient(cal, adc, fine - 128000))
  }

  // ---------------------------------------------------------------- pressure in 64 bits

  ghost predicate BiasInRange(cal: PressCal, v: int) {
    && Int64(v * v) && Int64(v * v * cal.p6) && Int64(v * cal.p5) && Int64(v * cal.p5 * 0x2_0000)
    && Int64(v * v * cal.p6 + v * cal.p5 * 0x2_0000)
    && Int64(cal.p4 * 0x8_0000_0000) && Int64(Bias(cal, v))
  }

  ghost predicate DivisorInRange(cal: PressCal, v: int) {
    && Int64(v * v) && Int64(v * v * cal.p3) && Int64(v * cal.p2) && Int64(v * cal.p2 * 4096)
    && Int64(Slope(cal, v)) && Int64(0x8000_0000_0000 + Slope(cal, v)) && Int64(Scaled(cal, v))
  }

  ghost predicate QuotientInRange(cal: PressCal, adc: Reading, v: int) {
    && Int64((1048576 - adc) * 0x8000_0000) && Int64(Excess(cal, adc, v))
    && Int64(Numerator(cal, adc, v)) && Int64(Quotient(cal, adc, v))
  }

  ghost predicate PascalInRange(cal: PressCal, p: int) {
    && Int64(cal.p9 * (p / 8192)) && Int64(cal.p9 * (p / 8192) * (p / 8192)) && Int64(cal.p8 * p)
    && Int64(p + Square9(cal, p)) && Int64(Level(cal, p)) && Int64(cal.p7 * 16) && Int64(Pascal(cal, p))
  }

  /** Every intermediate the computation reaches, with exact values, fits 64 bits. */
  ghost predicate NoOverflow64(cal: PressCal, adc: Reading, v: int) {
    && BiasInRange(cal, v) && DivisorInRange(cal, v)
    && (Divisor(cal, v) != 0 ==> QuotientInRange(cal, adc, v) && PascalInRange(cal, Quotient(cal, adc, v)))
  }

  lemma BiasFits(cal: PressCal, v: int)
    requires BiasInRange(cal, v)
    ensures Bias64(cal, v) == Bias(cal, v)
  {
    hide W64, Int64;
    Fits64(v * v);
    Fits64(v * v * cal.p6);
    Fits64(v * cal.p5);
    Fits64(v * cal.p5 * 0x2_0000);
    Fits64(v * v * cal.p6 + v * cal.p5 * 0x2_0000);
    Fits64(cal.p4 * 0x8_0000_0000);
    Fits64(Bias(cal, v));
  }

  lemma DivisorFits(cal: PressCal, v: int)
    requires DivisorInRange(cal, v)
    ensures Divisor64(cal, v) == Divisor(cal, v)
  {
    hide W64, Int64;
    Fits64(v * v);
    Fits64(v * v * cal.p3);
    Fits64(v * cal.p2);
    Fits64(v * cal.p2 * 4096);
    Fits64(Slope(cal, v));
    Fits64(0x8000_0000_0000 + Slope(cal, v));
    Fits64(Scaled(cal, v));
  }

  lemma QuotientFits(cal: PressCal, adc: Reading, v: int)
    requires Divisor(cal, v) != 0 && QuotientInRange(cal, adc, v)
    ensures Quotient64(adc, Bias(cal, v), Divisor(cal, v)) == Quotient(cal, adc, v)
  {
    hide W64, Int64, Bias, Divisor;
    Fits64((1048576 - adc) * 0x8000_0000);
    Fits64(Excess(cal, adc, v));
    Fits64(Numerator(cal, adc, v));
    Fits64(Quotient(cal, adc, v));
  }

  lemma PascalFits(cal: PressCal, p: int)
    requires PascalInRange(cal, p)
    ensures Pascal64(cal, p) == Pascal(cal, p)
  {
    hide W64, Int64;
    Fits64(cal.p9 * (p / 8192));
    Fits64(cal.p9 * (p / 8192) * (p / 8192));
    Fits64(cal.p8 * p);
    assert W64(W64(cal.p9 * (p / 8192)) * (p / 8192)) / 0x200_0000 == Square9(cal, p);
    assert W64(cal.p8 * p) / 0x8_0000 == Linear8(cal, p);
    hide Square9, Linear8;
    Fits64(p + Square9(cal, p));
    Fits64(Level(cal, p));
    Fits64(cal.p7 * 16);
    Fits64(Pascal(cal, p));
  }

  /** A computation that does not overflow yields the exact formula, cut to 32 bits at the end. */
  lemma NoOverflowIsExact(cal: PressCal, adc: Reading, fine: int)
    requires Int64(fine - 128000) && NoOverflow64(cal, adc, fine - 128000)
    ensures Pressure64(cal, adc, fine) == PressureExact(cal, adc, fine) % 0x1_0000_0000
  {
    hide W64, Bias, Divisor, Quotient, Pascal, Bias64, Divisor64, Quotient64, Pascal64;
    hide BiasInRange, DivisorInRange, QuotientInRange, PascalInRange;
    var v := fine - 128000;
    Fits64(v);
    BiasFits(cal, v);
    DivisorFits(cal, v);
    if Divisor(cal, v) != 0 {
      QuotientFits(cal, adc, v);
      PascalFits(cal, Quotient(cal, adc, v));
    }
  }

  // which of the intermediates decide

  /** The largest difference that still fits 64 bits when it is scaled by 3125. */
  const EXCESS_LIMIT: int := 2951479051793528

  ghost predicate CorrectionsFit(cal: PressCal, p: int) {
    Int64(cal.p9 * (p / 8192) * (p / 8192)) && Int64(cal.p8 * p) && Int64(Level(cal, p))
  }

  /** What decides it: the scaled divisor, the scaled difference, and the corrections of the quotient. */
  ghost predicate Safe64(cal: PressCal, adc: Reading, v: int) {
    && Int64(Scaled(cal, v))
    && (Divisor(cal, v) != 0 ==>
          Within(Excess(cal, adc, v), EXCESS_LIMIT) && CorrectionsFit(cal, Quotient(cal, adc, v)))
  }

  /** The bias fits whatever the calibration, for every fine temperature a safe reading can have. */
  lemma BiasAlwaysFits(cal: PressCal, v: int)
    requires Within(v, 1307648)
    ensures BiasInRange(cal, v) && Within(Bias(cal, v), 62776000000000000)
  {
    ProductWithin(v, v, 1307648, 1307648);
    ProductWithin(v * v, cal.p6, 1709943291904, 32768);
    ProductWithin(v, cal.p5, 1307648, 32768);
  }

  lemma DivisorRangeIff(cal: PressCal, v: int)
    requires Within(v, 1307648)
    ensures DivisorInRange(cal, v) <==> Int64(Scaled(cal, v))
  {
    ProductWithin(v, v, 1307648, 1307648);
    ProductWithin(v * v, cal.p3, 1709943291904, 32768);
    ProductWithin(v, cal.p2, 1307648, 32768);
    hide Scaled;
  }

  lemma TruncDivShrinks(a: int, b: int)
    requires b != 0
    ensures Within(TruncDiv(a, b), if a < 0 then -a else a)
  {
    var n, d := if a < 0 then -a else a, if b < 0 then -b else b;
    DivBound(n, d, 1, n);
    assert n / b == n / d || n / b == -(n / d) by {
      if b < 0 {
        DivNegative(n, d);
      }
    }
  }

  lemma DivNegative(n: int, d: int)
    requires n >= 0 && d > 0
    ensures n / (-d) == -(n / d)
  {
  }

  lemma QuotientRangeIff(cal: PressCal, adc: Reading, v: int)
    requires Within(Bias(cal, v), 62776000000000000) && Divisor(cal, v) != 0
    ensures QuotientInRange(cal, adc, v) <==> Within(Excess(cal, adc, v), EXCESS_LIMIT)
  {
    hide Bias, Divisor;
    TruncDivShrinks(Numerator(cal, adc, v), Divisor(cal, v));
    hide TruncDiv;
  }

  lemma SquareSmall(k: nat)
    requires k * k <= 0x8000_0000_0000_0000
    ensures k <= 3037000500
  {
    if k > 3037000500 {
      ProductGrows(3037000501, 3037000501, k, k);
    }
  }

  lemma SmallFactor(a: int, m: int)
    requires a != 0 && Within(a, 32768) && Int64(a * m * m)
    ensures Within(m, 3037000500) && Within(a * m, 32768 * 3037000500)
  {
    var n, k := if a < 0 then -a else a, if m < 0 then -m else m;
    ProductGrows(1, k * k, n, k * k);
    assert m * m == k * k && a * m * m == a * (k * k);
    assert a * (k * k) == n * (k * k) || a * (k * k) == -(n * (k * k));
    SquareSmall(k);
    ProductWithin(a, m, 32768, 3037000500);
  }

  lemma PascalRangeIff(cal: PressCal, p: int)
    requires Int64(p)
    ensures PascalInRange(cal, p) <==> CorrectionsFit(cal, p)
  {
    var m := p / 8192;
    if CorrectionsFit(cal, p) {
      if cal.p9 == 0 {
        assert Square9(cal, p) == 0;
      } else {
        SmallFactor(cal.p9, m);
        assert Within(p, 8192 * 3037000501);
        assert Within(Square9(cal, p), 0x40_0000_0000);
      }
    }
  }

  /**
   For every calibration, every reading and every fine temperature a safe reading can have: some
   64-bit intermediate overflows exactly when the computation is not safe.
   */
  lemma PressureOverflowIff(cal: PressCal, adc: Reading, v: int)
    requires Within(v, 1307648)
    ensures NoOverflow64(cal, adc, v) <==> Safe64(cal, adc, v)
  {
    hide Bias, Slope, Scaled, Divisor, Excess, Quotient, CorrectionsFit, BiasInRange, DivisorInRange, PascalInRange;
    BiasAlwaysFits(cal, v);
    DivisorRangeIff(cal, v);
    if Divisor(cal, v) != 0 {
      QuotientRangeIff(cal, adc, v);
      if Within(Excess(cal, adc, v), EXCESS_LIMIT) {
        PascalRangeIff(cal, Quotient(cal, adc, v));
      }
    }
  }

  // ---------------------------------------------------------------- pressure in operation

  /** Coefficients that keep the divisor positive over the operating temperatures. */
  ghost predicate Typical(cal: PressCal) {
    30000 <= cal.p1 <= 40000 && Within(cal.p2, 16000) && Within(cal.p3, 4096)
  }

  /** Fine temperatures from -40 to 85 degrees Celsius. */
  ghost predicate Operating(fine: int) {
    Within(fine - 128000, 332800)
  }

  lemma SlopeBound(cal: PressCal, v: int)
    requires Typical(cal) && Within(v, 332800)
    ensures Within(Slope(cal, v), 23582474240000)
  {
    ProductWithin(v, v, 332800, 332800);
    ProductWithin(v * v, cal.p3, 110755840000, 4096);
    ProductWithin(v, cal.p2, 332800, 16000);
  }

  /** The divisor is positive, with room on both sides. */
  lemma DivisorBound(cal: PressCal, v: int)
    requires Typical(cal) && Within(v, 332800)
    ensures Within(Scaled(cal, v), 6572798503813120000)
    ensures 409159160 <= Divisor(cal, v) <= 765174453
  {
    SlopeBound(cal, v);
    hide Slope;
    var s := 0x8000_0000_0000 + Slope(cal, v);
    ProductGrows(s, cal.p1, 164319962595328, 40000);
    ProductGrows(117155014115328, 30000, s, cal.p1);
  }

  lemma DivParts(n: nat, b: nat)
    requires b > 0
    ensures n == n / b * b + n % b && 0 <= n % b < b
  {
  }

  lemma DivBound(n: nat, b: nat, least: nat, most: nat)
    requires 0 < least <= b && n <= least * most
    ensures 0 <= n / b <= most
  {
    var q := n / b;
    DivParts(n, b);
    assert (most + 1) * least == least * most + least;
    if q > most {
      ProductGrows(most + 1, least, q, b);
    }
  }

  lemma TruncDivBound(a: int, b: int, bound: nat, least: nat, most: nat)
    requires Within(a, bound) && 0 < least <= b && bound <= least * most
    ensures Within(TruncDiv(a, b), most)
  {
    if a >= 0 {
      DivBound(a, b, least, most);
    } else {
      DivBound(-a, b, least, most);
    }
  }

  const QUOTIENT_LIMIT: int := 22600000000

  lemma CorrectionBound(cal: PressCal, p: int)
    requires Within(p, QUOTIENT_LIMIT)
    ensures Within(cal.p9 * (p / 8192) * (p / 8192), 32768 * 2758790 * 2758790)
    ensures Within(cal.p8 * p, 32768 * QUOTIENT_LIMIT)
  {
    var m := p / 8192;
    assert Within(m, 2758790);
    ProductWithin(cal.p9, m, 32768, 2758790);
    ProductWithin(cal.p9 * m, m, 32768 * 2758790, 2758790);
    ProductWithin(cal.p8, p, 32768, QUOTIENT_LIMIT);
  }

  lemma CorrectionValues(cal: PressCal, p: int)
    requires Within(p, QUOTIENT_LIMIT)
    ensures Within(Square9(cal, p), 7500000000) && Within(Linear8(cal, p), 1412500000)
    ensures CorrectionsFit(cal, p)
  {
    CorrectionBound(cal, p);
  }

  lemma QuotientBound(cal: PressCal, adc: Reading, v: int)
    requires Typical(cal) && Within(v, 332800) && Within(Excess(cal, adc, v), EXCESS_LIMIT)
    ensures Within(Quotient(cal, adc, v), QUOTIENT_LIMIT)
  {
    DivisorBound(cal, v);
    hide Excess, Divisor;
    TruncDivBound(Numerator(cal, adc, v), Divisor(cal, v), EXCESS_LIMIT * 3125, 409159160, QUOTIENT_LIMIT);
  }

  /** In operation one difference alone decides, whatever P4 to P9 are. */
  lemma OperatingOverflowIff(cal: PressCal, adc: Reading, fine: int)
    requires Typical(cal) && Operating(fine)
    ensures NoOverflow64(cal, adc, fine - 128000) <==> Within(Excess(cal, adc, fine - 128000), EXCESS_LIMIT)
  {
    var v := fine - 128000;
    hide Scaled, Divisor, Excess, Quotient, CorrectionsFit, NoOverflow64;
    PressureOverflowIff(cal, adc, v);
    DivisorBound(cal, v);
    if Within(Excess(cal, adc, v), EXCESS_LIMIT) {
      QuotientBound(cal, adc, v);
      CorrectionValues(cal, Quotient(cal, adc, v));
    }
  }

  /** Calibrations for which the difference is small enough for every reading. */
  ghost predicate Calibrated(cal: PressCal) {
    Typical(cal) && Within(cal.p4, 16384) && Within(cal.p5, 1024) && Within(cal.p6, 64)
  }

  lemma ExcessBound(cal: PressCal, adc: Reading, v: int)
    requires Calibrated(cal) && Within(v, 332800)
    ensures Within(Excess(cal, adc, v), 2866505800745000)
  {
    ProductWithin(v, v, 332800, 332800);
    ProductWithin(v * v, cal.p6, 110755840000, 64);
    ProductWithin(v, cal.p5, 332800, 1024);
    assert Within(Bias(cal, v), 614705987059712);
    hide Bias;
  }

  /**
   Over the operating temperatures and the stated calibrations no 64-bit intermediate overflows,
   the divisor is positive, and the driver returns the integer formula cut to 32 bits.
   */
  lemma PressureDoesNotOverflow(cal: PressCal, adc: Reading, fine: int)
    requires Calibrated(cal) && Operating(fine)
    ensures Divisor(cal, fine - 128000) > 0
    ensures NoOverflow64(cal, adc, fine - 128000)
    ensures Pressure64(cal, adc, fine) == PressureExact(cal, adc, fine) % 0x1_0000_0000
  {
    hide Divisor, Excess, Pressure64, PressureExact, NoOverflow64;
    DivisorBound(cal, fine - 128000);
    ExcessBound(cal, adc, fine - 128000);
    OperatingOverflowIff(cal, adc, fine);
    NoOverflowIsExact(cal, adc, fine);
  }

  /** A legal P4 that puts the difference outside its limit: the quotient changes its sign. */
  lemma LargeP4Overflows()
    ensures var cal := PressCal(36477, -10685, 3024, -32768, 140, -7, 15500, -14600, 6000);
      && Typical(cal) && Operating(128000)
      && Excess(cal, 0, 0) > EXCESS_LIMIT && !NoOverflow64(cal, 0, 0)
      && Quotient64(0, Bias(cal, 0), Divisor(cal, 0)) < 0 < Quotient(cal, 0, 0)
  {
    var cal := PressCal(36477, -10685, 3024, -32768, 140, -7, 15500, -14600, 6000);
    hide NoOverflow64;
    AtZero(cal);
    hide Bias, Slope, TruncDiv;
    assert Divisor(cal, 0) == 597639168;
    assert Numerator(cal, 0, 0) == 10555311626649600000;
    OperatingOverflowIff(cal, 0, 128000);
    assert W64(10555311626649600000) == -7891432447059951616;
    TruncDivSign(10555311626649600000, 597639168);
    TruncDivSign(-7891432447059951616, 597639168);
    hide W64;
    Fits64(1048576 * 0x8000_0000);
    Fits64(1048576 * 0x8000_0000 - Bias(cal, 0));
    var q := TruncDiv(-7891432447059951616, 597639168);
    Fits64(q);
  }

  lemma AtZero(cal: PressCal)
    ensures Bias(cal, 0) == cal.p4 * 0x8_0000_0000 && Slope(cal, 0) == 0
  {
  }

  lemma TruncDivSign(a: int, b: nat)
    requires b > 0 && !Within(a, b)
    ensures a > 0 ==> 0 < TruncDiv(a, b) <= a
    ensures a < 0 ==> a <= TruncDiv(a, b) < 0
  {
    if a > 0 {
      DivPositive(a, b);
    } else {
      DivPositive(-a, b);
    }
  }

  lemma DivPositive(n: nat, b: nat)
    requires 0 < b <= n
    ensures 0 < n / b <= n
  {
    DivBound(n, b, 1, n);
    DivParts(n, b);
  }

  // ---------------------------------------------------------------- pressure and raw reading

  lemma TruncDivParts(a: int, b: nat)
    requires b > 0
    ensures 0 - b < a - TruncDiv(a, b) * b < b
  {
    if a >= 0 {
      DivParts(a, b);
    } else {
      DivParts(-a, b);
      var q := (-a) / b;
      assert (-q) * b == -(q * b);
    }
  }

  /** One count of the raw reading moves the quotient by a known amount. */
  lemma TruncDivStep(a: int, b: nat)
    requires 409159160 <= b <= 765174453
    ensures 8769 <= TruncDiv(a, b) - TruncDiv(a - 6710886400000, b) <= 16403
  {
    var q, q' := TruncDiv(a, b), TruncDiv(a - 6710886400000, b);
    TruncDivParts(a, b);
    TruncDivParts(a - 6710886400000, b);
    hide TruncDiv;
    var d := q - q';
    assert d * b == q * b - q' * b;
    if d <= 8768 {
      ScaleUp(d, 8768, b);
    } else if d >= 16404 {
      ScaleUp(16404, d, b);
    }
  }

  lemma ScaleUp(a: int, c: int, b: nat)
    requires a <= c
    ensures a * b <= c * b
  {
    assert (c - a) * b >= 0;
  }

  lemma QuotientStep(cal: PressCal, adc: Reading, v: int)
    requires Calibrated(cal) && Within(v, 332800) && adc + 1 < 0x10_0000
    ensures 8769 <= Quotient(cal, adc, v) - Quotient(cal, adc + 1, v) <= 16403
  {
    DivisorBound(cal, v);
    hide Divisor, Bias;
    TruncDivStep(Numerator(cal, adc, v), Divisor(cal, v));
  }

  lemma CalibratedQuotient(cal: PressCal, adc: Reading, v: int)
    requires Calibrated(cal) && Within(v, 332800)
    ensures Within(Quotient(cal, adc, v), 21893266736)
  {
    ExcessBound(cal, adc, v);
    DivisorBound(cal, v);
    hide Excess, Divisor;
    TruncDivBound(Numerator(cal, adc, v), Divisor(cal, v), 8957830627328125000, 409159160, 21893266736);
  }

  lemma Square9Step(cal: PressCal, p: int, p': int)
    requires Within(p, 21893266736) && Within(p', 21893266736) && 8769 <= p - p' <= 16403
    requires Within(cal.p9, 16000)
    ensures Square9(cal, p) - Square9(cal, p') >= -7648
  {
    var m, m' := p / 8192, p' / 8192;
    ProductWithin(m - m', m + m', 3, 5345036);
    assert m * m - m' * m' == (m - m') * (m + m');
    ProductWithin(cal.p9, m * m - m' * m', 16000, 16035108);
    assert cal.p9 * (m * m - m' * m') == cal.p9 * m * m - cal.p9 * m' * m' by {
      assert cal.p9 * m * m == cal.p9 * (m * m);
      assert cal.p9 * m' * m' == cal.p9 * (m' * m');
      assert cal.p9 * (m * m - m' * m') == cal.p9 * (m * m) - cal.p9 * (m' * m');
    }
    FloorGap(cal.p9 * m * m, cal.p9 * m' * m');
  }

  lemma FloorGap(a: int, b: int)
    requires a - b >= -16000 * 16035108
    ensures a / 0x200_0000 - b / 0x200_0000 >= -7648
  {
  }

  lemma Linear8Step(cal: PressCal, p: int, p': int)
    requires 8769 <= p - p' <= 16403
    ensures Linear8(cal, p) - Linear8(cal, p') >= -1027
  {
    ProductWithin(cal.p8, p - p', 32768, 16403);
    assert cal.p8 * p == cal.p8 * p' + cal.p8 * (p - p');
  }

  lemma PressureStep(cal: PressCal, adc: Reading, fine: int)
    requires Calibrated(cal) && Operating(fine) && Within(cal.p9, 16000) && adc + 1 < 0x10_0000
    ensures PressureExact(cal, adc + 1, fine) <= PressureExact(cal, adc, fine)
  {
    var v := fine - 128000;
    DivisorBound(cal, v);
    QuotientStep(cal, adc, v);
    CalibratedQuotient(cal, adc, v);
    CalibratedQuotient(cal, adc + 1, v);
    hide Divisor, Quotient, Square9, Linear8, Scaled;
    var p, p' := Quotient(cal, adc, v), Quotient(cal, adc + 1, v);
    Square9Step(cal, p, p');
    Linear8Step(cal, p, p');
  }

  lemma {:induction false} PressureExactAntitone(cal: PressCal, low: Reading, high: Reading, fine: int)
    requires Calibrated(cal) && Operating(fine) && Within(cal.p9, 16000) && low <= high
    ensures PressureExact(cal, high, fine) <= PressureExact(cal, low, fine)
    decreases high - low
  {
    hide PressureExact;
    if low < high {
      PressureExactAntitone(cal, low, high - 1, fine);
      PressureStep(cal, high - 1, fine);
    }
  }

  lemma PressureExactBound(cal: PressCal, adc: Reading, fine: int)
    requires Calibrated(cal) && Operating(fine)
    ensures Within(PressureExact(cal, adc, fine), 0x4000_0000)
  {
    var v := fine - 128000;
    CalibratedQuotient(cal, adc, v);
    hide Divisor, Quotient, Square9, Linear8, Scaled, CorrectionsFit;
    CorrectionValues(cal, Quotient(cal, adc, v));
  }

  /**
   A higher raw reading never gives a higher pressure, in spite of the rounding shifts, except
   exactly where the formula passes below zero: there the unsigned result wraps to the top.
   */
  lemma PressureAntitoneIff(cal: PressCal, low: Reading, high: Reading, fine: int)
    requires Calibrated(cal) && Operating(fine) && Within(cal.p9, 16000) && low <= high
    ensures Pressure64(cal, high, fine) <= Pressure64(cal, low, fine)
       <==> !(PressureExact(cal, high, fine) < 0 <= PressureExact(cal, low, fine))
  {
    hide PressureExact, Pressure64, Divisor, NoOverflow64;
    PressureExactAntitone(cal, low, high, fine);
    PressureDoesNotOverflow(cal, low, fine);
    PressureDoesNotOverflow(cal, high, fine);
    PressureExactBound(cal, low, fine);
    PressureExactBound(cal, high, fine);
  }

  // ---------------------------------------------------------------- where the pressure passes zero

  lemma SquareOfShift(p: int)
    requires Within(p, QUOTIENT_LIMIT)
    ensures var m, a := p / 8192, if p < 0 then -p else p;
      && 0 <= m * m && m * m <= 337 * a + 1
      && (0 <= p < 8192 ==> m * m == 0)
  {
    var m := p / 8192;
    if p >= 0 {
      ProductGrows(m, 8192 * m, 2758790, p);
      assert m * (8192 * m) == 8192 * (m * m);
    } else {
      var n := -m - 1;
      ProductGrows(n, 8192 * n, 2758790, -p);
      assert n * (8192 * n) == 8192 * (n * n);
      assert m * m == n * n + 2 * n + 1;
    }
  }

  lemma Square9Band(cal: PressCal, p: int)
    requires Within(p, QUOTIENT_LIMIT)
    ensures var a := if p < 0 then -p else p;
      && -337 * a - 1024 <= 1024 * Square9(cal, p) <= 337 * a + 1
      && (0 <= p < 8192 ==> Square9(cal, p) == 0)
  {
    var m, a := p / 8192, if p < 0 then -p else p;
    SquareOfShift(p);
    ProductWithin(cal.p9, m * m, 32768, m * m);
    assert cal.p9 * m * m == cal.p9 * (m * m);
    FloorBand(cal.p9 * m * m, m * m);
  }

  lemma FloorBand(y: int, k: int)
    requires Within(y, 32768 * k)
    ensures -k - 1023 <= 1024 * (y / 0x200_0000) <= k
  {
  }

  lemma Linear8Band(cal: PressCal, p: int)
    ensures var a := if p < 0 then -p else p; -a - 15 <= 16 * Linear8(cal, p) <= a
  {
    var a := if p < 0 then -p else p;
    ProductWithin(cal.p8, p, 32768, a);
  }

  /** The corrections take or add less than half of the quotient. */
  lemma LevelBand(cal: PressCal, p: int)
    requires Within(p, QUOTIENT_LIMIT)
    ensures p >= 0 ==> p - 1 <= 2 * Level(cal, p) <= 3 * p
    ensures p < 0 ==> 3 * p - 4 <= 2 * Level(cal, p) <= p
  {
    Square9Band(cal, p);
    Linear8Band(cal, p);
    hide Square9, Linear8;
  }

  lemma DivBand(n: nat, b: nat)
    requires b > 0
    ensures n / b >= 0 && 0 <= n - n / b * b < b
  {
    DivParts(n, b);
  }

  lemma NegatedProduct(q: int, b: int)
    ensures (-q) * b == -(q * b)
  {
  }

  lemma TruncDivBand(a: int, b: nat)
    requires b > 0
    ensures a >= 0 ==> TruncDiv(a, b) >= 0 && 0 <= a - TruncDiv(a, b) * b < b
    ensures a < 0 ==> TruncDiv(a, b) <= 0 && 0 - b < a - TruncDiv(a, b) * b <= 0
  {
    if a >= 0 {
      DivBand(a, b);
    } else {
      DivBand(-a, b);
      NegatedProduct((-a) / b, b);
    }
  }

  lemma TruncDivAtLeast(a: int, b: nat, c: int)
    requires b > 0
    ensures TruncDiv(a, b) >= c <==> if c > 0 then a >= c * b else a > (c - 1) * b
  {
    TruncDivBand(a, b);
    hide TruncDiv;
    var t := TruncDiv(a, b);
    MultiplesApart(t, c, b);
    MultiplesApart(c - 1, c, b);
    AtLeastLinear(a, b, t, c, t * b, c * b, (c - 1) * b);
  }

  lemma MultiplesApart(t: int, c: int, b: nat)
    ensures t >= c ==> t * b >= c * b
    ensures t < c ==> t * b + b <= c * b
    ensures t == c - 1 ==> t * b + b == c * b
  {
    var d := c - t;
    assert c * b == t * b + d * b;
    if t < c {
      ScaleUp(1, d, b);
    } else {
      ScaleUp(d, 0, b);
    }
  }

  lemma AtLeastLinear(a: int, b: nat, t: int, c: int, tb: int, cb: int, below: int)
    requires b > 0 && below + b == cb
    requires a >= 0 ==> t >= 0 && 0 <= a - tb < b
    requires a < 0 ==> t <= 0 && 0 - b < a - tb <= 0
    requires (t >= c ==> tb >= cb) && (t < c ==> tb + b <= cb)
    ensures t >= c <==> if c > 0 then a >= cb else a > below
  {
  }

  /** Numerators for which the formula cannot be negative; for P7 = 0 the two tests are complements. */
  ghost predicate SurelyPositive(cal: PressCal, adc: Reading, fine: int) {
    var n, d := Numerator(cal, adc, fine - 128000), Divisor(cal, fine - 128000);
    var c := if cal.p7 >= 0 then -2048 * cal.p7 - 1 else 1 - 8192 * cal.p7;
    if cal.p7 >= 0 then n > c * d else n >= c * d
  }

  /** Numerators for which the formula is negative. */
  ghost predicate SurelyNegative(cal: PressCal, adc: Reading, fine: int) {
    var n, d := Numerator(cal, adc, fine - 128000), Divisor(cal, fine - 128000);
    var c := if cal.p7 >= 0 then -8192 * cal.p7 - 1 else 1 - 2048 * cal.p7;
    if cal.p7 >= 0 then n <= c * d else n < c * d
  }

  /** The sign of the formula from reading, calibration and fine temperature, without computing it. */
  lemma PressureSign(cal: PressCal, adc: Reading, fine: int)
    requires Typical(cal) && Operating(fine) && Within(Excess(cal, adc, fine - 128000), EXCESS_LIMIT)
    ensures SurelyPositive(cal, adc, fine) ==> PressureExact(cal, adc, fine) >= 0
    ensures SurelyNegative(cal, adc, fine) ==> PressureExact(cal, adc, fine) < 0
    ensures cal.p7 == 0 ==>
              (PressureExact(cal, adc, fine) < 0
               <==> Numerator(cal, adc, fine - 128000) <= -Divisor(cal, fine - 128000))
  {
    var v := fine - 128000;
    DivisorBound(cal, v);
    QuotientBound(cal, adc, v);
    var n, d, p := Numerator(cal, adc, v), Divisor(cal, v), Quotient(cal, adc, v);
    assert p == TruncDiv(n, d);
    hide Numerator, Divisor, Quotient, TruncDiv;
    LevelBand(cal, p);
    if cal.p7 >= 0 {
      TruncDivAtLeast(n, d, -2048 * cal.p7);
      TruncDivAtLeast(n, d, -8192 * cal.p7);
    } else {
      TruncDivAtLeast(n, d, 1 - 8192 * cal.p7);
      TruncDivAtLeast(n, d, 1 - 2048 * cal.p7);
    }
    SignOfPascal(cal, p);
  }

  lemma SignOfPascal(cal: PressCal, p: int)
    requires Within(p, QUOTIENT_LIMIT)
    ensures cal.p7 >= 0 && p >= -2048 * cal.p7 ==> Pascal(cal, p) >= 0
    ensures cal.p7 >= 0 && p < -8192 * cal.p7 ==> Pascal(cal, p) < 0
    ensures cal.p7 < 0 && p >= 1 - 8192 * cal.p7 ==> Pascal(cal, p) >= 0
    ensures cal.p7 < 0 && p < 1 - 2048 * cal.p7 ==> Pascal(cal, p) < 0
  {
    LevelBand(cal, p);
    hide Level;
  }

  /**
   For one calibration and fine temperature the readings with a non-negative formula are those
   below a crossing, and the returned pressure rises between two readings exactly when the
   crossing lies between them. The two tests on the numerator bound the crossing from both sides.
   */
  lemma PressureCrossing(cal: PressCal, fine: int) returns (crossing: nat)
    requires Calibrated(cal) && Operating(fine) && Within(cal.p9, 16000)
    ensures forall low: Reading, high: Reading | low <= high ::
              Pressure64(cal, high, fine) <= Pressure64(cal, low, fine) <==> !(low < crossing <= high)
    ensures forall adc: Reading | SurelyPositive(cal, adc, fine) :: adc < crossing
    ensures forall adc: Reading | SurelyNegative(cal, adc, fine) :: crossing <= adc
  {
    hide PressureExact, Pressure64, SurelyPositive, SurelyNegative, Excess;
    crossing := FirstNegative(cal, fine, 0x10_0000);
    forall low: Reading, high: Reading | low <= high
      ensures Pressure64(cal, high, fine) <= Pressure64(cal, low, fine) <==> !(low < crossing <= high)
    {
      PressureAntitoneIff(cal, low, high, fine);
    }
    forall adc: Reading
      ensures SurelyPositive(cal, adc, fine) ==> adc < crossing
      ensures SurelyNegative(cal, adc, fine) ==> crossing <= adc
    {
      ExcessBound(cal, adc, fine - 128000);
      PressureSign(cal, adc, fine);
    }
  }

  lemma {:induction false} FirstNegative(cal: PressCal, fine: int, k: nat) returns (crossing: nat)
    requires Calibrated(cal) && Operating(fine) && Within(cal.p9, 16000) && k <= 0x10_0000
    ensures crossing <= k
    ensures forall adc: Reading | adc < k :: PressureExact(cal, adc, fine) >= 0 <==> adc < crossing
    decreases k
  {
    hide PressureExact;
    if k == 0 {
      crossing := 0;
    } else {
      crossing := FirstNegative(cal, fine, k - 1);
      if PressureExact(cal, k - 1, fine) >= 0 {
        crossing := k;
        forall adc: Reading | adc < k ensures PressureExact(cal, adc, fine) >= 0 {
          PressureExactAntitone(cal, adc, k - 1, fine);
        }
      }
    }
  }

  /** With an ordinary calibration at 25 degrees the crossing is among the readings. */
  lemma PressureWraps()
    ensures var cal := PressCal(36477, -10685, 3024, 2855, 140, -7, 15500, -14600, 6000);
      && Calibrated(cal) && Operating(128000) && Within(cal.p9, 16000)
      && SurelyPositive(cal, 0, 128000) && SurelyNegative(cal, 0xF_FFFF, 128000)
      && Pressure64(cal, 0, 128000) < Pressure64(cal, 0xF_FFFF, 128000)
  {
    var cal := PressCal(36477, -10685, 3024, 2855, 140, -7, 15500, -14600, 6000);
    AtZero(cal);
    hide Bias, Slope, Pressure64, PressureExact;
    assert Divisor(cal, 0) == 597639168;
    ExcessBound(cal, 0, 0);
    ExcessBound(cal, 0xF_FFFF, 0);
    assert SurelyPositive(cal, 0, 128000) && SurelyNegative(cal, 0xF_FFFF, 128000);
    PressureSign(cal, 0, 128000);
    PressureSign(cal, 0xF_FFFF, 128000);
    PressureAntitoneIff(cal, 0, 0xF_FFFF, 128000);
  }

  // ---------------------------------------------------------------- a measurement

  /** The 20 bits of a reading, from its three registers. */
  function Raw(msb: byte, lsb: byte, xlsb: byte): (r: Reading)
    ensures r / 16 == msb * 256 + lsb && r % 16 == xlsb / 16
  {
    msb * 4096 + lsb * 16 + xlsb / 16
  }

  datatype Measurement = Measurement(temperature: int, pressure: int)

  /** The two values of `BMP280_read_fixed`, from the registers read in one sequence. */
  function ReadFixed(tcal: TempCal, pcal: PressCal, data: seq<byte>): Measurement
    requires |data| >= 6
  {
    var t := Temperature32(tcal, Raw(data[3], data[4], data[5]));
    Measurement(t.celsius, Pressure64(pcal, Raw(data[0], data[1], data[2]), t.fine))
  }

  /**
   A measurement is the datasheet's whenever neither computation overflows: the pressure uses the
   fine temperature of the same burst, which is always small enough for `PressureOverflowIff`.
   */
  lemma ReadFixedExact(tcal: TempCal, pcal: PressCal, data: seq<byte>)
    requires |data| >= 6
    requires var adcT, adcP := Raw(data[3], data[4], data[5]), Raw(data[0], data[1], data[2]);
      Safe(tcal, adcT) && Safe64(pcal, adcP, TemperatureExact(tcal, adcT).fine - 128000)
    ensures var adcT, adcP := Raw(data[3], data[4], data[5]), Raw(data[0], data[1], data[2]);
      var fine := TemperatureExact(tcal, adcT).fine;
      && NoOverflow(tcal, adcT) && NoOverflow64(pcal, adcP, fine - 128000)
      && ReadFixed(tcal, pcal, data).temperature == Celsius(fine)
      && ReadFixed(tcal, pcal, data).pressure == PressureExact(pcal, adcP, fine) % 0x1_0000_0000
  {
    var adcT, adcP := Raw(data[3], data[4], data[5]), Raw(data[0], data[1], data[2]);
    var fine := TemperatureExact(tcal, adcT).fine;
    NoOverflowIff(tcal, adcT);
    SafeIsExact(tcal, adcT);
    SafeFineSmall(tcal, adcT);
    hide Temperature32, NoOverflow, NoOverflow64, Safe, Safe64, Raw, Pressure64, PressureExact;
    PressureOverflowIff(pcal, adcP, fine - 128000);
    NoOverflowIsExact(pcal, adcP, fine);
  }

  lemma SafeFineSmall(cal: TempCal, adc: Reading)
    requires Safe(cal, adc)
    ensures Within(TemperatureExact(cal, adc).fine, 1179648)
  {
    var x, d := adc / 8 - 2 * cal.t1, Offset(cal, adc);
    FineSmall(x * cal.t2, (d * d / 4096) * cal.t3);
  }
}
