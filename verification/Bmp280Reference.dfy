/**
 The driver's integer results against the real-valued compensation formulas that the Bosch BMP280
 datasheet (BST-BMP280-DS001) gives in its appendix for floating point: how far rounding can take
 them apart.
 */
module Bmp280Reference {
  import opened Types
  import opened Bmp280

  // ---------------------------------------------------------------- integers as reals

  lemma {:induction false} RealOfNatProduct(a: nat, b: int)
    ensures (a * b) as real == a as real * b as real
  {
    if a > 0 {
      RealOfNatProduct(a - 1, b);
      assert a * b == (a - 1) * b + b;
      assert a as real == (a - 1) as real + 1.0;
    }
  }

  lemma RealOfProduct(a: int, b: int)
    ensures (a * b) as real == a as real * b as real
  {
    if a >= 0 {
      RealOfNatProduct(a, b);
    } else {
      RealOfNatProduct(-a, b);
      assert a * b == -((-a) * b);
    }
  }

  ghost predicate Near(x: real, y: real, bound: real) {
    -bound <= x - y <= bound
  }

  // ---------------------------------------------------------------- temperature

  /** The fine temperature, as the datasheet computes it in floating point. */
  function ReferenceFine(cal: TempCal, adc: Reading): real {
    var var1 := (adc as real / 16384.0 - cal.t1 as real / 1024.0) * cal.t2 as real;
    var x := adc as real / 131072.0 - cal.t1 as real / 8192.0;
    var1 + x * x * cal.t3 as real
  }

  /** Degrees Celsius. */
  function ReferenceCelsius(cal: TempCal, adc: Reading): real {
    ReferenceFine(cal, adc) / 5120.0
  }

  /** The same times 2 to the 34th, which is an integer. */
  function ScaledFine(cal: TempCal, u: int): int {
    0x10_0000 * (u * cal.t2) + u * u * cal.t3
  }

  lemma ReferenceFineScaled(cal: TempCal, adc: Reading)
    ensures 17179869184.0 * ReferenceFine(cal, adc) == ScaledFine(cal, adc - 16 * cal.t1) as real
  {
    var u := adc - 16 * cal.t1;
    var r, t2, t3 := u as real, cal.t2 as real, cal.t3 as real;
    RealOfProduct(u, cal.t2);
    RealOfProduct(u, u);
    RealOfProduct(u * u, cal.t3);
    var x := adc as real / 131072.0 - cal.t1 as real / 8192.0;
    assert x == r / 131072.0;
    assert adc as real / 16384.0 - cal.t1 as real / 1024.0 == r / 16384.0;
    TemperatureScale(r, t2, t3);
  }

  lemma TemperatureScale(r: real, t2: real, t3: real)
    ensures 17179869184.0 * ((r / 16384.0) * t2 + (r / 131072.0) * (r / 131072.0) * t3)
         == 1048576.0 * (r * t2) + r * r * t3
  {
    assert (r / 16384.0) * t2 == (r * t2) / 16384.0;
    assert (r / 131072.0) * (r / 131072.0) == (r * r) / 17179869184.0;
    assert ((r * r) / 17179869184.0) * t3 == (r * r * t3) / 17179869184.0;
  }

  lemma LinearRounding(cal: TempCal, adc: Reading)
    ensures var u, x := adc - 16 * cal.t1, adc / 8 - 2 * cal.t1;
      Within(16384 * Linear(cal, x) - u * cal.t2, 245752)
  {
    var u, x, r := adc - 16 * cal.t1, adc / 8 - 2 * cal.t1, adc % 8;
    assert u == 8 * x + r;
    assert u * cal.t2 == 8 * (x * cal.t2) + r * cal.t2;
    ProductWithin(r, cal.t2, 7, 32768);
    FloorShift(x * cal.t2);
  }

  lemma FloorShift(y: int)
    ensures 0 <= 8 * y - 16384 * (y / 2048) <= 16376
  {
  }

  lemma QuadraticRounding(cal: TempCal, adc: Reading)
    requires InRange(cal, adc)
    ensures var u, d := adc - 16 * cal.t1, Offset(cal, adc);
      Within(0x4_0000_0000 * Quadratic(cal, d) - u * u * cal.t3, 9 * 0x4_0000_0000)
  {
    var u, d, r := adc - 16 * cal.t1, Offset(cal, adc), adc % 16;
    assert u == 16 * d + r;
    var e := d * d / 4096;
    var lost := d * d - 4096 * e;
    assert 0 <= lost <= 4095;
    ProductWithin(d, r, 32767, 15);
    ProductWithin(r, r, 15, 15);
    SquareOfSum(d, r);
    var gap := 32 * (d * r) + r * r + 256 * lost;
    assert u * u == 0x10_0000 * e + gap;
    ProductWithin(gap, cal.t3, 32 * 491505 + 225 + 256 * 4095, 8191);
    assert u * u * cal.t3 == 0x10_0000 * (e * cal.t3) + gap * cal.t3 by {
      assert (0x10_0000 * e + gap) * cal.t3 == 0x10_0000 * e * cal.t3 + gap * cal.t3;
    }
    FloorQuadratic(e * cal.t3);
  }

  lemma SquareOfSum(d: int, r: int)
    ensures (16 * d + r) * (16 * d + r) == 256 * (d * d) + 32 * (d * r) + r * r
  {
  }

  lemma FloorQuadratic(y: int)
    ensures 0 <= 0x10_0000 * y - 0x4_0000_0000 * (y / 16384) <= 17178820608
  {
  }

  /** The driver's fine temperature is within 24 counts, 0.005 degrees, of the reference. */
  lemma FineNearReference(cal: TempCal, adc: Reading)
    requires InRange(cal, adc)
    ensures Near(Temperature32(cal, adc).fine as real, ReferenceFine(cal, adc), 24.0)
  {
    TemperatureDoesNotOverflow(cal, adc);
    LinearRounding(cal, adc);
    QuadraticRounding(cal, adc);
    ReferenceFineScaled(cal, adc);
    var u, x, d := adc - 16 * cal.t1, adc / 8 - 2 * cal.t1, Offset(cal, adc);
    hide Linear, Quadratic, Temperature32, NoOverflow, ReferenceFine;
    var fine := Linear(cal, x) + Quadratic(cal, d);
    assert Within(0x4_0000_0000 * fine - ScaledFine(cal, u), 24 * 0x4_0000_0000);
    assert (0x4_0000_0000 * fine - ScaledFine(cal, u)) as real
        == 17179869184.0 * fine as real - ScaledFine(cal, u) as real;
  }

  lemma CelsiusRounding(fine: int)
    ensures Within(256 * Celsius(fine) - 5 * fine, 128)
  {
  }

  /** The driver's result, in hundredths, is within one hundredth of a degree of the reference. */
  lemma TemperatureNearReference(cal: TempCal, adc: Reading)
    requires InRange(cal, adc)
    ensures Near(Temperature32(cal, adc).celsius as real / 100.0, ReferenceCelsius(cal, adc), 0.01)
  {
    FineNearReference(cal, adc);
    TemperatureDoesNotOverflow(cal, adc);
    var fine := TemperatureExact(cal, adc).fine;
    CelsiusRounding(fine);
    hide Linear, Quadratic, Temperature32, NoOverflow, ReferenceFine, Celsius;
    assert (256 * Celsius(fine) - 5 * fine) as real == 256.0 * Celsius(fine) as real - 5.0 * fine as real;
  }

  // ---------------------------------------------------------------- pressure

  /** `var1` of the datasheet before the division. */
  function ReferenceDivisor(cal: PressCal, fine: int): real {
    var var1 := fine as real / 2.0 - 64000.0;
    var slope := (cal.p3 as real * var1 * var1 / 524288.0 + cal.p2 as real * var1) / 524288.0;
    (1.0 + slope / 32768.0) * cal.p1 as real
  }

  /** The numerator of the datasheet, before it is scaled. */
  function ReferenceExcess(cal: PressCal, adc: Reading, fine: int): real {
    var var1 := fine as real / 2.0 - 64000.0;
    var var2 := var1 * var1 * cal.p6 as real / 32768.0 + var1 * cal.p5 as real * 2.0;
    1048576.0 - adc as real - (var2 / 4.0 + cal.p4 as real * 65536.0) / 4096.0
  }

  /** The last lines of the datasheet. */
  function ReferenceCorrected(cal: PressCal, p: real): real {
    p + (cal.p9 as real * p * p / 2147483648.0 + p * cal.p8 as real / 32768.0 + cal.p7 as real) / 16.0
  }

  /** Pascals, as the datasheet computes them in floating point from the fine temperature. */
  function ReferencePressure(cal: PressCal, adc: Reading, fine: int): real {
    var var1 := ReferenceDivisor(cal, fine);
    if var1 == 0.0 then 0.0
    else ReferenceCorrected(cal, ReferenceExcess(cal, adc, fine) * 6250.0 / var1)
  }

  // the divisor

  function ScaledSlope(cal: PressCal, v: int): int {
    0x80_0000_0000_0000 + v * v * cal.p3 + 0x10_0000 * (v * cal.p2)
  }

  lemma DivisorScaled(cal: PressCal, fine: int)
    ensures 36028797018963968.0 * ReferenceDivisor(cal, fine)
         == (ScaledSlope(cal, fine - 128000) * cal.p1) as real
  {
    var v := fine - 128000;
    RealOfProduct(v, v);
    RealOfProduct(v * v, cal.p3);
    RealOfProduct(v, cal.p2);
    RealOfProduct(ScaledSlope(cal, v), cal.p1);
    var r := v as real;
    assert fine as real / 2.0 - 64000.0 == r / 2.0;
    SlopeScale(r, cal.p2 as real, cal.p3 as real);
    var slope := (cal.p3 as real * (r / 2.0) * (r / 2.0) / 524288.0 + cal.p2 as real * (r / 2.0)) / 524288.0;
    var s := 1.0 + slope / 32768.0;
    assert 36028797018963968.0 * s == ScaledSlope(cal, v) as real;
    assert (36028797018963968.0 * s) * cal.p1 as real == 36028797018963968.0 * (s * cal.p1 as real);
  }

  lemma SlopeScale(r: real, p2: real, p3: real)
    ensures var slope := (p3 * (r / 2.0) * (r / 2.0) / 524288.0 + p2 * (r / 2.0)) / 524288.0;
      36028797018963968.0 * (1.0 + slope / 32768.0) == 36028797018963968.0 + r * r * p3 + 1048576.0 * (r * p2)
  {
    assert p3 * (r / 2.0) * (r / 2.0) == (r * r * p3) / 4.0;
    assert p2 * (r / 2.0) == (r * p2) / 2.0;
  }

  lemma DivisorRounding(cal: PressCal, v: int)
    ensures var lost := ScaledSlope(cal, v) * cal.p1 - 0x200_0000_0000 * Divisor(cal, v);
      0 <= lost < 0x200_0000_0000 + 256 * 65536
  {
    var y := v * v * cal.p3;
    var r := y - 256 * (y / 256);
    assert 256 * (0x8000_0000_0000 + Slope(cal, v)) == ScaledSlope(cal, v) - r;
    assert 256 * Scaled(cal, v) == ScaledSlope(cal, v) * cal.p1 - r * cal.p1 by {
      assert (ScaledSlope(cal, v) - r) * cal.p1 == ScaledSlope(cal, v) * cal.p1 - r * cal.p1;
      assert 256 * ((0x8000_0000_0000 + Slope(cal, v)) * cal.p1) == (256 * (0x8000_0000_0000 + Slope(cal, v))) * cal.p1;
    }
    ProductGrows(r, cal.p1, 255, 65535);
    hide ScaledSlope, Slope, Scaled;
    FloorDivisor(Scaled(cal, v));
  }

  lemma FloorDivisor(y: int)
    ensures 0 <= y - 0x2_0000_0000 * (y / 0x2_0000_0000) < 0x2_0000_0000
  {
  }

  // the numerator

  lemma ExcessScaled(cal: PressCal, adc: Reading, fine: int)
    ensures 2147483648.0 * ReferenceExcess(cal, adc, fine) == Excess(cal, adc, fine - 128000) as real
  {
    var v := fine - 128000;
    RealOfProduct(v, v);
    RealOfProduct(v * v, cal.p6);
    RealOfProduct(v, cal.p5);
    var r := v as real;
    assert fine as real / 2.0 - 64000.0 == r / 2.0;
    BiasScale(r, cal.p4 as real, cal.p5 as real, cal.p6 as real);
  }

  lemma BiasScale(r: real, p4: real, p5: real, p6: real)
    ensures var var2 := (r / 2.0) * (r / 2.0) * p6 / 32768.0 + (r / 2.0) * p5 * 2.0;
      2147483648.0 * ((var2 / 4.0 + p4 * 65536.0) / 4096.0)
      == r * r * p6 + r * p5 * 131072.0 + p4 * 34359738368.0
  {
    assert (r / 2.0) * (r / 2.0) * p6 == (r * r * p6) / 4.0;
    assert (r / 2.0) * p5 == (r * p5) / 2.0;
  }

  // the quotient

  lemma Cancel(x: real, y: real, product: real, bound: real)
    requires y > 0.0 && product == x * y && -(bound * y) <= product <= bound * y
    ensures -bound <= x <= bound
  {
  }

  /** A rounded quotient by a rounded divisor. */
  lemma QuotientNear(q: real, d: real, n: real, exact: real, p: real)
    requires d >= 409159160.0 && -d <= q * d - n <= d
    requires d <= exact <= d + 1.00001
    requires -22600000000.0 <= q <= 22600000000.0 && p * exact == n
    ensures Near(q, p, 57.0)
  {
    var gap := exact - d;
    RealWithin(q, gap, 22600000000.0, 1.00001);
    assert (q - p) * exact == (q * d - n) + q * gap by {
      assert (q - p) * exact == q * exact - p * exact;
      assert q * exact == q * d + q * gap;
    }
    assert d + 22600226000.0 <= 57.0 * exact;
    var x := (q - p) * exact;
    assert -(57.0 * exact) <= x <= 57.0 * exact;
    Cancel(q - p, exact, x, 57.0);
  }

  // the corrections

  function ScaledCorrected(cal: PressCal, p: int): int {
    0x8_0000_0000_0000 * p + cal.p9 * (p * p) + 0x1_0000_0000 * (cal.p8 * p)
  }

  /** Rounding in the last lines, in units of 1/256 pascal times 2 to the 33rd. */
  lemma PascalRounding(cal: PressCal, p: int)
    ensures var m := p / 8192;
      var sum := 0x200_0000 * p + cal.p9 * (m * m) + 64 * (cal.p8 * p);
      sum - 257 * 0x200_0000 < 0x2_0000_0000 * (Pascal(cal, p) - 16 * cal.p7) <= sum
  {
    var m := p / 8192;
    assert cal.p9 * m * m == cal.p9 * (m * m);
    FloorBy(cal.p9 * (m * m), 0x200_0000);
    FloorBy(cal.p8 * p, 0x8_0000);
    FloorBy(Level(cal, p), 256);
    assert Square9(cal, p) == cal.p9 * (m * m) / 0x200_0000;
    assert Linear8(cal, p) == cal.p8 * p / 0x8_0000;
    hide Square9, Linear8;
  }

  lemma FloorBy(y: int, unit: nat)
    requires unit > 0
    ensures 0 <= y - unit * (y / unit) < unit
  {
  }

  lemma SquareRounding(cal: PressCal, p: int)
    requires Within(p, QUOTIENT_LIMIT)
    ensures var m := p / 8192;
      Within(0x400_0000 * (cal.p9 * (m * m)) - cal.p9 * (p * p), 12131984637424500000)
  {
    var m, s := p / 8192, p % 8192;
    assert p == 8192 * m + s;
    assert p * p == 0x400_0000 * (m * m) + s * (2 * p - s) by {
      assert (8192 * m + s) * (8192 * m + s) == 0x400_0000 * (m * m) + 16384 * (m * s) + s * s;
      assert s * (2 * p - s) == 2 * (s * p) - s * s;
      assert s * p == 8192 * (m * s) + s * s;
    }
    ProductWithin(s, 2 * p - s, 8191, 45200008191);
    ProductWithin(cal.p9, s * (2 * p - s), 32768, 8191 * 45200008191);
    assert cal.p9 * (p * p) == 0x400_0000 * (cal.p9 * (m * m)) + cal.p9 * (s * (2 * p - s)) by {
      assert cal.p9 * (0x400_0000 * (m * m) + s * (2 * p - s))
          == cal.p9 * (0x400_0000 * (m * m)) + cal.p9 * (s * (2 * p - s));
      assert cal.p9 * (0x400_0000 * (m * m)) == 0x400_0000 * (cal.p9 * (m * m));
    }
  }

  lemma CorrectedRounding(cal: PressCal, p: int)
    requires Within(p, QUOTIENT_LIMIT)
    ensures Within(0x800_0000_0000_0000 * (Pascal(cal, p) - 16 * cal.p7) - ScaledCorrected(cal, p),
                   23 * 0x800_0000_0000_0000)
  {
    PascalRounding(cal, p);
    SquareRounding(cal, p);
    hide Pascal;
  }

  /** The corrected value at a real quotient, in units of 1/256 pascal without P7. */
  function Corrected(cal: PressCal, p: real): real {
    (p + cal.p9 as real * (p * p) / 2251799813685248.0 + cal.p8 as real * p / 524288.0) / 256.0
  }

  lemma CorrectedScaled(cal: PressCal, p: int)
    ensures 576460752303423488.0 * Corrected(cal, p as real) == ScaledCorrected(cal, p) as real
  {
    RealOfProduct(p, p);
    RealOfProduct(cal.p9, p * p);
    RealOfProduct(cal.p8, p);
  }

  lemma CorrectedGap(p8: real, p9: real, q: real, p: real)
    requires -32768.0 <= p8 <= 32768.0 && -32768.0 <= p9 <= 32768.0
    requires -22600000000.0 <= q <= 22600000000.0 && -57.0 <= q - p <= 57.0
    ensures Near(p9 * (q * q), p9 * (p * p), 32768.0 * (57.0 * 45200000057.0))
    ensures Near(p8 * q, p8 * p, 32768.0 * 57.0)
  {
    var d, s := q - p, q + p;
    RealWithin(d, s, 57.0, 45200000057.0);
    RealWithin(p9, d * s, 32768.0, 57.0 * 45200000057.0);
    RealWithin(p8, d, 32768.0, 57.0);
    Distribute(p9, q, p);
  }

  lemma Distribute(p9: real, q: real, p: real)
    ensures p9 * (q * q) - p9 * (p * p) == p9 * ((q - p) * (q + p))
  {
    assert q * q - p * p == (q - p) * (q + p);
    assert p9 * (q * q - p * p) == p9 * (q * q) - p9 * (p * p);
  }

  lemma CorrectedNear(cal: PressCal, q: real, p: real)
    requires -22600000000.0 <= q <= 22600000000.0 && Near(q, p, 57.0)
    ensures Near(Corrected(cal, q), Corrected(cal, p), 0.4)
  {
    CorrectedGap(cal.p8 as real, cal.p9 as real, q, p);
    var a, b := cal.p9 as real * (q * q), cal.p9 as real * (p * p);
    var c, d := cal.p8 as real * q, cal.p8 as real * p;
    assert Corrected(cal, q) == (q + a / 2251799813685248.0 + c / 524288.0) / 256.0;
    assert Corrected(cal, p) == (p + b / 2251799813685248.0 + d / 524288.0) / 256.0;
    hide Corrected;
    CorrectedSum(q, p, a, b, c, d);
  }

  lemma CorrectedSum(q: real, p: real, a: real, b: real, c: real, d: real)
    requires Near(q, p, 57.0) && Near(a, b, 32768.0 * (57.0 * 45200000057.0)) && Near(c, d, 32768.0 * 57.0)
    ensures Near((q + a / 2251799813685248.0 + c / 524288.0) / 256.0,
                 (p + b / 2251799813685248.0 + d / 524288.0) / 256.0, 0.4)
  {
  }

  lemma RealWithin(a: real, b: real, boundA: real, boundB: real)
    requires -boundA <= a <= boundA && -boundB <= b <= boundB
    ensures -(boundA * boundB) <= a * b <= boundA * boundB
  {
    assert (boundA - a) * (boundB + b) >= 0.0;
    assert (boundA + a) * (boundB - b) >= 0.0;
    assert (boundA - a) * (boundB - b) >= 0.0;
    assert (boundA + a) * (boundB + b) >= 0.0;
  }

  /** The datasheet's last lines in those units. */
  lemma ReferenceInUnits(cal: PressCal, p: real)
    ensures 256.0 * ReferenceCorrected(cal, p / 65536.0) == Corrected(cal, p) + 16.0 * cal.p7 as real
  {
    var x, p8, p9 := p / 65536.0, cal.p8 as real, cal.p9 as real;
    assert x * x == (p * p) / 4294967296.0;
    assert p9 * x * x == p9 * (x * x);
    assert p9 * ((p * p) / 4294967296.0) == (p9 * (p * p)) / 4294967296.0;
    assert x * p8 == (p8 * p) / 65536.0;
  }

  // all together

  lemma QuotientNearReference(cal: PressCal, adc: Reading, fine: int)
    requires Typical(cal) && Operating(fine) && Within(Excess(cal, adc, fine - 128000), EXCESS_LIMIT)
    ensures ReferenceDivisor(cal, fine) > 0.0
    ensures Near(Quotient(cal, adc, fine - 128000) as real,
                 65536.0 * (ReferenceExcess(cal, adc, fine) * 6250.0 / ReferenceDivisor(cal, fine)), 57.0)
  {
    var v := fine - 128000;
    QuotientParts(cal, adc, v);
    DivisorScaled(cal, fine);
    DivisorRounding(cal, v);
    ExcessScaled(cal, adc, fine);
    hide *;
    NearFromParts(ScaledSlope(cal, v) * cal.p1, Divisor(cal, v), Excess(cal, adc, v), Quotient(cal, adc, v),
                  ReferenceDivisor(cal, fine), ReferenceExcess(cal, adc, fine));
  }

  lemma QuotientParts(cal: PressCal, adc: Reading, v: int)
    requires Typical(cal) && Within(v, 332800) && Within(Excess(cal, adc, v), EXCESS_LIMIT)
    ensures Divisor(cal, v) >= 409159160
    ensures var q, d := Quotient(cal, adc, v), Divisor(cal, v);
      Within(q, 22600000000) && 0 - d < Excess(cal, adc, v) * 3125 - q * d < d
  {
    DivisorBound(cal, v);
    QuotientBound(cal, adc, v);
    hide Divisor, Excess, Scaled;
    TruncDivParts(Numerator(cal, adc, v), Divisor(cal, v));
  }

  lemma NearFromParts(all: int, d: int, excess: int, q: int, w: real, z: real)
    requires 36028797018963968.0 * w == all as real && 2147483648.0 * z == excess as real
    requires 0 <= all - 0x200_0000_0000 * d < 0x200_0000_0000 + 256 * 65536 && d >= 409159160
    requires Within(q, 22600000000) && 0 - d < excess * 3125 - q * d < d
    ensures w > 0.0 && Near(q as real, 65536.0 * (z * 6250.0 / w), 57.0)
  {
    RealBetween(all, d, w);
    var p := 65536.0 * (z * 6250.0 / w);
    QuotientTimes(z, w, p);
    var n := excess * 3125;
    assert n as real == 2147483648.0 * z * 3125.0;
    RealGap(n, q * d, d);
    RealOfProduct(q, d);
    QuotientNear(q as real, d as real, n as real, 16384.0 * w, p);
  }

  lemma RealBetween(all: int, d: int, w: real)
    requires 2199023255552.0 * (16384.0 * w) == all as real
    requires 0 <= all - 0x200_0000_0000 * d < 0x200_0000_0000 + 256 * 65536 && d >= 409159160
    ensures d as real <= 16384.0 * w <= d as real + 1.00001 && w > 0.0
  {
    assert (all - 0x200_0000_0000 * d) as real == all as real - 2199023255552.0 * d as real;
  }

  lemma RealGap(a: int, b: int, d: int)
    requires 0 - d < a - b < d
    ensures -(d as real) <= a as real - b as real <= d as real
  {
    assert (a - b) as real == a as real - b as real;
  }

  lemma QuotientTimes(z: real, w: real, p: real)
    requires w != 0.0 && p == 65536.0 * (z * 6250.0 / w)
    ensures p * (16384.0 * w) == 2147483648.0 * z * 3125.0
  {
    var x := z * 6250.0 / w;
    assert x * w == z * 6250.0;
  }

  /**
   Whenever the computation does not overflow in operation, for every P4 to P9: the value the driver
   computes, in units of 1/256 pascal, is within a tenth of a pascal of the reference.
   */
  lemma PressureNearReference(cal: PressCal, adc: Reading, fine: int)
    requires Typical(cal) && Operating(fine) && NoOverflow64(cal, adc, fine - 128000)
    ensures Near(PressureExact(cal, adc, fine) as real / 256.0, ReferencePressure(cal, adc, fine), 0.1)
    ensures Pressure64(cal, adc, fine) == PressureExact(cal, adc, fine) % 0x1_0000_0000
  {
    var v := fine - 128000;
    NoOverflowIsExact(cal, adc, fine);
    OperatingOverflowIff(cal, adc, fine);
    QuotientNearReference(cal, adc, fine);
    DivisorBound(cal, v);
    QuotientBound(cal, adc, v);
    var q := Quotient(cal, adc, v);
    assert PressureExact(cal, adc, fine) == Pascal(cal, q);
    CorrectedRounding(cal, q);
    CorrectedScaled(cal, q);
    var x := ReferenceExcess(cal, adc, fine) * 6250.0 / ReferenceDivisor(cal, fine);
    assert ReferencePressure(cal, adc, fine) == ReferenceCorrected(cal, x);
    CorrectedNear(cal, q as real, 65536.0 * x);
    ReferenceInUnits(cal, 65536.0 * x);
    assert 65536.0 * x / 65536.0 == x;
    hide *;
    FromUnits(cal, Pascal(cal, q), ScaledCorrected(cal, q), Corrected(cal, q as real), Corrected(cal, 65536.0 * x),
              ReferenceCorrected(cal, x));
  }

  lemma FromUnits(cal: PressCal, pascal: int, scaled: int, atQuotient: real, atReference: real, reference: real)
    requires Within(0x800_0000_0000_0000 * (pascal - 16 * cal.p7) - scaled, 23 * 0x800_0000_0000_0000)
    requires 576460752303423488.0 * atQuotient == scaled as real
    requires Near(atQuotient, atReference, 0.4)
    requires 256.0 * reference == atReference + 16.0 * cal.p7 as real
    ensures Near(pascal as real / 256.0, reference, 0.1)
  {
    assert (0x800_0000_0000_0000 * (pascal - 16 * cal.p7) - scaled) as real
        == 576460752303423488.0 * (pascal as real - 16.0 * cal.p7 as real) - scaled as real;
  }

  /** A whole measurement: both values near the reference, the pressure for the fine temperature of the burst. */
  lemma MeasurementNearReference(tcal: TempCal, pcal: PressCal, data: seq<byte>)
    requires |data| >= 6 && Typical(pcal)
    requires var adcT, adcP := Raw(data[3], data[4], data[5]), Raw(data[0], data[1], data[2]);
      var fine := TemperatureExact(tcal, adcT).fine;
      InRange(tcal, adcT) && Operating(fine) && NoOverflow64(pcal, adcP, fine - 128000)
      && 0 <= PressureExact(pcal, adcP, fine) < 0x1_0000_0000
    ensures var adcT, adcP := Raw(data[3], data[4], data[5]), Raw(data[0], data[1], data[2]);
      var r, fine := ReadFixed(tcal, pcal, data), TemperatureExact(tcal, adcT).fine;
      && Near(r.temperature as real / 100.0, ReferenceCelsius(tcal, adcT), 0.01)
      && Near(fine as real, ReferenceFine(tcal, adcT), 24.0)
      && Near(r.pressure as real / 256.0, ReferencePressure(pcal, adcP, fine), 0.1)
  {
    hide Temperature32, TemperatureExact, NoOverflow, NoOverflow64, Raw, Pressure64, PressureExact, Near, InRange;
    hide ReferencePressure, ReferenceFine, ReferenceCelsius, Typical, Operating;
    var adcT, adcP := Raw(data[3], data[4], data[5]), Raw(data[0], data[1], data[2]);
    var fine := TemperatureExact(tcal, adcT).fine;
    TemperatureDoesNotOverflow(tcal, adcT);
    TemperatureNearReference(tcal, adcT);
    FineNearReference(tcal, adcT);
    PressureNearReference(pcal, adcP, fine);
    SmallModulus(PressureExact(pcal, adcP, fine));
  }

  lemma SmallModulus(x: int)
    requires 0 <= x < 0x1_0000_0000
    ensures x % 0x1_0000_0000 == x
  {
  }
}
