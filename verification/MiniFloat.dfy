/** The 15-bit floating-point code of a reading: a 4-bit exponent with subnormals and an 11-bit
    mantissa. Readings are kept as integers in thousandths. */
module MiniFloat {
  import opened Basics

  const INVALID := -2000  // the result "-2": not a number of the protocol
  const NO_REPLY := -1000  // the result "-1": no usable reply
  const MAX_READING := 255938

  /** What a query may return. */
  predicate IsReading(v: int) {
    v == INVALID || v == NO_REPLY || 0 <= v <= MAX_READING
  }

  function Pow2(n: nat): (p: nat)
    ensures p > 0
  {
    if n == 0 then 1 else 2 * Pow2(n - 1)
  }

  /** pow(2.0, k) for an integer k. */
  function Pow2Real(k: int): (p: real)
    ensures p > 0.0
  {
    if k >= 0 then Pow2(k) as real else 1.0 / Pow2(-k) as real
  }

  /** Rounding as written: add one half and truncate. The operand is never negative, so truncation is
      `Floor`. */
  function ToThousandths(v: real): int {
    (v * 1000.0 + 0.5).Floor
  }

  /** The decoder as written: sign bit, exponent and mantissa fields, then two branches over real
      arithmetic. */
  function DecodeData(high: nat, low: nat): int
    requires high < 256 && low < 256
  {
    if high / 128 != 0 then INVALID
    else DecodeFields(high / 8, 256 * (high % 8) + low)
  }

  function DecodeFields(exp: nat, man: nat): int {
    if exp >= 15 then INVALID
    else if exp == 0 then ToThousandths(Pow2Real(exp - 17) * man as real)
    else ToThousandths(Pow2Real(exp - 7) * (1.0 + man as real * Pow2Real(-11)))
  }

  // ---- The same format for any mantissa width m and any scale 2^b ----

  /** Exact magnitude of a code, in units of 2^-b: the significand shifted by the exponent. */
  function Magnitude(m: nat, exp: nat, man: nat): nat {
    Significand(m, exp, man) * Pow2(Max(exp, 1))
  }

  /** x / 2^b in thousandths, rounded to nearest. */
  function Thousandths(x: nat, b: nat): nat
    requires b > 0
  {
    Rounded(x, Pow2(b - 1), Pow2(b))
  }

  function Rounded(x: nat, half: nat, unit: nat): nat
    requires unit > 0
  {
    (x * 1000 + half) / unit
  }

  lemma {:induction false} Pow2Sum(a: nat, b: nat)
    ensures Pow2(a + b) == Pow2(a) * Pow2(b)
  {
    if a > 0 {
      Pow2Sum(a - 1, b);
      assert Pow2(a + b) == 2 * Pow2(a - 1 + b);
    }
  }

  lemma Pow2Mono(a: nat, b: nat)
    requires a <= b
    ensures Pow2(a) <= Pow2(b)
  {
    Pow2Sum(a, b - a);
    MulMono(1, Pow2(b - a), Pow2(a));
  }

  lemma MulMono(x: nat, y: nat, k: nat)
    requires x <= y
    ensures x * k <= y * k
  {
  }

  lemma StepUp(x: nat, y: nat, k: nat)
    requires x < y
    ensures x * k + k <= y * k
  {
    MulMono(x + 1, y, k);
    assert (x + 1) * k == x * k + k;
  }

  lemma MulMonoBoth(a: nat, x: nat, b: nat, y: nat)
    requires a <= b && x <= y
    ensures a * x <= b * y
  {
    MulMono(a, b, x);
    MulMono(x, y, b);
  }

  function Significand(m: nat, exp: nat, man: nat): nat {
    if exp > 0 then Pow2(m) + man else man
  }

  /** The code order is the order of magnitudes, across the subnormal seam and every exponent
      boundary, with a gap of at least one step of the smaller exponent. */
  lemma MagnitudeStrict(m: nat, e1: nat, man1: nat, e2: nat, man2: nat)
    requires man1 < Pow2(m) && man2 < Pow2(m)
    requires e1 < e2 || (e1 == e2 && man1 < man2)
    ensures Magnitude(m, e1, man1) + Pow2(Max(e1, 1)) <= Magnitude(m, e2, man2)
  {
    var s1, s2 := Significand(m, e1, man1), Significand(m, e2, man2);
    var k := Pow2(Max(e1, 1));
    if e1 == e2 {
      StepUp(s1, s2, k);
    } else {
      // the significand of e1, rounded up, fits below the first normal one at the next exponent
      var top := if e1 == 0 then Pow2(m) else 2 * Pow2(m);
      var next := Max(e1 + 1, 1);
      StepUp(s1, top, k);
      BoundaryFits(Pow2(m), e1);
      Pow2Mono(next, e2);
      MulMonoBoth(Pow2(m), Pow2(next), s2, Pow2(e2));
    }
  }

  lemma BoundaryFits(p: nat, exp: nat)
    ensures (if exp == 0 then p else 2 * p) * Pow2(Max(exp, 1)) == p * Pow2(exp + 1)
  {
  }

  /** Round to nearest: never further than half a thousandth from the exact value. */
  lemma RoundsToNearest(x: nat, b: nat)
    requires b > 0
    ensures var t := Thousandths(x, b) * Pow2(b);
            2 * (t - x * 1000) <= Pow2(b) && 2 * (x * 1000 - t) < Pow2(b)
  {
    DivBounds(x * 1000 + Pow2(b - 1), Pow2(b));
    assert Pow2(b) == 2 * Pow2(b - 1);
  }

  lemma DivBounds(n: nat, d: nat)
    requires d > 0
    ensures n / d * d <= n < n / d * d + d
  {
  }

  /** Quotients of numerators that are in order, a divisor apart, or less than a divisor apart. */
  lemma DivGap(n: nat, k: nat, d: nat)
    requires d > 0 && n <= k
    ensures n / d <= k / d
    ensures n + d <= k ==> n / d < k / d
    ensures k < n + d ==> k / d <= n / d + 1
  {
    var q, r := n / d, k / d;
    DivBounds(n, d);
    DivBounds(k, d);
    if r < q {
      StepUp(r, q, d);
    }
    if r <= q {
      MulMono(r, q, d);
    }
    if q + 1 < r {
      StepUp(q + 1, r, d);
      assert (q + 1) * d == q * d + d;
    }
  }

  /** Rounding keeps order, tells apart what is a unit apart, and confuses two neighbours out of three
      within one unit. */
  lemma RoundedGap(x: nat, y: nat, half: nat, unit: nat)
    requires unit > 0 && x <= y
    ensures Rounded(x, half, unit) <= Rounded(y, half, unit)
    ensures x * 1000 + unit <= y * 1000 ==> Rounded(x, half, unit) < Rounded(y, half, unit)
    ensures y * 1000 < x * 1000 + unit ==> Rounded(y, half, unit) <= Rounded(x, half, unit) + 1
  {
    DivGap(x * 1000 + half, y * 1000 + half, unit);
  }

  lemma RoundMono(x: nat, y: nat, b: nat)
    requires b > 0 && x <= y
    ensures Thousandths(x, b) <= Thousandths(y, b)
  {
    RoundedGap(x, y, Pow2(b - 1), Pow2(b));
  }

  /** Magnitudes at least one thousandth apart are told apart. */
  lemma RoundSeparates(x: nat, y: nat, b: nat)
    requires b > 0 && x * 1000 + Pow2(b) <= y * 1000
    ensures Thousandths(x, b) < Thousandths(y, b)
  {
    RoundedGap(x, y, Pow2(b - 1), Pow2(b));
  }

  /** Of three magnitudes spanning less than one thousandth, two neighbours are confused. */
  lemma RoundConfuses(x: nat, y: nat, z: nat, b: nat)
    requires b > 0 && x <= y <= z && z * 1000 < x * 1000 + Pow2(b)
    ensures Thousandths(x, b) == Thousandths(y, b) || Thousandths(y, b) == Thousandths(z, b)
  {
    RoundedGap(x, y, Pow2(b - 1), Pow2(b));
    RoundedGap(y, z, Pow2(b - 1), Pow2(b));
    RoundedGap(x, z, Pow2(b - 1), Pow2(b));
  }

  /** At an exponent whose step is a thousandth or more the decoder is injective; at one whose step is
      less than half a thousandth it is not. */
  lemma InjectiveAbove(m: nat, b: nat, e1: nat, man1: nat, e2: nat, man2: nat)
    requires b > 0 && man1 < Pow2(m) && man2 < Pow2(m)
    requires e1 < e2 || (e1 == e2 && man1 < man2)
    requires Pow2(Max(e1, 1)) * 1000 >= Pow2(b)
    ensures Thousandths(Magnitude(m, e1, man1), b) < Thousandths(Magnitude(m, e2, man2), b)
  {
    MagnitudeStrict(m, e1, man1, e2, man2);
    RoundSeparates(Magnitude(m, e1, man1), Magnitude(m, e2, man2), b);
  }

  lemma FourAtLeast(m: nat)
    requires m >= 2
    ensures Pow2(m) >= 4
  {
    Pow2Mono(2, m);
    assert Pow2(2) == 2 * Pow2(1) == 4;
  }

  lemma StepsApart(m: nat, exp: nat)
    ensures Magnitude(m, exp, 1) == Magnitude(m, exp, 0) + Pow2(Max(exp, 1))
    ensures Magnitude(m, exp, 2) == Magnitude(m, exp, 1) + Pow2(Max(exp, 1))
  {
    hide Pow2;
  }

  lemma ConfusedBelow(m: nat, b: nat, exp: nat) returns (man: nat)
    requires b > 0 && m >= 2 && 2 * Pow2(Max(exp, 1)) * 1000 < Pow2(b)
    ensures man + 1 < Pow2(m)
    ensures Thousandths(Magnitude(m, exp, man), b) == Thousandths(Magnitude(m, exp, man + 1), b)
  {
    hide Thousandths, Pow2;
    FourAtLeast(m);
    var x, y, z := Magnitude(m, exp, 0), Magnitude(m, exp, 1), Magnitude(m, exp, 2);
    StepsApart(m, exp);
    RoundConfuses(x, y, z, b);
    man := if Thousandths(x, b) == Thousandths(y, b) then 0 else 1;
  }

  // ---- The decoder is the instance m = 11, b = 18 ----

  /** A valid 15-bit code: any exponent but 15. */
  predicate IsCode(code: nat) {
    code < 15 * 2048
  }

  function Decode(code: nat): int
    requires code < 65536
  {
    DecodeData(code / 256, code % 256)
  }

  lemma {:induction false} Pow2Values()
    ensures Pow2(7) == 128 && Pow2(11) == 2048 && Pow2(17) == 131072 && Pow2(18) == 262144
  {
    assert Pow2(3) == 8;
    Pow2Sum(3, 4);
    Pow2Sum(7, 4);
    Pow2Sum(11, 6);
    Pow2Sum(17, 1);
  }

  lemma RealCancel(x: real, y: real, k: real)
    requires k > 0.0
    ensures x * k <= y * k ==> x <= y
    ensures x * k < y * k ==> x < y
  {
  }

  lemma QuotientBounds(n: real, d: real, q: real)
    requires d > 0.0 && q * d <= n < q * d + d
    ensures q <= n / d < q + 1.0
  {
    var t := n / d;
    assert t * d == n && (q + 1.0) * d == q * d + d;
    RealCancel(q, t, d);
    RealCancel(t, q + 1.0, d);
  }

  lemma FloorOfQuotient(n: nat, d: nat)
    requires d > 0
    ensures (n as real / d as real).Floor == n / d
  {
    DivBounds(n, d);
    RealProduct(n / d, d);
    QuotientBounds(n as real, d as real, (n / d) as real);
  }

  lemma RealProduct(x: nat, y: nat)
    ensures (x * y) as real == x as real * y as real
  {
  }

  lemma ShiftDown(p: real, q: real)
    requires q > 0.0 && p * q == 128.0
    ensures 1.0 / q == p / 128.0
  {
  }

  /** 2^(exp-7), the weight of the implicit one, is 2^11 * 2^exp / 2^18. */
  lemma NormalScale(exp: nat)
    ensures Pow2Real(exp - 7) == Pow2(exp) as real / 128.0
  {
    Pow2Values();
    if exp >= 7 {
      Pow2Sum(exp - 7, 7);
    } else {
      Pow2Sum(exp, 7 - exp);
      RealProduct(Pow2(exp), Pow2(7 - exp));
      ShiftDown(Pow2(exp) as real, Pow2(7 - exp) as real);
    }
  }

  lemma FactorOut(p: real, s: real)
    ensures p / 128.0 * (1.0 + s * (1.0 / 2048.0)) == (2048.0 + s) * p / 262144.0
  {
  }

  /** What the two branches compute before rounding. */
  lemma ExactValue(exp: nat, man: nat)
    requires exp < 15 && man < 2048
    ensures var x := Magnitude(11, exp, man) as real / 262144.0;
            if exp == 0 then Pow2Real(exp - 17) * man as real == x
            else Pow2Real(exp - 7) * (1.0 + man as real * Pow2Real(-11)) == x
  {
    Pow2Values();
    if exp == 0 {
      assert Pow2(1) == 2;
    } else {
      NormalScale(exp);
      FactorOut(Pow2(exp) as real, man as real);
      RealProduct(2048 + man, Pow2(exp));
    }
  }

  /** Adding one half and truncating is rounding to nearest. */
  lemma RoundedQuotient(x: nat)
    ensures ToThousandths(x as real / 262144.0) == Thousandths(x, 18)
  {
    Pow2Values();
    assert x as real / 262144.0 * 1000.0 + 0.5 == (x * 1000 + 131072) as real / 262144.0;
    FloorOfQuotient(x * 1000 + 131072, 262144);
  }

  /** Both branches of the decoder are one formula. */
  lemma DecodeIsOneFormula(exp: nat, man: nat)
    requires exp < 15 && man < 2048
    ensures DecodeFields(exp, man) == Thousandths(Magnitude(11, exp, man), 18)
  {
    ExactValue(exp, man);
    RoundedQuotient(Magnitude(11, exp, man));
  }

  lemma CodeSplit(code: nat)
    requires IsCode(code)
    ensures code / 256 < 120 && (code / 256) / 8 == code / 2048
    ensures 256 * ((code / 256) % 8) + code % 256 == code % 2048
    ensures Decode(code) == Thousandths(Magnitude(11, code / 2048, code % 2048), 18)
  {
    DecodeIsOneFormula(code / 2048, code % 2048);
  }

  /** What two data bytes mean: with exponent e and mantissa m, a magnitude of m * 2 / 2^18 for e = 0 and of
      (2048 + m) * 2^e / 2^18 above, in units; the reading is the nearest thousandth. */
  ghost predicate Denotes(high: nat, low: nat, reading: int) {
    var e, m := high / 8, 256 * (high % 8) + low;
    var x := if e == 0 then 2 * m else (2048 + m) * Pow2(e);
    -131072 < reading * 262144 - x * 1000 <= 131072
  }

  /** The decoded reading is within half a thousandth of the exact value. */
  lemma DecodeAccuracy(high: nat, low: nat)
    requires high < 120 && low < 256
    ensures Denotes(high, low, DecodeData(high, low))
  {
    Pow2Values();
    var e, m := high / 8, 256 * (high % 8) + low;
    DecodeIsOneFormula(e, m);
    RoundsToNearest(Magnitude(11, e, m), 18);
    assert Pow2(1) == 2;
  }

  lemma DecodeMonotone(c1: nat, c2: nat)
    requires c1 <= c2 && IsCode(c2)
    ensures Decode(c1) <= Decode(c2)
  {
    Pow2Values();
    CodeSplit(c1);
    CodeSplit(c2);
    if c1 < c2 {
      MagnitudeStrict(11, c1 / 2048, c1 % 2048, c2 / 2048, c2 % 2048);
      RoundMono(Magnitude(11, c1 / 2048, c1 % 2048), Magnitude(11, c2 / 2048, c2 % 2048), 18);
    }
  }

  lemma DecodeBounds(code: nat)
    requires IsCode(code)
    ensures 0 <= Decode(code) <= MAX_READING
  {
    CodeSplit(code);
    DecodeMonotone(code, 15 * 2048 - 1);
    LargestReading();
  }

  /** Every two bytes decode to "-2" or to a reading of at most 255.938, and to "-2" exactly when the
      sign bit is set or the exponent is 15. */
  lemma DecodeRange(high: nat, low: nat)
    requires high < 256 && low < 256
    ensures DecodeData(high, low) == INVALID <==> high >= 120
    ensures high < 120 ==> 0 <= DecodeData(high, low) <= MAX_READING
  {
    if high < 120 {
      hide DecodeData;
      var code := 256 * high + low;
      assert code / 256 == high && code % 256 == low;
      DecodeBounds(code);
    }
  }

  lemma LargestReading()
    ensures Decode(15 * 2048 - 1) == MAX_READING
  {
    Pow2Values();
    CodeSplit(15 * 2048 - 1);
    Pow2Sum(7, 7);
    assert Magnitude(11, 14, 2047) == 4095 * 16384;
  }

  lemma {:induction false} Pow2AtNine()
    ensures Pow2(8) == 256 && Pow2(9) == 512
  {
    Pow2Values();
  }

  /** No two codes from exponent 9 upwards share a reading. */
  lemma DecodeInjective(c1: nat, c2: nat)
    requires 9 * 2048 <= c1 < c2 && IsCode(c2)
    ensures Decode(c1) < Decode(c2)
  {
    Pow2Values();
    Pow2AtNine();
    CodeSplit(c1);
    CodeSplit(c2);
    Pow2Mono(9, c1 / 2048);
    InjectiveAbove(11, 18, c1 / 2048, c1 % 2048, c2 / 2048, c2 % 2048);
  }

  /** Exponent 9 is the exact limit: every smaller exponent has two neighbouring codes with the same
      reading. */
  lemma DecodeCollidesBelow(exp: nat) returns (code: nat)
    requires exp < 9
    ensures code / 2048 == (code + 1) / 2048 == exp
    ensures Decode(code) == Decode(code + 1)
  {
    Pow2Values();
    Pow2AtNine();
    var man: nat;
    if exp < 8 {
      Pow2Mono(Max(exp, 1), 7);
      man := ConfusedBelow(11, 18, exp);
    } else {
      man := 21;
      assert Magnitude(11, 8, 21) == 2069 * 256 && Magnitude(11, 8, 22) == 2070 * 256;
    }
    code := exp * 2048 + man;
    CodeSplit(code);
    CodeSplit(code + 1);
  }
}
