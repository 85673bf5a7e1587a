/** The FP8 E4M3 quantiser (crates/transpiler/src/quant.rs) over exact reals; f32 rounding of log2 and division is idealised. */
module E4M3 {
  import opened Common

  function Abs(x: real): real { if x < 0.0 then -x else x }

  /** `f32::round`: to the nearest integer, halves away from zero. */
  function Round(x: real): (n: int)
    ensures x - 0.5 <= n as real <= x + 0.5
    ensures if x >= 0.0 then n as real > x - 0.5 else n as real < x + 0.5
  {
    if x >= 0.0 then (x + 0.5).Floor else -((-x + 0.5).Floor)
  }

  /** Two to an integer power. */
  function Exp2(e: int): (p: real)
    ensures p > 0.0
    decreases if e < 0 then -e else e
  {
    if e == 0 then 1.0 else if e > 0 then 2.0 * Exp2(e - 1) else Exp2(e + 1) / 2.0
  }

  lemma Exp2Next(e: int)
    ensures Exp2(e + 1) == 2.0 * Exp2(e)
  {
  }

  lemma {:induction false} Exp2Monotone(a: int, b: int)
    requires a <= b
    ensures Exp2(a) <= Exp2(b)
    decreases b - a
  {
    if a < b {
      Exp2Next(b - 1);
      Exp2Monotone(a, b - 1);
    }
  }

  lemma Exp2Values()
    ensures Exp2(-7) == 1.0 / 128.0 && Exp2(-6) == 1.0 / 64.0 && Exp2(8) == 256.0 && Exp2(9) == 512.0
  {
    Exp2Next(-1);
    Exp2Next(-2);
    Exp2Next(-3);
    Exp2Next(-4);
    Exp2Next(-5);
    Exp2Next(-6);
    Exp2Next(-7);
    Exp2Next(0);
    Exp2Next(1);
    Exp2Next(2);
    Exp2Next(3);
    Exp2Next(4);
    Exp2Next(5);
    Exp2Next(6);
    Exp2Next(7);
    Exp2Next(8);
  }

  /** The exponent of the largest power of two not above `y`: `log2().floor()`. */
  function FloorLog2(y: real): (e: int)
    requires y > 0.0
    ensures Exp2(e) <= y < Exp2(e + 1)
    decreases y < 1.0, if y < 1.0 then (1.0 / y).Floor else y.Floor
  {
    if y >= 2.0 then
      var e := FloorLog2(y / 2.0);
      Exp2Next(e);
      Exp2Next(e + 1);
      e + 1
    else if y < 1.0 then
      Halve(y);
      var e := FloorLog2(y * 2.0);
      Exp2Next(e - 1);
      Exp2Next(e);
      e - 1
    else
      Exp2Next(0);
      0
  }

  lemma Halve(y: real)
    requires 0.0 < y < 1.0
    ensures y * 2.0 < 1.0 ==> (1.0 / (y * 2.0)).Floor < (1.0 / y).Floor
  {
    var r := 1.0 / y;
    assert r * y == 1.0;
    assert 1.0 / (y * 2.0) == r / 2.0;
    if y * 2.0 < 1.0 {
      assert r > 2.0;
    }
  }

  lemma FloorLog2Unique(y: real, e: int)
    requires y > 0.0 && Exp2(e) <= y < Exp2(e + 1)
    ensures FloorLog2(y) == e
  {
    var k := FloorLog2(y);
    if k < e {
      Exp2Monotone(k + 1, e);
    } else if k > e {
      Exp2Monotone(e + 1, k);
    }
  }

  /** The biased exponent field. */
  function Exponent(a: real): int
    requires a > 0.0
  {
    FloorLog2(a) + 7
  }

  /** The rounded mantissa for an exponent field, before carry. */
  function Mantissa(a: real, exp: int): int
  {
    Round((a / Exp2(exp - 7) - 1.0) * 8.0)
  }

  lemma PowersDoNotCarry(e: int)
    ensures Exponent(Exp2(e)) == e + 7 && Mantissa(Exp2(e), e + 7) == 0
  {
    Exp2Next(e);
    FloorLog2Unique(Exp2(e), e);
    MantissaOfPower(Exp2(e));
    assert e + 7 - 7 == e;
  }

  lemma MantissaOfPower(p: real)
    requires p > 0.0
    ensures Round((p / p - 1.0) * 8.0) == 0
  {
    assert p / p == 1.0;
  }

  function SignBit(negative: bool): int { if negative then 0x80 else 0 }

  function Clamp(n: int, lo: int, hi: int): int { if n < lo then lo else if n > hi then hi else n }

  /** What the encoder does with a magnitude: a code without sign, or a carry to a power of two. */
  datatype Outcome = Code(bits: nat) | Carry(exponent: int)

  function Classify(a: real): Outcome
    requires a > 0.0
  {
    if a >= 448.0 then Code(0x7E)
    else if Exponent(a) < 0 then Code(Clamp(Round(a * 512.0), 0, 7))
    else
      var exp := if Exponent(a) > 15 then 15 else Exponent(a);
      var m := if Mantissa(a, exp) < 0 then 0 else Mantissa(a, exp);
      if m <= 7 then Code(exp * 8 + m)
      else if exp == 15 then Code(exp * 8 + 6)
      else Carry(exp - 6)
  }

  lemma PowersClassify(e: int)
    ensures Classify(Exp2(e)).Code?
  {
    PowersDoNotCarry(e);
  }

  lemma CodesFit(a: real)
    requires a > 0.0 && Classify(a).Code?
    ensures Classify(a).bits < 0x80
  {
  }

  /** `f32_to_e4m3` on finite values. Its termination measure says that the carry recursion runs at most once. */
  function Encode(val: real): (code: Byte)
    decreases if val != 0.0 && Classify(Abs(val)).Carry? then 1 else 0
  {
    if val == 0.0 then 0
    else
      match Classify(Abs(val))
      case Code(bits) =>
        CodesFit(Abs(val));
        SignBit(val < 0.0) + bits
      case Carry(e) =>
        PowersClassify(e);
        Encode(if val < 0.0 then -Exp2(e) else Exp2(e))
  }

  /** A power of two and a number of eighths of it. */
  function Significand(p: real, mant: nat): real { p * (1.0 + mant as real / 8.0) }

  /** The absolute value an exponent and a mantissa field stand for; one pair stands for NaN. */
  function Magnitude(exp: nat, mant: nat): Option<real>
  {
    if exp == 0 then Some(1.0 / 64.0 * (mant as real / 8.0))
    else if exp == 15 && mant == 7 then None
    else Some(Significand(Exp2(exp - 7), mant))
  }

  /** `e4m3_to_f32`. */
  function Decode(code: Byte): Option<real>
  {
    var a := Magnitude(code / 8 % 16, code % 8);
    if a.None? then None else Some(if code >= 0x80 then -a.value else a.value)
  }

  /** A magnitude that gets a code: the code, and the code of the negative. */
  lemma EncodeOfCode(a: real)
    requires a > 0.0 && Classify(a).Code?
    ensures Classify(a).bits < 0x80
    ensures Encode(a) == Classify(a).bits && Encode(-a) == Classify(a).bits + 0x80
  {
    CodesFit(a);
    assert Abs(-a) == a;
  }

  lemma EncodeOfCarry(a: real, p: real)
    requires a > 0.0 && Classify(a).Carry? && p == Exp2(Classify(a).exponent)
    ensures Encode(a) == Encode(p) && Encode(-a) == Encode(-p)
  {
    assert Abs(-a) == a;
  }

  lemma EncodeIsOdd(val: real)
    requires val > 0.0
    ensures Encode(val) < 0x80 && Encode(-val) == Encode(val) + 0x80
  {
    match Classify(val)
    case Code(_) => EncodeOfCode(val);
    case Carry(e) =>
      EncodeOfCarry(val, Exp2(e));
      PowersClassify(e);
      EncodeOfCode(Exp2(e));
  }

  lemma ExponentRange(a: real)
    requires 0.0 < a < 448.0
    ensures Exponent(a) <= 15
    ensures Exponent(a) >= 0 <==> a >= 1.0 / 128.0
    ensures Exponent(a) >= 1 <==> a >= 1.0 / 64.0
  {
    Exp2Values();
    var e := FloorLog2(a);
    if e >= 9 {
      Exp2Monotone(9, e);
    }
    if e >= -6 {
      Exp2Monotone(-6, e);
    } else {
      Exp2Monotone(e + 1, -6);
    }
    if e >= -7 {
      Exp2Monotone(-7, e);
    } else {
      Exp2Monotone(e + 1, -7);
    }
  }

  lemma DecodeIsOdd(code: Byte)
    requires code < 0x80
    ensures Decode(code).Some? <==> Decode(code + 0x80).Some?
    ensures Decode(code).Some? ==> Decode(code + 0x80).value == -Decode(code).value && Decode(code).value >= 0.0
  {
    assert (code + 0x80) / 8 % 16 == code / 8 % 16 && (code + 0x80) % 8 == code % 8;
  }

  lemma Fields(exp: nat, mant: nat)
    requires exp < 16 && mant < 8
    ensures (exp * 8 + mant) / 8 % 16 == exp && (exp * 8 + mant) % 8 == mant
  {
  }

  lemma ScaleDown(a: real, b: real, scale: real)
    requires scale > 0.0
    ensures a * scale <= b * scale <==> a <= b
    ensures a * scale == b * scale <==> a == b
  {
    assert (a - b) * scale == a * scale - b * scale;
    assert a > b ==> (a - b) * scale > 0.0;
    assert a < b ==> (b - a) * scale > 0.0;
  }

  /** Comparing before and after scaling. */
  lemma ScaledCompare(a: real, b: real, scaledA: real, scaledB: real, scale: real)
    requires scale > 0.0 && a * scale == scaledA && b * scale == scaledB
    ensures (scaledA <= scaledB <==> a <= b) && (scaledA == scaledB <==> a == b)
  {
    ScaleDown(a, b, scale);
  }

  lemma Ratio(a: real, p: real)
    requires p > 0.0
    ensures a / p * p == a
  {
  }

  /** Rounding a ratio between one and two to eighths. */
  lemma RoundRatio(a: real, p: real)
    requires p > 0.0 && p <= a < 2.0 * p
    ensures var m := Round((a / p - 1.0) * 8.0);
            0 <= m <= 8 && Abs(p * (1.0 + m as real / 8.0) - a) <= p / 16.0
    ensures a < 1.75 * p ==> Round((a / p - 1.0) * 8.0) <= 6
  {
    var q := a / p;
    RatioBetween(a, p);
    RoundEighths(q);
    Ratio(a, p);
    Assemble(p, 1.0 + Round((q - 1.0) * 8.0) as real / 8.0, q, a);
  }

  lemma Assemble(p: real, u: real, q: real, a: real)
    requires p > 0.0 && q * p == a && -1.0 / 16.0 <= u - q <= 1.0 / 16.0
    ensures Abs(p * u - a) <= p / 16.0
  {
    assert (q + 1.0 / 16.0) * p == a + p / 16.0;
    assert (q - 1.0 / 16.0) * p == a - p / 16.0;
    ScaledCompare(u, q + 1.0 / 16.0, u * p, a + p / 16.0, p);
    ScaledCompare(q - 1.0 / 16.0, u, a - p / 16.0, u * p, p);
  }

  lemma RatioBetween(a: real, p: real)
    requires p > 0.0 && p <= a < 2.0 * p
    ensures 1.0 <= a / p < 2.0 && (a < 1.75 * p ==> a / p < 1.75)
  {
    var q := a / p;
    Ratio(a, p);
    ScaledCompare(1.0, q, p, a, p);
    ScaledCompare(2.0, q, 2.0 * p, a, p);
    ScaledCompare(1.75, q, 1.75 * p, a, p);
  }

  lemma RoundEighths(q: real)
    requires 1.0 <= q < 2.0
    ensures var m := Round((q - 1.0) * 8.0);
            0 <= m <= 8 && -1.0 / 16.0 <= 1.0 + m as real / 8.0 - q <= 1.0 / 16.0
    ensures q < 1.75 ==> Round((q - 1.0) * 8.0) <= 6
  {
  }

  /** A power of two in range is restored exactly. */
  lemma PowerIsExact(exp: int)
    requires 1 <= exp <= 15
    ensures Decode(Encode(Exp2(exp - 7))) == Some(Exp2(exp - 7))
  {
    hide Exponent, Mantissa;
    var p := Exp2(exp - 7);
    PowersDoNotCarry(exp - 7);
    PowerInRange(exp - 7);
    NormalCode(p, exp, 0);
    DecodeFields(exp, 0);
    assert Significand(p, 0) == p;
  }

  lemma PowerInRange(e: int)
    requires e <= 8
    ensures Exp2(e) < 448.0
  {
    Exp2Values();
    Exp2Monotone(e, 8);
  }

  /** From 1/64 up, the relative error is at most one sixteenth, half a step of its power of two, and never a NaN. */
  lemma NormalBound(a: real) returns (v: real)
    requires 1.0 / 64.0 <= a < 448.0
    ensures Decode(Encode(a)) == Some(v) && Abs(v - a) <= a / 16.0
    ensures forall e: int | Exp2(e) <= a < Exp2(e + 1) :: Abs(v - a) <= Exp2(e) / 16.0
  {
    hide Exponent, Mantissa, Significand, Exp2, Encode, Decode, Magnitude;
    var exp, m := NormalFields(a);
    ExponentUnique(a);
    if m <= 7 {
      v := Magnitude(exp, m).value;
      PlainRestores(a, exp, m);
    } else {
      v := CarryRestores(a, exp);
    }
  }

  lemma ExponentUnique(a: real)
    requires a > 0.0
    ensures forall e: int | Exp2(e) <= a < Exp2(e + 1) :: e == Exponent(a) - 7
  {
    forall e: int | Exp2(e) <= a < Exp2(e + 1)
      ensures e == Exponent(a) - 7
    {
      FloorLog2Unique(a, e);
    }
  }

  lemma PlainRestores(a: real, exp: nat, m: nat)
    requires 0.0 < a < 448.0 && exp == Exponent(a) && exp <= 15 && m == Mantissa(a, exp) && m <= 7
    ensures Decode(Encode(a)) == Magnitude(exp, m)
  {
    NormalCode(a, exp, m);
    DecodeFields(exp, m);
  }

  lemma CarryRestores(a: real, exp: nat) returns (v: real)
    requires 0.0 < a < 448.0 && exp == Exponent(a) && exp < 15 && Mantissa(a, exp) > 7
    ensures v == Exp2(exp - 6) && Decode(Encode(a)) == Some(v)
  {
    var e: int := exp - 6;
    v := Exp2(e);
    CarryCode(a, exp);
    PowerIsExact(exp + 1);
    assert exp + 1 - 7 == e;
  }

  lemma NormalFields(a: real) returns (exp: nat, m: nat)
    requires 1.0 / 64.0 <= a < 448.0
    ensures exp == Exponent(a) && 1 <= exp <= 15 && m == Mantissa(a, exp) && m <= 8
    ensures exp == 15 ==> m <= 6
    ensures m <= 7 ==> Magnitude(exp, m).Some? && Abs(Magnitude(exp, m).value - a) <= a / 16.0
    ensures m == 8 ==> Abs(Exp2(exp - 6) - a) <= a / 16.0
    ensures m <= 7 ==> Abs(Magnitude(exp, m).value - a) <= Exp2(exp - 7) / 16.0
    ensures m == 8 ==> Abs(Exp2(exp - 6) - a) <= Exp2(exp - 7) / 16.0
  {
    ExponentRange(a);
    exp := Exponent(a);
    Exp2Next(exp - 7);
    RoundsClose(a, Exp2(exp - 7));
    m := Mantissa(a, exp);
    if exp == 15 {
      Exp2Values();
    }
  }

  lemma RoundsClose(a: real, p: real)
    requires p > 0.0 && p <= a < 2.0 * p
    ensures var m := Round((a / p - 1.0) * 8.0);
            && 0 <= m <= 8
            && Abs(Significand(p, m) - a) <= a / 16.0
            && (m == 8 ==> Abs(2.0 * p - a) <= a / 16.0)
            && Abs(Significand(p, m) - a) <= p / 16.0
            && (m == 8 ==> Abs(2.0 * p - a) <= p / 16.0)
            && (a < 1.75 * p ==> m <= 6)
  {
    RoundRatio(a, p);
  }

  lemma NormalCode(a: real, exp: nat, m: nat)
    requires 0.0 < a < 448.0 && exp == Exponent(a) && exp <= 15 && m == Mantissa(a, exp) && m <= 7
    ensures Encode(a) == exp * 8 + m
  {
    assert Classify(a) == Code(exp * 8 + m);
    EncodeOfCode(a);
  }

  lemma DecodeFields(exp: nat, m: nat)
    requires exp < 16 && m < 8
    ensures Decode(exp * 8 + m) == Magnitude(exp, m)
  {
    Fields(exp, m);
  }

  lemma CarryCode(a: real, exp: nat)
    requires 0.0 < a < 448.0 && exp == Exponent(a) && exp < 15 && Mantissa(a, exp) > 7
    ensures Encode(a) == Encode(Exp2(exp - 6))
  {
    assert Classify(a) == Carry(exp - 6);
    EncodeOfCarry(a, Exp2(exp - 6));
  }

  /** Below 1/128 the absolute error is at most 1/1024. */
  lemma TinyBound(a: real) returns (v: real)
    requires 0.0 < a < 1.0 / 128.0
    ensures Decode(Encode(a)) == Some(v) && Abs(v - a) <= 1.0 / 1024.0
  {
    ExponentRange(a);
    var m := Round(a * 512.0);
    assert 0 <= m <= 4;
    assert Classify(a) == Code(m);
    EncodeOfCode(a);
    DecodeFields(0, m);
    v := m as real / 512.0;
  }

  /** In between the exponent field is zero: written as normal, read as subnormal. */
  lemma BandValue(a: real) returns (v: real)
    requires 1.0 / 128.0 <= a < 1.0 / 64.0
    ensures Decode(Encode(a)) == Some(v)
    ensures var m := Round((a * 128.0 - 1.0) * 8.0); 0 <= m <= 8 && v == if m <= 7 then m as real / 512.0 else 1.0 / 64.0
  {
    hide Exponent, Mantissa;
    var m := BandFields(a);
    if m <= 7 {
      v := m as real / 512.0;
      Subnormal(m);
      PlainRestores(a, 0, m);
    } else {
      Exp2Values();
      v := CarryRestores(a, 0);
    }
  }

  lemma Subnormal(m: nat)
    ensures Magnitude(0, m) == Some(m as real / 512.0)
  {
  }

  lemma BandFields(a: real) returns (m: nat)
    requires 1.0 / 128.0 <= a < 1.0 / 64.0
    ensures Exponent(a) == 0 && m == Mantissa(a, 0) == Round((a * 128.0 - 1.0) * 8.0) && m <= 8
  {
    ExponentRange(a);
    Exp2Values();
    DivideBy(a, Exp2(-7));
    m := Round((a * 128.0 - 1.0) * 8.0);
  }

  lemma DivideBy(a: real, p: real)
    requires p == 1.0 / 128.0
    ensures a / p == a * 128.0
  {
  }

  /**
   The codes in order: 0 to 15 count in steps of 1/512, from there every eight codes the values double, code 127 is no
   number, and the upper half of the codes is the negative of the lower.
   */
  lemma DecodeExactly(code: Byte)
    ensures code < 16 ==> Decode(code) == Some(code as real / 512.0)
    ensures 8 <= code < 0x77 ==> Decode(code).Some? && Decode(code + 8) == Some(2.0 * Decode(code).value)
    ensures Decode(0x7F) == None
    ensures code < 0x80 && code != 0x7F ==> Decode(code).Some? && Decode(code + 0x80) == Some(-Decode(code).value)
  {
    hide Decode, Magnitude;
    NoNumber();
    if code < 0x80 {
      var exp, m := code / 8, code % 8;
      DecodeFields(exp, m);
      DecodeIsOdd(code);
      MagnitudeIsNumber(exp, m);
      if code < 16 {
        LowCodes(exp, m);
      }
      if 8 <= code < 0x77 {
        DecodeFields(exp + 1, m);
        OctaveUp(exp, m);
      }
    }
  }

  lemma NoNumber()
    ensures Decode(0x7F) == None
  {
    DecodeFields(15, 7);
  }

  lemma MagnitudeIsNumber(exp: nat, m: nat)
    requires exp < 16 && m < 8
    ensures Magnitude(exp, m).None? <==> exp == 15 && m == 7
  {
  }

  /** One exponent up is twice the value. */
  lemma OctaveUp(exp: nat, m: nat)
    requires 1 <= exp < 15 && m < 8 && !(exp == 14 && m == 7)
    ensures Magnitude(exp, m).Some? && Magnitude(exp + 1, m) == Some(2.0 * Magnitude(exp, m).value)
  {
    Exp2Next(exp - 7);
    DoubleSignificand(Exp2(exp - 7), m);
    hide Significand, Exp2;
  }

  lemma DoubleSignificand(p: real, m: nat)
    ensures Significand(2.0 * p, m) == 2.0 * Significand(p, m)
  {
  }

  lemma LowCodes(exp: nat, m: nat)
    requires exp <= 1 && m < 8
    ensures Magnitude(exp, m) == Some((exp * 8 + m) as real / 512.0)
  {
    Exp2Values();
    if exp == 1 {
      assert Significand(1.0 / 64.0, m) == (8 + m) as real / 512.0;
    }
  }

  /** Beyond the largest value the encoder saturates. */
  lemma Saturates(y: real)
    requires Abs(y) >= 448.0
    ensures Decode(Encode(y)) == Some(if y < 0.0 then -448.0 else 448.0)
  {
    Exp2Values();
    var a := Abs(y);
    EncodeOfCode(a);
    DecodeFields(15, 6);
    assert Significand(256.0, 6) == 448.0;
    DecodeIsOdd(0x7E);
    assert y == a || y == -a;
  }

  /** The error an E4M3 code is meant to have: one sixteenth of the value, or half a subnormal step. */
  predicate WithinStep(value: real, restored: real)
  {
    Abs(restored - value) <= Abs(value) / 16.0 || Abs(restored - value) <= 1.0 / 1024.0
  }

  /** The magnitudes at which the exponent-zero mismatch is not covered by the intended error. */
  predicate Mismatched(a: real)
  {
    (1.0 / 128.0 <= a < 29.0 / 2048.0) || (30.0 / 2048.0 < a < 31.0 / 2048.0)
  }

  lemma PositiveExactly(a: real) returns (v: real)
    requires 0.0 < a <= 448.0
    ensures Decode(Encode(a)) == Some(v) && (WithinStep(a, v) <==> !Mismatched(a))
  {
    if a == 448.0 {
      v := 448.0;
      LargestIsExact();
      CloseIsWithin(a, v);
    } else if a >= 1.0 / 64.0 {
      v := NormalBound(a);
      CloseIsWithin(a, v);
    } else if a < 1.0 / 128.0 {
      v := TinyBound(a);
      TinyIsWithin(a, v);
    } else {
      v := BandValue(a);
      BandExactly(a, v);
    }
  }

  lemma CloseIsWithin(a: real, v: real)
    requires a >= 1.0 / 64.0 && Abs(v - a) <= a / 16.0
    ensures WithinStep(a, v) && !Mismatched(a)
  {
  }

  lemma TinyIsWithin(a: real, v: real)
    requires 0.0 < a < 1.0 / 128.0 && Abs(v - a) <= 1.0 / 1024.0
    ensures WithinStep(a, v) && !Mismatched(a)
  {
  }

  lemma BandExactly(a: real, v: real)
    requires 1.0 / 128.0 <= a < 1.0 / 64.0
    requires var m := Round((a * 128.0 - 1.0) * 8.0); v == if m <= 7 then m as real / 512.0 else 1.0 / 64.0
    ensures WithinStep(a, v) <==> !Mismatched(a)
  {
  }

  lemma LargestIsExact()
    ensures Decode(Encode(448.0)) == Some(448.0)
  {
    Exp2Values();
    EncodeOfCode(448.0);
    DecodeFields(15, 6);
    assert Significand(256.0, 6) == 448.0;
  }

  /**
   For every value within the range a finite value is restored, with its sign, and the intended error holds exactly
   outside two narrow bands below 1/64.
   */
  lemma RestoredExactly(y: real)
    requires Abs(y) <= 448.0
    ensures Decode(Encode(y)).Some?
    ensures var v := Decode(Encode(y)).value;
            && (WithinStep(y, v) <==> !Mismatched(Abs(y)))
            && (y >= 0.0 ==> v >= 0.0) && (y <= 0.0 ==> v <= 0.0)
  {
    if y == 0.0 {
      Fields(0, 0);
    } else {
      var a := Abs(y);
      var v := PositiveExactly(a);
      EncodeIsOdd(a);
      DecodeIsOdd(Encode(a));
      WithinIsOdd(a, v);
    }
  }

  lemma WithinIsOdd(a: real, v: real)
    ensures WithinStep(-a, -v) <==> WithinStep(a, v)
  {
  }

  // ---- Scaled slices ----

  /** The largest absolute value of a slice. */
  function MaxAbs(data: seq<real>): (m: real)
    ensures m >= 0.0
    ensures forall i | 0 <= i < |data| :: Abs(data[i]) <= m
  {
    if data == [] then 0.0
    else
      var front, last := data[..|data| - 1], data[|data| - 1];
      var m := MaxAbs(front);
      assert forall i | 0 <= i < |front| :: data[i] == front[i];
      if Abs(last) > m then Abs(last) else m
  }

  function OptimalScale(data: seq<real>, maxRepresentable: real): real
    requires maxRepresentable > 0.0
  {
    if MaxAbs(data) == 0.0 then 1.0 else MaxAbs(data) / maxRepresentable
  }

  /** The scale is positive and takes the largest magnitude of the slice to the largest representable one. */
  lemma ScaleFits(data: seq<real>, maxRepresentable: real)
    requires maxRepresentable > 0.0
    ensures OptimalScale(data, maxRepresentable) > 0.0
    ensures MaxAbs(data) <= maxRepresentable * OptimalScale(data, maxRepresentable)
    ensures MaxAbs(data) > 0.0 ==> MaxAbs(data) == maxRepresentable * OptimalScale(data, maxRepresentable)
    ensures MaxAbs(data) == 0.0 ==> OptimalScale(data, maxRepresentable) == 1.0
  {
    hide MaxAbs;
    if MaxAbs(data) > 0.0 {
      PositiveRatio(MaxAbs(data), maxRepresentable);
    }
  }

  lemma PositiveRatio(a: real, p: real)
    requires a > 0.0 && p > 0.0
    ensures a / p > 0.0 && p * (a / p) == a
  {
    Ratio(a, p);
    ScaledCompare(a / p, 0.0, a, 0.0, p);
  }

  lemma {:induction false} MaxAbsIsMet(data: seq<real>)
    requires MaxAbs(data) > 0.0
    ensures exists i | 0 <= i < |data| :: Abs(data[i]) == MaxAbs(data)
  {
    var front := data[..|data| - 1];
    if Abs(data[|data| - 1]) != MaxAbs(data) {
      MaxAbsIsMet(front);
      var i :| 0 <= i < |front| && Abs(front[i]) == MaxAbs(front);
      assert Abs(data[i]) == MaxAbs(data);
    }
  }

  /** `compute_optimal_scale` on finite values. */
  method ComputeOptimalScale(data: seq<real>, maxRepresentable: real) returns (scale: real)
    requires maxRepresentable > 0.0
    ensures scale == OptimalScale(data, maxRepresentable)
  {
    var maxAbs := 0.0;
    for i := 0 to |data|
      invariant maxAbs == MaxAbs(data[..i])
    {
      assert data[..i + 1][..i] == data[..i];
      var abs := Abs(data[i]);
      if abs > maxAbs {
        maxAbs := abs;
      }
    }
    assert data[..|data|] == data;
    scale := if maxAbs == 0.0 then 1.0 else maxAbs / maxRepresentable;
  }

  function QuantizeScaled(data: seq<real>, scale: real): seq<Byte>
    requires scale > 0.0
  {
    seq(|data|, i requires 0 <= i < |data| => Encode(data[i] / scale))
  }

  function DequantizeScaled(codes: seq<Byte>, scale: real): seq<Option<real>>
  {
    seq(|codes|, i requires 0 <= i < |codes| => RestoreCode(codes[i], scale))
  }

  function Scaled(v: real, scale: real): real { v * scale }

  function RestoreCode(code: Byte, scale: real): Option<real>
  {
    var v := Decode(code);
    if v.Some? then Some(Scaled(v.value, scale)) else None
  }

  /** A ratio's error, scaled back. */
  lemma ScaledError(x: real, scale: real, v: real)
    requires scale > 0.0
    ensures Abs(v * scale - x) == Abs(v - x / scale) * scale
    ensures Abs(x / scale) * scale == Abs(x)
  {
    var y := x / scale;
    assert y * scale == x;
    assert v * scale - x == (v - y) * scale;
    assert v - y < 0.0 ==> (v - y) * scale < 0.0;
    assert y < 0.0 ==> y * scale < 0.0;
  }

  /** The intended error of a restored element, in the units of the slice. */
  predicate ScaledWithinStep(x: real, restored: real, scale: real)
  {
    Abs(restored - x) <= Abs(x) / 16.0 || Abs(restored - x) <= scale / 1024.0
  }

  lemma ScaledStep(x: real, scale: real, v: real)
    requires scale > 0.0
    ensures ScaledWithinStep(x, v * scale, scale) <==> WithinStep(x / scale, v)
  {
    var y := x / scale;
    ScaledError(x, scale, v);
    Sixteenth(Abs(y), scale);
    ScaledCompare(Abs(v - y), Abs(y) / 16.0, Abs(v * scale - x), Abs(x) / 16.0, scale);
    ScaledCompare(Abs(v - y), 1.0 / 1024.0, Abs(v * scale - x), scale / 1024.0, scale);
  }

  lemma Sixteenth(a: real, scale: real)
    ensures a / 16.0 * scale == a * scale / 16.0
  {
  }

  lemma AbsOfRatio(x: real, scale: real)
    requires scale > 0.0
    ensures Abs(x / scale) == Abs(x) / scale
  {
    ScaledError(x, scale, 0.0);
    Ratio(Abs(x), scale);
    ScaledCompare(Abs(x / scale), Abs(x) / scale, Abs(x), Abs(x), scale);
  }

  lemma SignOfProduct(v: real, scale: real)
    requires scale > 0.0
    ensures (v >= 0.0 <==> v * scale >= 0.0) && (v <= 0.0 <==> v * scale <= 0.0)
  {
    ScaleDown(v, 0.0, scale);
    ScaleDown(0.0, v, scale);
  }

  lemma ScaledFacts(x: real, y: real, scale: real, v: real)
    requires scale > 0.0 && y == x / scale
    ensures ScaledWithinStep(x, Scaled(v, scale), scale) <==> WithinStep(y, v)
    ensures (x >= 0.0 ==> y >= 0.0) && (x <= 0.0 ==> y <= 0.0)
    ensures (v >= 0.0 ==> Scaled(v, scale) >= 0.0) && (v <= 0.0 ==> Scaled(v, scale) <= 0.0)
    ensures Mismatched(Abs(y)) <==> Mismatched(Abs(x) / scale)
  {
    ScaledStep(x, scale, v);
    AbsOfRatio(x, scale);
    Ratio(x, scale);
    SignOfProduct(y, scale);
    SignOfProduct(v, scale);
  }

  lemma InRange(x: real, scale: real)
    requires scale > 0.0 && Abs(x) <= 448.0 * scale
    ensures Abs(x / scale) <= 448.0
  {
    ScaledError(x, scale, 0.0);
    ScaledCompare(Abs(x / scale), 448.0, Abs(x), 448.0 * scale, scale);
  }

  /** One element, with a scale that brings it into range. */
  lemma ElementRestored(x: real, scale: real)
    requires scale > 0.0 && Abs(x) <= 448.0 * scale
    ensures RestoreCode(Encode(x / scale), scale).Some?
    ensures var restored := RestoreCode(Encode(x / scale), scale).value;
            && (x >= 0.0 ==> restored >= 0.0) && (x <= 0.0 ==> restored <= 0.0)
            && (ScaledWithinStep(x, restored, scale) <==> !Mismatched(Abs(x) / scale))
  {
    InRange(x, scale);
    RestoredExactly(x / scale);
    FromCode(x, x / scale, scale, Encode(x / scale));
  }

  lemma FromCode(x: real, y: real, scale: real, code: Byte)
    requires scale > 0.0 && y == x / scale && Decode(code).Some?
    requires var v := Decode(code).value;
             && (WithinStep(y, v) <==> !Mismatched(Abs(y)))
             && (y >= 0.0 ==> v >= 0.0) && (y <= 0.0 ==> v <= 0.0)
    ensures RestoreCode(code, scale).Some?
    ensures var restored := RestoreCode(code, scale).value;
            && (x >= 0.0 ==> restored >= 0.0) && (x <= 0.0 ==> restored <= 0.0)
            && (ScaledWithinStep(x, restored, scale) <==> !Mismatched(Abs(x) / scale))
  {
    ScaledFacts(x, y, scale, Decode(code).value);
  }

  lemma RatioIsLargest(x: real, scale: real)
    requires scale > 0.0 && Abs(x) == 448.0 * scale
    ensures x / scale == 448.0 || x / scale == -448.0
    ensures Scaled(x / scale, scale) == x
  {
    Ratio(x, scale);
    AbsOfRatio(x, scale);
    Ratio(Abs(x), scale);
    ScaledCompare(Abs(x) / scale, 448.0, Abs(x), 448.0 * scale, scale);
  }

  lemma LargestElement(x: real, scale: real)
    requires scale > 0.0 && Abs(x) == 448.0 * scale
    ensures RestoreCode(Encode(x / scale), scale) == Some(x)
  {
    var y := x / scale;
    RatioIsLargest(x, scale);
    LargestIsExact();
    EncodeIsOdd(448.0);
    DecodeIsOdd(Encode(448.0));
  }

  lemma RestoredAt(data: seq<real>, scale: real, i: nat)
    requires scale > 0.0 && i < |data|
    ensures |DequantizeScaled(QuantizeScaled(data, scale), scale)| == |data|
    ensures DequantizeScaled(QuantizeScaled(data, scale), scale)[i] == RestoreCode(Encode(data[i] / scale), scale)
  {
  }

  /**
   Over every finite slice, with the scale computed from it: every element is restored to a finite value of its sign, an
   element of the largest magnitude exactly, and the intended error holds exactly for the elements outside the bands.
   */
  lemma SliceRestoredExactly(data: seq<real>, i: nat)
    requires i < |data|
    ensures OptimalScale(data, 448.0) > 0.0
    ensures var scale := OptimalScale(data, 448.0);
            var restored := DequantizeScaled(QuantizeScaled(data, scale), scale);
            && |restored| == |data| && restored[i].Some?
            && (data[i] >= 0.0 ==> restored[i].value >= 0.0) && (data[i] <= 0.0 ==> restored[i].value <= 0.0)
            && (ScaledWithinStep(data[i], restored[i].value, scale) <==> !Mismatched(Abs(data[i]) / scale))
            && (Abs(data[i]) == MaxAbs(data) ==> restored[i].value == data[i])
  {
    ScaleFits(data, 448.0);
    var scale := OptimalScale(data, 448.0);
    RestoredAt(data, scale, i);
    ElementRestored(data[i], scale);
    if Abs(data[i]) == MaxAbs(data) && MaxAbs(data) > 0.0 {
      LargestElement(data[i], scale);
    }
  }
}
