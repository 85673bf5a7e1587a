/** The packed int4 codec (crates/transpiler/src/quant.rs, `quantize_qatq_i4` and `dequantize_qatq_i4`) over exact reals. */
module Int4 {
  import opened Common
  import opened E4M3

  /** The bytes of an f32 and the finite value they denote, if any: foreign functions. */
  datatype FloatCodec = FloatCodec(bytes: real -> seq<Byte>, value: seq<Byte> -> Option<real>)

  /** The codec stores this value in four bytes and reads it back. */
  predicate Stores(c: FloatCodec, x: real)
  {
    |c.bytes(x)| == 4 && c.value(c.bytes(x)) == Some(x)
  }

  /** `quantize_i4_nibble` on a finite value. */
  function QuantizeNibble(x: real, scale: real): (nibble: nat)
    requires scale > 0.0
    ensures 1 <= nibble <= 15
  {
    Clamp(Round(x / scale), -7, 7) + 8
  }

  /** `dequantize_i4_nibble`. */
  function DequantizeNibble(nibble: nat, scale: real): real
  {
    Scaled((nibble % 16 - 8) as real, scale)
  }

  /** For values the scale was computed for, the clamp never bites and the error is at most half a step. */
  lemma NibbleError(x: real, scale: real)
    requires scale > 0.0 && Abs(x) <= 7.0 * scale
    ensures -7 <= Round(x / scale) <= 7
    ensures Abs(DequantizeNibble(QuantizeNibble(x, scale), scale) - x) <= scale / 2.0
  {
    var y := x / scale;
    WithinSeven(x, scale);
    var k := Round(y);
    HalfStep(x, y, scale, k as real);
    assert DequantizeNibble(QuantizeNibble(x, scale), scale) == Scaled(k as real, scale);
  }

  lemma WithinSeven(x: real, scale: real)
    requires scale > 0.0 && Abs(x) <= 7.0 * scale
    ensures -7.0 <= x / scale <= 7.0
  {
    ScaledError(x, scale, 0.0);
    ScaledCompare(Abs(x / scale), 7.0, Abs(x), 7.0 * scale, scale);
  }

  lemma HalfStep(x: real, y: real, scale: real, k: real)
    requires scale > 0.0 && y == x / scale && y - 0.5 <= k <= y + 0.5
    ensures Abs(Scaled(k, scale) - x) <= scale / 2.0
  {
    ScaledError(x, scale, k);
    ScaledCompare(Abs(k - y), 0.5, Abs(k * scale - x), 0.5 * scale, scale);
  }

  /** Byte `i` of the packed part: two coefficients, or one and a zero nibble. */
  function PackedByte(data: seq<real>, scale: real, i: nat): Byte
    requires scale > 0.0 && 2 * i < |data|
  {
    QuantizeNibble(data[2 * i], scale) * 16 + if 2 * i + 1 < |data| then QuantizeNibble(data[2 * i + 1], scale) else 0
  }

  function Pack(data: seq<real>, scale: real): (packed: seq<Byte>)
    requires scale > 0.0
    ensures |packed| == DivCeil(|data|, 2)
  {
    seq(DivCeil(|data|, 2), i requires 0 <= i < DivCeil(|data|, 2) => PackedByte(data, scale, i))
  }

  /** The slice's own scale. */
  function ScaleOf(data: seq<real>): (scale: real)
    ensures scale > 0.0 && MaxAbs(data) <= 7.0 * scale
    ensures MaxAbs(data) > 0.0 ==> scale == MaxAbs(data) / 7.0
    ensures MaxAbs(data) == 0.0 ==> scale == 1.0
  {
    ScaleFits(data, 7.0);
    OptimalScale(data, 7.0)
  }

  /** The payload: length (cast to u32), scale, packed coefficients. */
  function Payload(c: FloatCodec, data: seq<real>): seq<Byte>
  {
    BigEndian(|data|, 4) + c.bytes(ScaleOf(data)) + Pack(data, ScaleOf(data))
  }

  method QuantizeI4(c: FloatCodec, data: seq<real>) returns (out: seq<Byte>)
    ensures out == Payload(c, data)
    ensures Stores(c, ScaleOf(data)) ==>
              && |out| == 8 + (|data| + 1) / 2
              && out[0] as int * 0x100_0000 + out[1] as int * 0x1_0000 + out[2] as int * 0x100 + out[3] == |data| % 0x1_0000_0000
              && out[4..8] == c.bytes(ScaleOf(data))
              && forall i | 0 <= i < |data| ::
                   var k := Round(data[i] / ScaleOf(data));
                   -7 <= k <= 7 && (if i % 2 == 0 then out[8 + i / 2] / 16 else out[8 + i / 2] % 16) == 8 + k
    ensures Stores(c, ScaleOf(data)) && |data| % 2 == 1 ==> out[8 + |data| / 2] % 16 == 0
  {
    var scale := ComputeOptimalScale(data, 7.0);
    assert scale == ScaleOf(data);
    hide Pack, ScaleOf, BigEndian, Round;
    out := BigEndian(|data|, 4);
    out := out + c.bytes(scale);
    var packed := PackCoefficients(data, scale);
    out := out + packed;
    if Stores(c, ScaleOf(data)) {
      PayloadExactly(c, data);
    }
  }

  /** The packing loop: two coefficients a byte, the last alone if there is an odd number. */
  method PackCoefficients(data: seq<real>, scale: real) returns (packed: seq<Byte>)
    requires scale > 0.0
    ensures packed == Pack(data, scale)
  {
    hide QuantizeNibble;
    packed := [];
    var index := 0;
    while index < |data|
      invariant index == 2 * |packed| && index <= |data| + 1
      invariant packed == Pack(data, scale)[..|packed|]
    {
      var first := QuantizeNibble(data[index], scale);
      var second := if index + 1 < |data| then QuantizeNibble(data[index + 1], scale) else 0;
      assert Pack(data, scale)[|packed|] == first * 16 + second;
      packed := packed + [first * 16 + second];
      index := index + 2;
    }
  }

  /** Coefficient `i` of a packed part. */
  function NibbleAt(packed: seq<Byte>, i: nat): nat
    requires i / 2 < |packed|
  {
    if i % 2 == 0 then packed[i / 2] / 16 else packed[i / 2] % 16
  }

  predicate WellFormed(c: FloatCodec, data: seq<Byte>, expected: nat)
  {
    && |data| >= 8
    && FromBigEndian(data[..4]) == expected
    && c.value(data[4..8]).Some? && c.value(data[4..8]).value > 0.0
    && |data| - 8 == DivCeil(expected, 2)
  }

  method DequantizeI4(c: FloatCodec, data: seq<Byte>, expected: nat) returns (r: Result<seq<real>>)
    ensures r.Success? <==> WellFormed(c, data, expected)
    ensures r.Success? ==>
              && |r.value| == expected
              && forall i | 0 <= i < expected ::
                   r.value[i] == DequantizeNibble(NibbleAt(data[8..], i), c.value(data[4..8]).value)
  {
    hide DequantizeNibble, FromBigEndian;
    if |data| < 8 {
      return Failure("QATQ payload is too short");
    }
    if FromBigEndian(data[..4]) != expected {
      return Failure("QATQ payload length mismatch");
    }
    var scale := c.value(data[4..8]);
    if scale.None? || scale.value <= 0.0 {
      return Failure("QATQ payload scale is invalid");
    }
    var packed := data[8..];
    if |packed| != DivCeil(expected, 2) {
      return Failure("QATQ packed payload length mismatch");
    }
    var out := [];
    for b := 0 to |packed|
      invariant |out| == Min(2 * b, expected)
      invariant forall i | 0 <= i < |out| :: out[i] == DequantizeNibble(NibbleAt(packed, i), scale.value)
    {
      out := out + [DequantizeNibble(packed[b] / 16, scale.value)];
      if |out| < expected {
        out := out + [DequantizeNibble(packed[b] % 16, scale.value)];
      }
    }
    return Success(out);
  }

  /** A payload in plain bytes: its length in network order, a positive scale, and a nibble for each element. */
  lemma WellFormedExactly(c: FloatCodec, data: seq<Byte>, expected: nat)
    ensures WellFormed(c, data, expected) <==>
              && |data| >= 8 && |data| == 8 + (expected + 1) / 2
              && data[0] as int * 0x100_0000 + data[1] as int * 0x1_0000 + data[2] as int * 0x100 + data[3] == expected
              && c.value(data[4..8]).Some? && c.value(data[4..8]).value > 0.0
  {
    hide FromBigEndian;
    if |data| >= 8 {
      FourBytes(data[..4]);
    }
  }

  /** An element restored: the high nibble for an even one, the low for an odd one, less eight, times the scale. */
  lemma RestoredExactly(data: seq<Byte>, i: nat, scale: real)
    requires 8 + i / 2 < |data|
    ensures DequantizeNibble(NibbleAt(data[8..], i), scale)
            == ((if i % 2 == 0 then data[8 + i / 2] / 16 else data[8 + i / 2] % 16) as int - 8) as real * scale
  {
    assert data[8..][i / 2] == data[8 + i / 2];
  }

  /** A packed slice holds each element's coefficient. */
  lemma PackedNibble(data: seq<real>, scale: real, i: nat)
    requires scale > 0.0 && i < |data|
    ensures i / 2 < |Pack(data, scale)| && NibbleAt(Pack(data, scale), i) == QuantizeNibble(data[i], scale)
  {
    hide QuantizeNibble;
    assert 2 * (i / 2) + i % 2 == i;
    assert Pack(data, scale)[i / 2] == PackedByte(data, scale, i / 2);
  }

  /** Coefficients in plain numbers: the nearest multiple of the scale, held to seven either way, offset by eight. */
  lemma NibbleExactly(x: real, scale: real, nibble: nat)
    requires scale > 0.0
    ensures var k := Round(x / scale);
            QuantizeNibble(x, scale) == if k < -7 then 1 else if k > 7 then 15 else k + 8
    ensures nibble < 16 ==> DequantizeNibble(nibble, scale) == (nibble as int - 8) as real * scale
  {
  }

  lemma PayloadExactly(c: FloatCodec, data: seq<real>)
    requires Stores(c, ScaleOf(data))
    ensures var out := Payload(c, data);
            && |out| == 8 + (|data| + 1) / 2
            && out[0] as int * 0x100_0000 + out[1] as int * 0x1_0000 + out[2] as int * 0x100 + out[3] == |data| % 0x1_0000_0000
            && out[4..8] == c.bytes(ScaleOf(data))
            && (forall i | 0 <= i < |data| ::
                  var k := Round(data[i] / ScaleOf(data));
                  -7 <= k <= 7 && (if i % 2 == 0 then out[8 + i / 2] / 16 else out[8 + i / 2] % 16) == 8 + k)
            && (|data| % 2 == 1 ==> out[8 + |data| / 2] % 16 == 0)
  {
    var out, scale := Payload(c, data), ScaleOf(data);
    PayloadHead(c, data);
    hide Payload;
    forall i | 0 <= i < |data|
      ensures var k := Round(data[i] / scale);
              -7 <= k <= 7 && (if i % 2 == 0 then out[8 + i / 2] / 16 else out[8 + i / 2] % 16) == 8 + k
    {
      CoefficientAt(data, scale, i);
      assert out[8 + i / 2] == out[8..][i / 2];
    }
    if |data| % 2 == 1 {
      LastByte(data, scale);
      assert out[8 + |data| / 2] == out[8..][|data| / 2];
    }
  }

  lemma CoefficientAt(data: seq<real>, scale: real, i: nat)
    requires scale > 0.0 && MaxAbs(data) <= 7.0 * scale && i < |data|
    ensures i / 2 < |Pack(data, scale)|
    ensures var k := Round(data[i] / scale);
            && -7 <= k <= 7
            && (if i % 2 == 0 then Pack(data, scale)[i / 2] / 16 else Pack(data, scale)[i / 2] % 16) == 8 + k
  {
    PackedNibble(data, scale, i);
    NibbleError(data[i], scale);
    NibbleExactly(data[i], scale, 0);
    hide Pack, QuantizeNibble;
  }

  lemma LastByte(data: seq<real>, scale: real)
    requires scale > 0.0 && |data| % 2 == 1
    ensures |data| / 2 < |Pack(data, scale)| && Pack(data, scale)[|data| / 2] % 16 == 0
  {
    assert Pack(data, scale)[|data| / 2] == PackedByte(data, scale, |data| / 2);
  }

  lemma PayloadHead(c: FloatCodec, data: seq<real>)
    requires Stores(c, ScaleOf(data))
    ensures var out := Payload(c, data);
            && |out| == 8 + (|data| + 1) / 2 && out[8..] == Pack(data, ScaleOf(data)) && out[4..8] == c.bytes(ScaleOf(data))
            && out[0] as int * 0x100_0000 + out[1] as int * 0x1_0000 + out[2] as int * 0x100 + out[3] == |data| % 0x1_0000_0000
  {
    hide Pack, ScaleOf, BigEndian, FromBigEndian;
    var out, scale := Payload(c, data), ScaleOf(data);
    assert out[..4] == BigEndian(|data|, 4);
    assert out[4..8] == c.bytes(scale) && out[8..] == Pack(data, scale);
    BigEndianValue(|data|, 4);
    Pow256Values();
    FourBytes(out[..4]);
  }

  /** A payload is well formed for exactly one expected length, its own, provided that fits in 32 bits. */
  lemma OnlyItsLength(c: FloatCodec, data: seq<real>, expected: nat)
    requires Stores(c, ScaleOf(data))
    ensures WellFormed(c, Payload(c, data), expected) <==> expected == |data| && |data| < U32_LIMIT
  {
    var out := Payload(c, data);
    assert out[..4] == BigEndian(|data|, 4) && out[4..8] == c.bytes(ScaleOf(data));
    BigEndianValue(|data|, 4);
    Pow256Values();
    assert |out| == 8 + DivCeil(|data|, 2);
    LengthModulo(|data|, expected);
  }

  lemma LengthModulo(n: nat, expected: nat)
    ensures n % U32_LIMIT == expected && DivCeil(n, 2) == DivCeil(expected, 2) <==> expected == n && n < U32_LIMIT
  {
  }

  /**
   Decoding what was encoded succeeds exactly for the slice's own length below 2^32, odd or even, and then every
   element is within half the scale: a fourteenth of the largest magnitude.
   */
  method RoundTrip(c: FloatCodec, data: seq<real>, expected: nat) returns (r: Result<seq<real>>)
    requires Stores(c, ScaleOf(data))
    ensures r.Success? <==> expected == |data| && |data| < U32_LIMIT
    ensures r.Success? ==>
              && |r.value| == |data|
              && forall i | 0 <= i < |data| :: Abs(r.value[i] - data[i]) <= ScaleOf(data) / 2.0
    ensures MaxAbs(data) > 0.0 ==> ScaleOf(data) / 2.0 == MaxAbs(data) / 14.0
  {
    var out := QuantizeI4(c, data);
    r := DequantizeI4(c, out, expected);
    OnlyItsLength(c, data, expected);
    if r.Success? {
      var scale := ScaleOf(data);
      assert out[8..] == Pack(data, scale) && out[4..8] == c.bytes(scale);
      forall i | 0 <= i < |data|
        ensures Abs(r.value[i] - data[i]) <= scale / 2.0
      {
        PackedNibble(data, scale, i);
        NibbleError(data[i], scale);
      }
    }
  }
}
