/** Failure types, machine words and big-endian integers shared by every component. */
module Common {

  datatype Option<+T> = None | Some(value: T)

  datatype Result<+T> = Success(value: T) | Failure(error: string)

  const U16_LIMIT: nat := 0x1_0000
  const U32_LIMIT: nat := 0x1_0000_0000
  const U64_LIMIT: nat := 0x1_0000_0000_0000_0000

  type Byte = b: int | 0 <= b < 0x100
  type U16 = n: int | 0 <= n < U16_LIMIT
  type U32 = n: int | 0 <= n < U32_LIMIT
  type U64 = n: int | 0 <= n < U64_LIMIT

  /** An f32 on the raw transfer path: its bit pattern, never interpreted as a number. */
  type Word = U32

  /** Division rounding up, as `usize::div_ceil`. */
  function DivCeil(n: nat, m: nat): nat
    requires m > 0
  {
    (n + m - 1) / m
  }

  function Min(a: int, b: int): (m: int)
    ensures m <= a && m <= b && (m == a || m == b)
  {
    if a <= b then a else b
  }

  function Max(a: int, b: int): (m: int)
    ensures m >= a && m >= b && (m == a || m == b)
  {
    if a >= b then a else b
  }

  /** The `width` low-order base-256 digits of `n`, most significant first: `to_be_bytes` after an `as` cast. */
  function BigEndian(n: nat, width: nat): (bytes: seq<Byte>)
    ensures |bytes| == width
  {
    if width == 0 then [] else BigEndian(n / 0x100, width - 1) + [n % 0x100]
  }

  /** The number a big-endian byte string denotes: `from_be_bytes`. */
  function FromBigEndian(bytes: seq<Byte>): nat
  {
    if bytes == [] then 0
    else FromBigEndian(bytes[..|bytes| - 1]) * 0x100 + bytes[|bytes| - 1]
  }

  /** The first byte counts most. */
  lemma TwoBytes(bytes: seq<Byte>)
    requires |bytes| == 2
    ensures FromBigEndian(bytes) == bytes[0] as int * 0x100 + bytes[1]
  {
    assert FromBigEndian(bytes[..1]) == FromBigEndian(bytes[..1][..0]) * 0x100 + bytes[0];
    assert bytes[..2] == bytes;
  }

  lemma FourBytes(bytes: seq<Byte>)
    requires |bytes| == 4
    ensures FromBigEndian(bytes) == bytes[0] as int * 0x100_0000 + bytes[1] as int * 0x1_0000 + bytes[2] as int * 0x100 + bytes[3]
  {
    TwoBytes(bytes[..2]);
    assert bytes[..3][..2] == bytes[..2];
    assert FromBigEndian(bytes[..3]) == FromBigEndian(bytes[..2]) * 0x100 + bytes[2];
  }

  lemma EightBytes(bytes: seq<Byte>)
    requires |bytes| == 8
    ensures FromBigEndian(bytes) ==
              (bytes[0] as int * 0x100_0000 + bytes[1] as int * 0x1_0000 + bytes[2] as int * 0x100 + bytes[3]) * 0x1_0000_0000
              + bytes[4] as int * 0x100_0000 + bytes[5] as int * 0x1_0000 + bytes[6] as int * 0x100 + bytes[7]
  {
    FourBytes(bytes[..4]);
    assert bytes[..5][..4] == bytes[..4] && bytes[..6][..5] == bytes[..5] && bytes[..7][..6] == bytes[..6];
    assert FromBigEndian(bytes[..5]) == FromBigEndian(bytes[..4]) * 0x100 + bytes[4];
    assert FromBigEndian(bytes[..6]) == FromBigEndian(bytes[..5]) * 0x100 + bytes[5];
    assert FromBigEndian(bytes[..7]) == FromBigEndian(bytes[..6]) * 0x100 + bytes[6];
  }

  function Pow256(width: nat): (p: nat)
    ensures p > 0
  {
    if width == 0 then 1 else 0x100 * Pow256(width - 1)
  }

  lemma Pow256Values()
    ensures Pow256(2) == U16_LIMIT && Pow256(4) == U32_LIMIT && Pow256(8) == U64_LIMIT
  {
    assert Pow256(4) == 0x100 * (0x100 * Pow256(2));
    assert Pow256(6) == 0x100 * (0x100 * Pow256(4));
    assert Pow256(8) == 0x100 * (0x100 * Pow256(6));
  }

  /** Reading back what was written loses exactly the digits that did not fit. */
  lemma {:induction false} BigEndianValue(n: nat, width: nat)
    ensures FromBigEndian(BigEndian(n, width)) == n % Pow256(width)
  {
    if width == 0 {
    } else {
      BigEndianValue(n / 0x100, width - 1);
      var bytes := BigEndian(n, width);
      assert bytes[..|bytes| - 1] == BigEndian(n / 0x100, width - 1);
      var p := Pow256(width - 1);
      SplitLowByte(n, p);
    }
  }

  lemma BigEndianFits(n: nat, width: nat)
    requires n < Pow256(width)
    ensures FromBigEndian(BigEndian(n, width)) == n
  {
    BigEndianValue(n, width);
    ModUnique(0, n, Pow256(width));
  }

  lemma SplitLowByte(n: nat, p: nat)
    requires p > 0
    ensures n % (0x100 * p) == n / 0x100 % p * 0x100 + n % 0x100
  {
    var q, r := n / 0x100 / p, n / 0x100 % p;
    assert n / 0x100 == q * p + r;
    assert n == 0x100 * (q * p + r) + n % 0x100;
    assert 0x100 * (q * p) == q * (0x100 * p);
    ModUnique(q, r * 0x100 + n % 0x100, 0x100 * p);
  }

  lemma ModUnique(q: nat, r: nat, m: nat)
    requires r < m
    ensures (q * m + r) / m == q && (q * m + r) % m == r
  {
    var x := q * m + r;
    assert (x / m - q) * m == r - x % m;
    SmallMultiple(x / m - q, m);
  }

  lemma SmallMultiple(k: int, m: int)
    requires -m < k * m < m
    ensures k == 0
  {
    assert k >= 1 ==> k * m >= m;
    assert k <= -1 ==> k * m <= -m;
  }

  lemma BelowOneMultiple(k: int, m: int)
    requires m > 0 && k * m < m
    ensures k <= 0
  {
    assert k >= 1 ==> k * m >= m;
  }

  lemma DivMonotone(a: nat, b: nat, m: nat)
    requires m > 0 && a <= b
    ensures a / m <= b / m
  {
    assert (a / m - b / m) * m == a - a % m - (b - b % m);
    BelowOneMultiple(a / m - b / m, m);
  }

  /** The block of the last of `n` elements is the last of `DivCeil(n, m)` blocks, or an earlier one. */
  lemma BlockBelowCount(t: nat, n: nat, m: nat)
    requires m > 0 && t < n
    ensures t / m < DivCeil(n, m)
  {
    DivCeilCovers(n, m);
    QuotientBound(t, DivCeil(n, m), m);
  }

  lemma DivCeilCovers(n: nat, m: nat)
    requires m > 0
    ensures DivCeil(n, m) * m >= n
  {
    var k := n + m - 1;
    assert k / m * m + k % m == k;
  }

  /** The number of blocks is the least that has room for everything. */
  lemma DivCeilExactly(n: nat, m: nat, k: nat)
    requires m > 0
    ensures DivCeil(n, m) <= k <==> n <= k * m
  {
    DivCeilCovers(n, m);
    var c := DivCeil(n, m);
    if c <= k {
      assert c * m <= k * m;
    } else if n <= k * m {
      DivMonotone(n + m - 1, k * m + (m - 1), m);
      ModUnique(k, m - 1, m);
    }
  }

  lemma CancelFactor(k: int, n: int, m: int)
    requires m > 0 && k * m < n * m
    ensures k < n
  {
    assert (n - k) * m == n * m - k * m;
    assert n - k <= 0 ==> (n - k) * m <= 0;
  }

  lemma QuotientIsNat(a: nat, m: nat)
    requires m > 0
    ensures 0 <= a / m
  {
  }

  lemma QuotientBound(o: nat, n: nat, m: nat)
    requires o < n * m
    ensures m > 0 && 0 <= o / m < n
  {
    assert m > 0;
    assert o / m * m + o % m == o;
    CancelFactor(o / m, n, m);
  }

  /** Writing back what was read gives the same bytes. */
  lemma {:induction false} BigEndianBytes(bytes: seq<Byte>)
    ensures BigEndian(FromBigEndian(bytes), |bytes|) == bytes
    ensures FromBigEndian(bytes) < Pow256(|bytes|)
  {
    if bytes == [] {
    } else {
      var front := bytes[..|bytes| - 1];
      BigEndianBytes(front);
      assert FromBigEndian(bytes) / 0x100 == FromBigEndian(front);
      assert bytes == front + [bytes[|bytes| - 1]];
    }
  }
}
