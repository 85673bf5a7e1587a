/**
 Row-major offsets of three- and four-dimensional buffers. The Rust transpiler adds up strides,
 the Python flat reader multiplies step by step; both are one bijection between index tuples and
 buffer positions.
 */
module Radix {
  import opened Common

  /** Position of element [i][j][k] of a [_, J, K] buffer. */
  function Flat3(i: nat, j: nat, k: nat, J: nat, K: nat): nat
  {
    (i * J + j) * K + k
  }

  /** Position of element [i][j][k][l] of a [_, J, K, L] buffer. */
  function Flat4(i: nat, j: nat, k: nat, l: nat, J: nat, K: nat, L: nat): nat
  {
    ((i * J + j) * K + k) * L + l
  }

  datatype Index3 = Index3(i: nat, j: nat, k: nat)

  datatype Index4 = Index4(i: nat, j: nat, k: nat, l: nat)

  function Unflat3(o: nat, J: nat, K: nat): Index3
    requires J > 0 && K > 0
  {
    Index3(o / K / J, o / K % J, o % K)
  }

  function Unflat4(o: nat, J: nat, K: nat, L: nat): Index4
    requires J > 0 && K > 0 && L > 0
  {
    Index4(o / L / K / J, o / L / K % J, o / L % K, o % L)
  }

  lemma StepBound(i: nat, n: nat, r: nat, m: nat)
    requires i < n && r < m
    ensures i * m + r < n * m
  {
    assert (i + 1) * m <= n * m;
  }

  /** Indices within the dimensions land inside the buffer, and the offset determines them. */
  lemma Flat3Decodes(i: nat, j: nat, k: nat, I: nat, J: nat, K: nat)
    requires i < I && j < J && k < K
    ensures Flat3(i, j, k, J, K) < I * J * K
    ensures Unflat3(Flat3(i, j, k, J, K), J, K) == Index3(i, j, k)
  {
    StepBound(i, I, j, J);
    StepBound(i * J + j, I * J, k, K);
    ModUnique(i * J + j, k, K);
    ModUnique(i, j, J);
  }

  /** Every position of the buffer is the offset of indices within the dimensions. */
  lemma Flat3Covers(o: nat, I: nat, J: nat, K: nat)
    requires o < I * J * K
    ensures J > 0 && K > 0
    ensures var x := Unflat3(o, J, K); x.i < I && x.j < J && x.k < K && Flat3(x.i, x.j, x.k, J, K) == o
  {
    QuotientBound(o, I * J, K);
    QuotientBound(o / K, I, J);
  }

  lemma Flat4Decodes(i: nat, j: nat, k: nat, l: nat, I: nat, J: nat, K: nat, L: nat)
    requires i < I && j < J && k < K && l < L
    ensures Flat4(i, j, k, l, J, K, L) < I * J * K * L
    ensures Unflat4(Flat4(i, j, k, l, J, K, L), J, K, L) == Index4(i, j, k, l)
  {
    Flat3Decodes(i, j, k, I, J, K);
    StepBound(Flat3(i, j, k, J, K), I * J * K, l, L);
    ModUnique(Flat3(i, j, k, J, K), l, L);
  }

  lemma Flat4Covers(o: nat, I: nat, J: nat, K: nat, L: nat)
    requires o < I * J * K * L
    ensures J > 0 && K > 0 && L > 0
    ensures var x := Unflat4(o, J, K, L);
            x.i < I && x.j < J && x.k < K && x.l < L && Flat4(x.i, x.j, x.k, x.l, J, K, L) == o
  {
    QuotientBound(o, I * J * K, L);
    Flat3Covers(o / L, I, J, K);
  }

  /** The stride sums of the Rust loops are the same offsets. */
  lemma StridesAreFlat(i: nat, j: nat, k: nat, l: nat, J: nat, K: nat, L: nat)
    ensures i * (J * K) + j * K + k == Flat3(i, j, k, J, K)
    ensures i * (J * K * L) + j * (K * L) + k * L + l == Flat4(i, j, k, l, J, K, L)
  {
    assert (i * J + j) * K == i * (J * K) + j * K;
    calc {
      ((i * J + j) * K + k) * L;
      (i * (J * K) + j * K + k) * L;
      i * (J * K) * L + j * K * L + k * L;
    }
    assert i * (J * K) * L == i * (J * K * L);
    assert j * K * L == j * (K * L);
  }
}
