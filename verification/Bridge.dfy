/** The Python runtime bridge (adapters/vllm_runtime_bridge.py): canonical nested lists cut into key and value blocks. */
module Bridge {
  import opened Common
  import opened Radix

  /** [seq][heads][dim] and four-dimensional nested lists. */
  type Nested3 = seq<seq<seq<real>>>
  type Nested4 = seq<seq<seq<seq<real>>>>

  predicate Rect2(x: seq<seq<real>>, m: nat, n: nat)
  {
    |x| == m && forall i | 0 <= i < m :: |x[i]| == n
  }

  predicate Rect3(x: Nested3, l: nat, m: nat, n: nat)
  {
    |x| == l && forall i | 0 <= i < l :: Rect2(x[i], m, n)
  }

  predicate Rect4(x: Nested4, k: nat, l: nat, m: nat, n: nat)
  {
    |x| == k && forall i | 0 <= i < k :: Rect3(x[i], l, m, n)
  }

  /** `len(data[0])` and `len(data[0][0])`, zero when there is nothing to look at. */
  function Heads(data: Nested3): nat { if data == [] then 0 else |data[0]| }

  function Dim(data: Nested3): nat { if data == [] || data[0] == [] then 0 else |data[0][0]| }

  predicate Canonical(data: Nested3) { Rect3(data, |data|, Heads(data), Dim(data)) }

  function At4(x: Nested4, a: nat, b: nat, c: nat, d: nat): real
    requires a < |x| && b < |x[a]| && c < |x[a][b]| && d < |x[a][b][c]|
  {
    x[a][b][c][d]
  }

  /** `x[a][b][c][d] = v`. */
  function Set4(x: Nested4, k: nat, l: nat, m: nat, n: nat, a: nat, b: nat, c: nat, d: nat, v: real): (y: Nested4)
    requires Rect4(x, k, l, m, n) && a < k && b < l && c < m && d < n
    ensures Rect4(y, k, l, m, n)
    ensures forall a': nat, b': nat, c': nat, d': nat | a' < k && b' < l && c' < m && d' < n ::
              At4(y, a', b', c', d') == if (a', b', c', d') == (a, b, c, d) then v else At4(x, a', b', c', d')
  {
    assert Rect3(x[a], l, m, n) && Rect2(x[a][b], m, n);
    var inner := x[a][b][c := x[a][b][c][d := v]];
    assert Rect2(inner, m, n);
    var middle := x[a][b := inner];
    assert Rect3(middle, l, m, n);
    x[a := middle]
  }

  function Zeros4(k: nat, l: nat, m: nat, n: nat): (x: Nested4)
    ensures Rect4(x, k, l, m, n)
    ensures forall a: nat, b: nat, c: nat, d: nat | a < k && b < l && c < m && d < n :: At4(x, a, b, c, d) == 0.0
  {
    seq(k, _ => seq(l, _ => seq(m, _ => seq(n, _ => 0.0))))
  }

  /** `_canonical_tensor_data` on a flat payload: rebuilds the nested lists by walking an offset through the data. */
  method CanonicalTensorData(data: seq<real>, shape: seq<nat>) returns (r: Result<Nested3>)
    ensures r.Success? <==> |shape| == 3 && |data| == shape[0] * shape[1] * shape[2]
    ensures r.Success? ==>
              && Rect3(r.value, shape[0], shape[1], shape[2])
              && forall t: nat, h: nat, d: nat | t < shape[0] && h < shape[1] && d < shape[2] ::
                   Flat3(t, h, d, shape[1], shape[2]) < |data| && r.value[t][h][d] == data[Flat3(t, h, d, shape[1], shape[2])]
  {
    if |shape| != 3 {
      return Failure("tensor must be canonical [seq, kv_heads, head_dim]");
    }
    var seqLen, heads, dim := shape[0], shape[1], shape[2];
    if |data| != seqLen * heads * dim {
      return Failure("flat payload length does not match shape");
    }
    var rebuilt: Nested3, offset := [], 0;
    for t := 0 to seqLen
      invariant Rect3(rebuilt, t, heads, dim) && offset == Flat3(t, 0, 0, heads, dim)
      invariant forall t': nat, h: nat | t' < t && h < heads :: rebuilt[t'][h] == RowOf(data, t', h, seqLen, heads, dim)
    {
      var slice: seq<seq<real>> := [];
      for h := 0 to heads
        invariant Rect2(slice, h, dim) && offset == Flat3(t, h, 0, heads, dim)
        invariant forall h': nat | h' < h :: slice[h'] == RowOf(data, t, h', seqLen, heads, dim)
      {
        RowInside(t, h, seqLen, heads, dim);
        slice := slice + [data[offset..offset + dim]];
        offset := offset + dim;
        Steps(t, h, heads, dim);
      }
      rebuilt := rebuilt + [slice];
      Steps(t, 0, heads, dim);
    }
    forall t: nat, h: nat, d: nat | t < seqLen && h < heads && d < dim
      ensures Flat3(t, h, d, heads, dim) < |data| && rebuilt[t][h][d] == data[Flat3(t, h, d, heads, dim)]
    {
      RowInside(t, h, seqLen, heads, dim);
      assert rebuilt[t][h] == RowOf(data, t, h, seqLen, heads, dim);
    }
    return Success(rebuilt);
  }

  lemma RowInside(t: nat, h: nat, seqLen: nat, heads: nat, dim: nat)
    requires t < seqLen && h < heads
    ensures Flat3(t, h, 0, heads, dim) + dim <= seqLen * heads * dim
  {
    StepBound(t, seqLen, h, heads);
    assert (t * heads + h + 1) * dim <= seqLen * heads * dim;
    assert (t * heads + h + 1) * dim == (t * heads + h) * dim + dim;
  }

  lemma Steps(t: nat, h: nat, heads: nat, dim: nat)
    ensures Flat3(t, h, 0, heads, dim) + dim == Flat3(t, h + 1, 0, heads, dim)
    ensures Flat3(t, heads, 0, heads, dim) == Flat3(t + 1, 0, 0, heads, dim)
  {
    assert (t * heads + h) * dim + dim == (t * heads + h + 1) * dim;
    assert t * heads + heads == (t + 1) * heads;
  }

  /** One head's row of a flat canonical tensor. */
  function RowOf(data: seq<real>, t: nat, h: nat, seqLen: nat, heads: nat, dim: nat): seq<real>
    requires |data| == seqLen * heads * dim && t < seqLen && h < heads
  {
    RowInside(t, h, seqLen, heads, dim);
    data[Flat3(t, h, 0, heads, dim)..Flat3(t, h, 0, heads, dim) + dim]
  }

  function BlockCount(seqLen: nat, blockSize: nat): nat
    requires blockSize > 0
  {
    Max(1, DivCeil(seqLen, blockSize))
  }

  /** Element (head, d) of token `token`, zero past the end of the context. */
  function Padded(data: Nested3, token: nat, h: nat, d: nat): real
    requires Canonical(data) && h < Heads(data) && d < Dim(data)
  {
    if token < |data| then data[token][h][d] else 0.0
  }

  /** How far the filling loops got: this element has been written. */
  predicate Written(token: nat, h: nat, d: nat, t: nat, h0: nat, d0: nat)
  {
    token < t || (token == t && (h < h0 || (h == h0 && d < d0)))
  }

  /** A cell of the key blocks under construction. */
  ghost predicate KeyFilled(x: Nested4, data: Nested3, blockSize: nat, blocks: nat, t: nat, h0: nat, d0: nat)
    requires Canonical(data)
  {
    && Rect4(x, blocks, Heads(data), Dim(data), blockSize)
    && forall b: nat, h: nat, d: nat, o: nat | b < blocks && h < Heads(data) && d < Dim(data) && o < blockSize ::
         At4(x, b, h, d, o) == if Written(b * blockSize + o, h, d, t, h0, d0) then Padded(data, b * blockSize + o, h, d) else 0.0
  }

  lemma TokenPlace(t: nat, blockSize: nat, b: nat, o: nat)
    requires blockSize > 0 && o < blockSize
    ensures b * blockSize + o == t <==> b == t / blockSize && o == t % blockSize
  {
    ModUnique(b, o, blockSize);
  }

  lemma KeyStep(x: Nested4, data: Nested3, blockSize: nat, blocks: nat, t: nat, h0: nat, d0: nat)
    requires Canonical(data) && blockSize > 0 && KeyFilled(x, data, blockSize, blocks, t, h0, d0)
    requires t < |data| && h0 < Heads(data) && d0 < Dim(data) && t / blockSize < blocks
    ensures Rect4(x, blocks, Heads(data), Dim(data), blockSize) && |data[t]| == Heads(data) && |data[t][h0]| == Dim(data)
    ensures KeyFilled(Set4(x, blocks, Heads(data), Dim(data), blockSize, t / blockSize, h0, d0, t % blockSize, data[t][h0][d0]),
              data, blockSize, blocks, t, h0, d0 + 1)
  {
    var y := Set4(x, blocks, Heads(data), Dim(data), blockSize, t / blockSize, h0, d0, t % blockSize, data[t][h0][d0]);
    forall b: nat, h: nat, d: nat, o: nat | b < blocks && h < Heads(data) && d < Dim(data) && o < blockSize
      ensures At4(y, b, h, d, o) ==
                if Written(b * blockSize + o, h, d, t, h0, d0 + 1) then Padded(data, b * blockSize + o, h, d) else 0.0
    {
      TokenPlace(t, blockSize, b, o);
    }
  }

  /** With nothing written the blocks are zero, and have the dimensions they keep. */
  lemma KeyStart(data: Nested3, blockSize: nat, blocks: nat)
    requires Canonical(data)
    ensures KeyFilled(Zeros4(blocks, Heads(data), Dim(data), blockSize), data, blockSize, blocks, 0, 0, 0)
  {
    hide Rect4, At4, Zeros4;
  }

  /** A row done is the next row begun, and a token done the next token begun. */
  lemma KeyRowDone(x: Nested4, data: Nested3, blockSize: nat, blocks: nat, t: nat, h0: nat)
    requires Canonical(data) && KeyFilled(x, data, blockSize, blocks, t, h0, Dim(data))
    ensures KeyFilled(x, data, blockSize, blocks, t, h0 + 1, 0)
  {
    hide At4, Rect4, Padded;
  }

  lemma KeyTokenDone(x: Nested4, data: Nested3, blockSize: nat, blocks: nat, t: nat)
    requires Canonical(data) && KeyFilled(x, data, blockSize, blocks, t, Heads(data), 0)
    ensures KeyFilled(x, data, blockSize, blocks, t + 1, 0, 0)
  {
    hide At4, Rect4, Padded;
  }

  /** With every token written the blocks are what they should be. */
  lemma KeyDone(x: Nested4, data: Nested3, blockSize: nat, blocks: nat)
    requires Canonical(data) && KeyFilled(x, data, blockSize, blocks, |data|, 0, 0)
    ensures Rect4(x, blocks, Heads(data), Dim(data), blockSize)
    ensures forall b: nat, h: nat, d: nat, o: nat | b < blocks && h < Heads(data) && d < Dim(data) && o < blockSize ::
              At4(x, b, h, d, o) == Padded(data, b * blockSize + o, h, d)
  {
    hide At4, Rect4;
  }

  /** `_key_to_blocks`: token t of head h lands in block t / block_size, offset t mod block_size; the rest is zero. */
  method KeyToBlocks(data: Nested3, blockSize: nat) returns (blocks: Nested4)
    requires blockSize > 0 && Canonical(data)
    ensures |blocks| == Max(1, DivCeil(|data|, blockSize))
    ensures Rect4(blocks, BlockCount(|data|, blockSize), Heads(data), Dim(data), blockSize)
    ensures forall b: nat, h: nat, d: nat, o: nat
              | b < BlockCount(|data|, blockSize) && h < Heads(data) && d < Dim(data) && o < blockSize ::
              At4(blocks, b, h, d, o) == Padded(data, b * blockSize + o, h, d)
  {
    var seqLen, heads, dim := |data|, Heads(data), Dim(data);
    var count := BlockCount(seqLen, blockSize);
    hide DivCeil, Canonical, Padded, At4, KeyFilled, Set4, Zeros4;
    KeyStart(data, blockSize, count);
    blocks := Zeros4(count, heads, dim, blockSize);
    for t := 0 to seqLen
      invariant KeyFilled(blocks, data, blockSize, count, t, 0, 0)
    {
      BlockBelowCount(t, seqLen, blockSize);
      for h := 0 to heads
        invariant KeyFilled(blocks, data, blockSize, count, t, h, 0)
      {
        for d := 0 to dim
          invariant KeyFilled(blocks, data, blockSize, count, t, h, d)
        {
          KeyStep(blocks, data, blockSize, count, t, h, d);
          blocks := Set4(blocks, count, heads, dim, blockSize, t / blockSize, h, d, t % blockSize, data[t][h][d]);
        }
        KeyRowDone(blocks, data, blockSize, count, t, h);
      }
      KeyTokenDone(blocks, data, blockSize, count, t);
    }
    KeyDone(blocks, data, blockSize, count);
  }

  /** A cell of the value blocks under construction: offset before dimension. */
  ghost predicate ValueFilled(x: Nested4, data: Nested3, blockSize: nat, blocks: nat, t: nat, h0: nat, d0: nat)
    requires Canonical(data)
  {
    && Rect4(x, blocks, Heads(data), blockSize, Dim(data))
    && forall b: nat, h: nat, o: nat, d: nat | b < blocks && h < Heads(data) && o < blockSize && d < Dim(data) ::
         At4(x, b, h, o, d) == if Written(b * blockSize + o, h, d, t, h0, d0) then Padded(data, b * blockSize + o, h, d) else 0.0
  }

  lemma ValueStep(x: Nested4, data: Nested3, blockSize: nat, blocks: nat, t: nat, h0: nat, d0: nat)
    requires Canonical(data) && blockSize > 0 && ValueFilled(x, data, blockSize, blocks, t, h0, d0)
    requires t < |data| && h0 < Heads(data) && d0 < Dim(data) && t / blockSize < blocks
    ensures Rect4(x, blocks, Heads(data), blockSize, Dim(data)) && |data[t]| == Heads(data) && |data[t][h0]| == Dim(data)
    ensures ValueFilled(Set4(x, blocks, Heads(data), blockSize, Dim(data), t / blockSize, h0, t % blockSize, d0, data[t][h0][d0]),
              data, blockSize, blocks, t, h0, d0 + 1)
  {
    var y := Set4(x, blocks, Heads(data), blockSize, Dim(data), t / blockSize, h0, t % blockSize, d0, data[t][h0][d0]);
    forall b: nat, h: nat, o: nat, d: nat | b < blocks && h < Heads(data) && o < blockSize && d < Dim(data)
      ensures At4(y, b, h, o, d) ==
                if Written(b * blockSize + o, h, d, t, h0, d0 + 1) then Padded(data, b * blockSize + o, h, d) else 0.0
    {
      TokenPlace(t, blockSize, b, o);
    }
  }

  /** With nothing written the blocks are zero, and have the dimensions they keep. */
  lemma ValueStart(data: Nested3, blockSize: nat, blocks: nat)
    requires Canonical(data)
    ensures ValueFilled(Zeros4(blocks, Heads(data), blockSize, Dim(data)), data, blockSize, blocks, 0, 0, 0)
  {
    hide Rect4, At4, Zeros4;
  }

  /** A row done is the next row begun, and a token done the next token begun. */
  lemma ValueRowDone(x: Nested4, data: Nested3, blockSize: nat, blocks: nat, t: nat, h0: nat)
    requires Canonical(data) && ValueFilled(x, data, blockSize, blocks, t, h0, Dim(data))
    ensures ValueFilled(x, data, blockSize, blocks, t, h0 + 1, 0)
  {
    hide At4, Rect4, Padded;
  }

  lemma ValueTokenDone(x: Nested4, data: Nested3, blockSize: nat, blocks: nat, t: nat)
    requires Canonical(data) && ValueFilled(x, data, blockSize, blocks, t, Heads(data), 0)
    ensures ValueFilled(x, data, blockSize, blocks, t + 1, 0, 0)
  {
    hide At4, Rect4, Padded;
  }

  /** With every token written the blocks are what they should be. */
  lemma ValueDone(x: Nested4, data: Nested3, blockSize: nat, blocks: nat)
    requires Canonical(data) && ValueFilled(x, data, blockSize, blocks, |data|, 0, 0)
    ensures Rect4(x, blocks, Heads(data), blockSize, Dim(data))
    ensures forall b: nat, h: nat, o: nat, d: nat | b < blocks && h < Heads(data) && o < blockSize && d < Dim(data) ::
              At4(x, b, h, o, d) == Padded(data, b * blockSize + o, h, d)
  {
    hide At4, Rect4;
  }

  /** `_value_to_blocks`: the same placement with offset and dimension swapped. */
  method ValueToBlocks(data: Nested3, blockSize: nat) returns (blocks: Nested4)
    requires blockSize > 0 && Canonical(data)
    ensures |blocks| == Max(1, DivCeil(|data|, blockSize))
    ensures Rect4(blocks, BlockCount(|data|, blockSize), Heads(data), blockSize, Dim(data))
    ensures forall b: nat, h: nat, o: nat, d: nat
              | b < BlockCount(|data|, blockSize) && h < Heads(data) && o < blockSize && d < Dim(data) ::
              At4(blocks, b, h, o, d) == Padded(data, b * blockSize + o, h, d)
  {
    var seqLen, heads, dim := |data|, Heads(data), Dim(data);
    var count := BlockCount(seqLen, blockSize);
    hide DivCeil, Canonical, Padded, At4, ValueFilled, Set4, Zeros4;
    ValueStart(data, blockSize, count);
    blocks := Zeros4(count, heads, blockSize, dim);
    for t := 0 to seqLen
      invariant ValueFilled(blocks, data, blockSize, count, t, 0, 0)
    {
      BlockBelowCount(t, seqLen, blockSize);
      for h := 0 to heads
        invariant ValueFilled(blocks, data, blockSize, count, t, h, 0)
      {
        for d := 0 to dim
          invariant ValueFilled(blocks, data, blockSize, count, t, h, d)
        {
          ValueStep(blocks, data, blockSize, count, t, h, d);
          blocks := Set4(blocks, count, heads, blockSize, dim, t / blockSize, h, t % blockSize, d, data[t][h][d]);
        }
        ValueRowDone(blocks, data, blockSize, count, t, h);
      }
      ValueTokenDone(blocks, data, blockSize, count, t);
    }
    ValueDone(blocks, data, blockSize, count);
  }
}
