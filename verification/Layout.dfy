/**
 The layout transpiler (crates/transpiler/src/layout.rs): canonical [seq_len, heads, dim] tensors
 and vLLM paged blocks, [blocks, heads, dim, block_size] for keys and
 [blocks, heads, block_size, dim] for values.
 */
module Layout {
  import opened Common
  import opened Radix

  datatype Tensor = Tensor(data: seq<Word>, shape: seq<nat>)

  datatype Kind = Key | Value

  /** A token's slot inside a paged buffer. */
  datatype Slot = Slot(block: nat, head: nat, dim: nat, token: nat)

  datatype Geometry = Geometry(seqLen: nat, heads: nat, dim: nat, blockSize: nat) {

    predicate Paged() { blockSize > 0 }

    function CanonicalSize(): nat { seqLen * heads * dim }

    function Blocks(): nat
      requires Paged()
    {
      DivCeil(seqLen, blockSize)
    }

    function BlockFloats(kind: Kind): nat
    {
      match kind
      case Key => heads * dim * blockSize
      case Value => heads * blockSize * dim
    }

    /** Number of cells in `blocks` blocks. */
    function PagedSize(kind: Kind, blocks: nat): nat
    {
      match kind
      case Key => blocks * heads * dim * blockSize
      case Value => blocks * heads * blockSize * dim
    }

    predicate Holds(s: Slot, blocks: nat)
    {
      s.block < blocks && s.head < heads && s.dim < dim && s.token < blockSize
    }

    /** Where a slot lives in the flat paged buffer. */
    function Position(kind: Kind, s: Slot): nat
    {
      match kind
      case Key => Flat4(s.block, s.head, s.dim, s.token, heads, dim, blockSize)
      case Value => Flat4(s.block, s.head, s.token, s.dim, heads, blockSize, dim)
    }

    /** The slot stored at a position of the flat paged buffer. */
    function SlotAt(kind: Kind, o: nat): Slot
      requires heads > 0 && dim > 0 && blockSize > 0
    {
      match kind
      case Key =>
        var x := Unflat4(o, heads, dim, blockSize);
        Slot(x.i, x.j, x.k, x.l)
      case Value =>
        var x := Unflat4(o, heads, blockSize, dim);
        Slot(x.i, x.j, x.l, x.k)
    }

    /** The position of a token's element in the canonical buffer. */
    function CanonicalPosition(token: nat, head: nat, d: nat): nat
    {
      Flat3(token, head, d, heads, dim)
    }

    function TokenOf(s: Slot): nat { s.block * blockSize + s.token }

    function SlotOf(token: nat, head: nat, d: nat): Slot
      requires Paged()
    {
      Slot(token / blockSize, head, d, token % blockSize)
    }
  }

  /** Positions and slots are in one-to-one correspondence, for keys and for values: every slot decodes back from its position. */
  lemma PositionDecodes(g: Geometry, kind: Kind, s: Slot, blocks: nat)
    requires g.Holds(s, blocks)
    ensures g.Position(kind, s) < g.PagedSize(kind, blocks)
    ensures g.SlotAt(kind, g.Position(kind, s)) == s
  {
    match kind
    case Key => Flat4Decodes(s.block, s.head, s.dim, s.token, blocks, g.heads, g.dim, g.blockSize);
    case Value => Flat4Decodes(s.block, s.head, s.token, s.dim, blocks, g.heads, g.blockSize, g.dim);
  }

  /** ... and every position of the buffer holds some slot. */
  lemma PositionCovers(g: Geometry, kind: Kind, o: nat, blocks: nat)
    requires o < g.PagedSize(kind, blocks)
    ensures g.heads > 0 && g.dim > 0 && g.blockSize > 0
    ensures g.Holds(g.SlotAt(kind, o), blocks)
    ensures g.Position(kind, g.SlotAt(kind, o)) == o
  {
    match kind
    case Key => Flat4Covers(o, blocks, g.heads, g.dim, g.blockSize);
    case Value => Flat4Covers(o, blocks, g.heads, g.blockSize, g.dim);
  }

  lemma CanonicalDecodes(g: Geometry, token: nat, head: nat, d: nat)
    requires token < g.seqLen && head < g.heads && d < g.dim
    ensures g.CanonicalPosition(token, head, d) < g.CanonicalSize()
    ensures Unflat3(g.CanonicalPosition(token, head, d), g.heads, g.dim) == Index3(token, head, d)
  {
    Flat3Decodes(token, head, d, g.seqLen, g.heads, g.dim);
  }

  /** A token's slot lies in one of the `ceil(seqLen / blockSize)` blocks, and names that token. */
  lemma SlotOfToken(g: Geometry, token: nat, head: nat, d: nat)
    requires g.Paged() && token < g.seqLen && head < g.heads && d < g.dim
    ensures g.Holds(g.SlotOf(token, head, d), g.Blocks())
    ensures g.TokenOf(g.SlotOf(token, head, d)) == token
  {
    BlockOfToken(token, g.seqLen, g.blockSize);
  }

  lemma BlockOfToken(token: nat, seqLen: nat, blockSize: nat)
    requires blockSize > 0 && token < seqLen
    ensures token / blockSize < DivCeil(seqLen, blockSize)
    ensures token / blockSize * blockSize + token % blockSize == token
  {
    var blocks := DivCeil(seqLen, blockSize);
    assert blocks * blockSize >= seqLen;
    QuotientBound(token, blocks, blockSize);
  }

  /** The paged cell at a position: the canonical element of its token, or zero past the end. */
  function BlockedAt(kind: Kind, canonical: seq<Word>, g: Geometry, o: nat): Word
    requires g.Paged() && |canonical| >= g.CanonicalSize() && o < g.PagedSize(kind, g.Blocks())
  {
    PositionCovers(g, kind, o, g.Blocks());
    var s := g.SlotAt(kind, o);
    var token := g.TokenOf(s);
    if token < g.seqLen then
      CanonicalDecodes(g, token, s.head, s.dim);
      canonical[g.CanonicalPosition(token, s.head, s.dim)]
    else 0
  }

  function Blocked(kind: Kind, canonical: seq<Word>, g: Geometry): (paged: seq<Word>)
    requires g.Paged() && |canonical| >= g.CanonicalSize()
    ensures |paged| == g.PagedSize(kind, g.Blocks())
  {
    seq(g.PagedSize(kind, g.Blocks()),
      o requires 0 <= o < g.PagedSize(kind, g.Blocks()) => BlockedAt(kind, canonical, g, o))
  }

  /** A buffer of this size has the slot of every token. */
  ghost predicate Readable(kind: Kind, size: nat, g: Geometry)
    requires g.Paged()
  {
    forall token: nat, head: nat, d: nat | token < g.seqLen && head < g.heads && d < g.dim ::
      g.Position(kind, g.SlotOf(token, head, d)) < size
  }

  lemma WholeIsReadable(kind: Kind, size: nat, blocks: nat, g: Geometry)
    requires g.Paged() && g.Blocks() <= blocks && size >= g.PagedSize(kind, blocks)
    ensures Readable(kind, size, g)
  {
    forall token: nat, head: nat, d: nat | token < g.seqLen && head < g.heads && d < g.dim
      ensures g.Position(kind, g.SlotOf(token, head, d)) < size
    {
      SlotOfToken(g, token, head, d);
      PositionDecodes(g, kind, g.SlotOf(token, head, d), blocks);
    }
  }

  /** The canonical element at a position: the paged cell of its token's slot. */
  function UnblockedAt(kind: Kind, paged: seq<Word>, g: Geometry, o: nat): Word
    requires g.Paged() && Readable(kind, |paged|, g) && o < g.CanonicalSize()
  {
    Flat3Covers(o, g.seqLen, g.heads, g.dim);
    var x := Unflat3(o, g.heads, g.dim);
    paged[g.Position(kind, g.SlotOf(x.i, x.j, x.k))]
  }

  function Unblocked(kind: Kind, paged: seq<Word>, g: Geometry): (canonical: seq<Word>)
    requires g.Paged() && Readable(kind, |paged|, g)
    ensures |canonical| == g.CanonicalSize()
  {
    seq(g.CanonicalSize(), o requires 0 <= o < g.CanonicalSize() => UnblockedAt(kind, paged, g, o))
  }

  /**
   Token `t` of the canonical tensor is cell [t / S][head][dim][t mod S] of the paged one (with the
   last two swapped for values), and every cell past the last token is zero padding.
   */
  lemma BlockedMeaning(kind: Kind, canonical: seq<Word>, g: Geometry, s: Slot)
    requires g.Paged() && |canonical| >= g.CanonicalSize() && g.Holds(s, g.Blocks())
    ensures g.Position(kind, s) < |Blocked(kind, canonical, g)|
    ensures g.TokenOf(s) < g.seqLen ==>
              && g.CanonicalPosition(g.TokenOf(s), s.head, s.dim) < |canonical|
              && Blocked(kind, canonical, g)[g.Position(kind, s)]
                 == canonical[g.CanonicalPosition(g.TokenOf(s), s.head, s.dim)]
    ensures g.TokenOf(s) >= g.seqLen ==> Blocked(kind, canonical, g)[g.Position(kind, s)] == 0
  {
    PositionDecodes(g, kind, s, g.Blocks());
    if g.TokenOf(s) < g.seqLen {
      CanonicalDecodes(g, g.TokenOf(s), s.head, s.dim);
    }
  }

  /** Paging in plain indices: cell [b][head][dim][o] of the keys, [b][head][o][dim] of the values. */
  lemma BlockedExactly(canonical: seq<Word>, g: Geometry, b: nat, head: nat, d: nat, o: nat, token: nat, e: nat, k: nat, v: nat)
    requires g.blockSize > 0 && |canonical| >= g.seqLen * g.heads * g.dim
    requires b * g.blockSize < g.seqLen && head < g.heads && d < g.dim && o < g.blockSize
    requires token == b * g.blockSize + o && e == token * (g.heads * g.dim) + head * g.dim + d
    requires k == b * (g.heads * g.dim * g.blockSize) + head * (g.dim * g.blockSize) + d * g.blockSize + o
    requires v == b * (g.heads * g.blockSize * g.dim) + head * (g.blockSize * g.dim) + o * g.dim + d
    ensures k < |Blocked(Key, canonical, g)| && v < |Blocked(Value, canonical, g)|
    ensures token < g.seqLen ==> e < |canonical| && Blocked(Key, canonical, g)[k] == canonical[e] == Blocked(Value, canonical, g)[v]
    ensures token >= g.seqLen ==> Blocked(Key, canonical, g)[k] == 0 == Blocked(Value, canonical, g)[v]
  {
    var s := Slot(b, head, d, o);
    assert b < g.Blocks() by {
      DivCeilExactly(g.seqLen, g.blockSize, b);
    }
    RustOffsets(g, s, token);
    assert g.TokenOf(s) == token;
    hide Blocked, Flat4, Flat3, DivCeil;
    BlockedMeaning(Key, canonical, g, s);
    BlockedMeaning(Value, canonical, g, s);
  }

  /** A token's slot: block t / S, offset t mod S. */
  lemma SlotExactly(g: Geometry, token: nat, head: nat, d: nat)
    requires g.blockSize > 0
    ensures g.SlotOf(token, head, d) == Slot(token / g.blockSize, head, d, token % g.blockSize)
  {
  }

  /** Unpaging a paged tensor gives the tensor back, for every shape and block size. */
  lemma LayoutRoundTrip(kind: Kind, canonical: seq<Word>, g: Geometry)
    requires g.Paged() && |canonical| >= g.CanonicalSize()
    ensures Readable(kind, |Blocked(kind, canonical, g)|, g)
    ensures Unblocked(kind, Blocked(kind, canonical, g), g) == canonical[..g.CanonicalSize()]
  {
    var paged := Blocked(kind, canonical, g);
    WholeIsReadable(kind, |paged|, g.Blocks(), g);
    forall o | 0 <= o < g.CanonicalSize()
      ensures UnblockedAt(kind, paged, g, o) == canonical[o]
    {
      Flat3Covers(o, g.seqLen, g.heads, g.dim);
      var x := Unflat3(o, g.heads, g.dim);
      SlotOfToken(g, x.i, x.j, x.k);
      BlockedMeaning(kind, canonical, g, g.SlotOf(x.i, x.j, x.k));
    }
  }

  ghost predicate ZeroPadded(kind: Kind, paged: seq<Word>, g: Geometry)
    requires g.Paged() && |paged| == g.PagedSize(kind, g.Blocks())
  {
    forall o | 0 <= o < |paged| :: PastEnd(kind, g, o) ==> paged[o] == 0
  }

  ghost predicate PastEnd(kind: Kind, g: Geometry, o: nat)
    requires g.Paged() && o < g.PagedSize(kind, g.Blocks())
  {
    PositionCovers(g, kind, o, g.Blocks());
    g.TokenOf(g.SlotAt(kind, o)) >= g.seqLen
  }

  /** The other way round, paging an unpaged buffer restores it exactly when its padding was zero. */
  lemma PagedRoundTrip(kind: Kind, paged: seq<Word>, g: Geometry)
    requires g.Paged() && |paged| == g.PagedSize(kind, g.Blocks())
    ensures Readable(kind, |paged|, g)
    ensures Blocked(kind, Unblocked(kind, paged, g), g) == paged <==> ZeroPadded(kind, paged, g)
  {
    WholeIsReadable(kind, |paged|, g.Blocks(), g);
    var again := Blocked(kind, Unblocked(kind, paged, g), g);
    forall o | 0 <= o < |paged|
      ensures again[o] == if PastEnd(kind, g, o) then 0 else paged[o]
    {
      PositionCovers(g, kind, o, g.Blocks());
      var s := g.SlotAt(kind, o);
      if g.TokenOf(s) < g.seqLen {
        CanonicalDecodes(g, g.TokenOf(s), s.head, s.dim);
        ModUnique(s.block, s.token, g.blockSize);
        assert g.SlotOf(g.TokenOf(s), s.head, s.dim) == s;
      }
    }
  }

  /** The stride sums the Rust loops compute are the positions of the specification. */
  lemma RustOffsets(g: Geometry, s: Slot, token: nat)
    ensures s.block * (g.heads * g.dim * g.blockSize) + s.head * (g.dim * g.blockSize)
            + s.dim * g.blockSize + s.token == g.Position(Key, s)
    ensures s.block * (g.heads * g.blockSize * g.dim) + s.head * (g.blockSize * g.dim)
            + s.token * g.dim + s.dim == g.Position(Value, s)
    ensures token * (g.heads * g.dim) + s.head * g.dim + s.dim == g.CanonicalPosition(token, s.head, s.dim)
  {
    StridesAreFlat(s.block, s.head, s.dim, s.token, g.heads, g.dim, g.blockSize);
    StridesAreFlat(s.block, s.head, s.token, s.dim, g.heads, g.blockSize, g.dim);
    StridesAreFlat(token, s.head, s.dim, 0, g.heads, g.dim, 0);
  }

  lemma LastBlockStarts(n: nat, m: nat, block: nat)
    requires m > 0 && block < DivCeil(n, m) - 1
    ensures (block + 1) * m < n
  {
    if (block + 1) * m >= n {
      DivMonotone(n + m - 1, (block + 1) * m + (m - 1), m);
      ModUnique(block + 1, m - 1, m);
    }
  }

  /** Only the last block has cells past the end. */
  lemma PaddingInLastBlock(kind: Kind, g: Geometry, o: nat)
    requires g.Paged() && o < g.PagedSize(kind, g.Blocks()) && PastEnd(kind, g, o)
    ensures g.Blocks() > 0 && (g.Blocks() - 1) * (g.heads * g.dim * g.blockSize) <= o
  {
    hide Unflat4, Flat4;
    PositionCovers(g, kind, o, g.Blocks());
    var s := g.SlotAt(kind, o);
    if s.block < g.Blocks() - 1 {
      LastBlockStarts(g.seqLen, g.blockSize, s.block);
      TokenBelowNext(s.block, s.token, g.blockSize);
    }
    BlockStarts(kind, g, s);
  }

  lemma TokenBelowNext(block: nat, token: nat, m: nat)
    requires token < m
    ensures block * m + token < (block + 1) * m
  {
  }

  /** No cell of a block lies before the blocks preceding it. */
  lemma BlockStarts(kind: Kind, g: Geometry, s: Slot)
    ensures s.block * (g.heads * g.dim * g.blockSize) <= g.Position(kind, s)
  {
    match kind
    case Key => FirstStride(s.block, s.head, s.dim, s.token, g.heads, g.dim, g.blockSize);
    case Value =>
      FirstStride(s.block, s.head, s.token, s.dim, g.heads, g.blockSize, g.dim);
      SwapFactors(g.heads, g.dim, g.blockSize);
  }

  lemma FirstStride(i: nat, j: nat, k: nat, l: nat, J: nat, K: nat, L: nat)
    ensures i * (J * K * L) <= Flat4(i, j, k, l, J, K, L)
  {
    hide Flat4;
    StridesAreFlat(i, j, k, l, J, K, L);
  }

  lemma SwapFactors(a: nat, b: nat, c: nat)
    ensures a * b * c == a * c * b
  {
  }

  /** Paging looks at no element beyond the canonical size. */
  lemma BlockedIgnoresExcess(kind: Kind, canonical: seq<Word>, g: Geometry)
    requires g.Paged() && |canonical| >= g.CanonicalSize()
    ensures Blocked(kind, canonical[..g.CanonicalSize()], g) == Blocked(kind, canonical, g)
  {
    var cut := canonical[..g.CanonicalSize()];
    forall o | 0 <= o < g.PagedSize(kind, g.Blocks())
      ensures BlockedAt(kind, cut, g, o) == BlockedAt(kind, canonical, g, o)
    {
      PositionCovers(g, kind, o, g.Blocks());
      var s := g.SlotAt(kind, o);
      if g.TokenOf(s) < g.seqLen {
        CanonicalDecodes(g, g.TokenOf(s), s.head, s.dim);
      }
    }
  }

  /** Stepping past the end of a dimension is stepping to the next index of the one before it. */
  lemma Carry(i: nat, j: nat, k: nat, l: nat, J: nat, K: nat, L: nat)
    ensures Flat4(i, j, k, L, J, K, L) == Flat4(i, j, k + 1, 0, J, K, L)
    ensures Flat4(i, j, K, 0, J, K, L) == Flat4(i, j + 1, 0, 0, J, K, L)
    ensures Flat4(i, J, 0, 0, J, K, L) == Flat4(i + 1, 0, 0, 0, J, K, L)
    ensures Flat4(i, j, k, l + 1, J, K, L) == Flat4(i, j, k, l, J, K, L) + 1
  {
    assert (i * J + J) == (i + 1) * J;
    var q := i * J + j;
    assert q * K + K == (q + 1) * K;
    var r := q * K + k;
    assert r * L + L == (r + 1) * L;
  }

  /** The stride sum of the paged buffer. */
  function VllmOffset(kind: Kind, g: Geometry, s: Slot): (o: nat)
    ensures o == g.Position(kind, s)
  {
    RustOffsets(g, s, 0);
    match kind
    case Key => s.block * (g.heads * g.dim * g.blockSize) + s.head * (g.dim * g.blockSize) + s.dim * g.blockSize + s.token
    case Value => s.block * (g.heads * g.blockSize * g.dim) + s.head * (g.blockSize * g.dim) + s.token * g.dim + s.dim
  }

  /** The first `n` cells of a paged buffer under construction are final. */
  ghost predicate Filled(kind: Kind, data: seq<Word>, canonical: seq<Word>, g: Geometry, n: nat)
    requires g.Paged() && |canonical| >= g.CanonicalSize()
  {
    && |data| == g.PagedSize(kind, g.Blocks())
    && n <= |data|
    && forall o | 0 <= o < n :: data[o] == BlockedAt(kind, canonical, g, o)
  }

  /** The loop body of both pagings: one cell, from its token or zero. */
  method StoreCell(kind: Kind, data: array<Word>, canonical: seq<Word>, g: Geometry, s: Slot)
    requires g.Paged() && |canonical| >= g.CanonicalSize() && g.Holds(s, g.Blocks())
    requires Filled(kind, data[..], canonical, g, g.Position(kind, s))
    modifies data
    ensures Filled(kind, data[..], canonical, g, g.Position(kind, s) + 1)
  {
    var vllmOffset := VllmOffset(kind, g, s);
    PositionDecodes(g, kind, s, g.Blocks());
    var token := s.block * g.blockSize + s.token;
    if token < g.seqLen {
      CanonicalDecodes(g, token, s.head, s.dim);
      RustOffsets(g, s, token);
      data[vllmOffset] := canonical[token * (g.heads * g.dim) + s.head * g.dim + s.dim];
    } else {
      data[vllmOffset] := 0;
    }
  }

  /** One head of one block of keys: dimension by dimension, its tokens. */
  method StoreKeyHead(data: array<Word>, canonical: seq<Word>, g: Geometry, b: nat, h: nat)
    requires g.Paged() && |canonical| >= g.CanonicalSize() && b < g.Blocks() && h < g.heads
    requires Filled(Key, data[..], canonical, g, g.Position(Key, Slot(b, h, 0, 0)))
    modifies data
    ensures Filled(Key, data[..], canonical, g, g.Position(Key, Slot(b, h + 1, 0, 0)))
  {
    hide BlockedAt, Flat4, Filled;
    for d := 0 to g.dim
      invariant Filled(Key, data[..], canonical, g, g.Position(Key, Slot(b, h, d, 0)))
    {
      for t := 0 to g.blockSize
        invariant Filled(Key, data[..], canonical, g, g.Position(Key, Slot(b, h, d, t)))
      {
        StoreCell(Key, data, canonical, g, Slot(b, h, d, t));
        Carry(b, h, d, t, g.heads, g.dim, g.blockSize);
      }
      Carry(b, h, d, 0, g.heads, g.dim, g.blockSize);
    }
    Carry(b, h, 0, 0, g.heads, g.dim, g.blockSize);
  }

  /** One head of one block of values: token by token, its dimensions. */
  method StoreValueHead(data: array<Word>, canonical: seq<Word>, g: Geometry, b: nat, h: nat)
    requires g.Paged() && |canonical| >= g.CanonicalSize() && b < g.Blocks() && h < g.heads
    requires Filled(Value, data[..], canonical, g, g.Position(Value, Slot(b, h, 0, 0)))
    modifies data
    ensures Filled(Value, data[..], canonical, g, g.Position(Value, Slot(b, h + 1, 0, 0)))
  {
    hide BlockedAt, Flat4, Filled;
    for t := 0 to g.blockSize
      invariant Filled(Value, data[..], canonical, g, g.Position(Value, Slot(b, h, 0, t)))
    {
      for d := 0 to g.dim
        invariant Filled(Value, data[..], canonical, g, g.Position(Value, Slot(b, h, d, t)))
      {
        StoreCell(Value, data, canonical, g, Slot(b, h, d, t));
        Carry(b, h, t, d, g.heads, g.blockSize, g.dim);
      }
      Carry(b, h, t, 0, g.heads, g.blockSize, g.dim);
    }
    Carry(b, h, 0, 0, g.heads, g.blockSize, g.dim);
  }

  lemma FilledFromStart(kind: Kind, data: seq<Word>, canonical: seq<Word>, g: Geometry)
    requires g.Paged() && |canonical| >= g.CanonicalSize() && |data| == g.PagedSize(kind, g.Blocks())
    ensures Filled(kind, data, canonical, g, g.Position(kind, Slot(0, 0, 0, 0)))
  {
  }

  lemma FilledToEnd(kind: Kind, data: seq<Word>, canonical: seq<Word>, g: Geometry)
    requires g.Paged() && |canonical| >= g.CanonicalSize()
    requires Filled(kind, data, canonical, g, g.Position(kind, Slot(g.Blocks(), 0, 0, 0)))
    ensures data == Blocked(kind, canonical, g)
  {
    assert g.Position(kind, Slot(g.Blocks(), 0, 0, 0)) == g.PagedSize(kind, g.Blocks());
  }

  method CanonicalToVllmKey(canonical: Tensor, blockSize: nat) returns (r: Result<Tensor>)
    requires |canonical.shape| == 3 ==> blockSize > 0 && |canonical.data| >= canonical.shape[0] * canonical.shape[1] * canonical.shape[2]
    ensures r.Success? <==> |canonical.shape| == 3
    ensures r.Success? ==>
              var g := Geometry(canonical.shape[0], canonical.shape[1], canonical.shape[2], blockSize);
              r.value == Tensor(Blocked(Key, canonical.data, g), [g.Blocks(), g.heads, g.dim, blockSize])
  {
    if |canonical.shape| != 3 {
      return Failure("Canonical key must have 3 dimensions");
    }
    var g := Geometry(canonical.shape[0], canonical.shape[1], canonical.shape[2], blockSize);
    hide BlockedAt, Flat4, Filled;
    var numBlocks := DivCeil(g.seqLen, blockSize);
    var data := new Word[numBlocks * g.heads * g.dim * blockSize](_ => 0);
    FilledFromStart(Key, data[..], canonical.data, g);
    for b := 0 to numBlocks
      invariant Filled(Key, data[..], canonical.data, g, g.Position(Key, Slot(b, 0, 0, 0)))
    {
      for h := 0 to g.heads
        invariant Filled(Key, data[..], canonical.data, g, g.Position(Key, Slot(b, h, 0, 0)))
      {
        StoreKeyHead(data, canonical.data, g, b, h);
      }
      Carry(b, 0, 0, 0, g.heads, g.dim, blockSize);
    }
    FilledToEnd(Key, data[..], canonical.data, g);
    return Success(Tensor(data[..], [numBlocks, g.heads, g.dim, blockSize]));
  }

  method CanonicalToVllmValue(canonical: Tensor, blockSize: nat) returns (r: Result<Tensor>)
    requires |canonical.shape| == 3 ==> blockSize > 0 && |canonical.data| >= canonical.shape[0] * canonical.shape[1] * canonical.shape[2]
    ensures r.Success? <==> |canonical.shape| == 3
    ensures r.Success? ==>
              var g := Geometry(canonical.shape[0], canonical.shape[1], canonical.shape[2], blockSize);
              r.value == Tensor(Blocked(Value, canonical.data, g), [g.Blocks(), g.heads, blockSize, g.dim])
  {
    if |canonical.shape| != 3 {
      return Failure("Canonical value must have 3 dimensions");
    }
    var g := Geometry(canonical.shape[0], canonical.shape[1], canonical.shape[2], blockSize);
    hide BlockedAt, Flat4, Filled;
    var numBlocks := DivCeil(g.seqLen, blockSize);
    var data := new Word[numBlocks * g.heads * blockSize * g.dim](_ => 0);
    FilledFromStart(Value, data[..], canonical.data, g);
    for b := 0 to numBlocks
      invariant Filled(Value, data[..], canonical.data, g, g.Position(Value, Slot(b, 0, 0, 0)))
    {
      for h := 0 to g.heads
        invariant Filled(Value, data[..], canonical.data, g, g.Position(Value, Slot(b, h, 0, 0)))
      {
        StoreValueHead(data, canonical.data, g, b, h);
      }
      Carry(b, 0, 0, 0, g.heads, blockSize, g.dim);
    }
    FilledToEnd(Value, data[..], canonical.data, g);
    return Success(Tensor(data[..], [numBlocks, g.heads, blockSize, g.dim]));
  }

  /** The first `n` elements of a canonical buffer under construction are final. */
  ghost predicate Restored(kind: Kind, data: seq<Word>, paged: seq<Word>, g: Geometry, n: nat)
    requires g.Paged() && Readable(kind, |paged|, g)
  {
    && |data| == g.CanonicalSize()
    && n <= |data|
    && forall o | 0 <= o < n :: data[o] == UnblockedAt(kind, paged, g, o)
  }

  /** The loop body shared by both unpagings: one element, from its token's slot. */
  method RestoreCell(kind: Kind, data: array<Word>, paged: seq<Word>, g: Geometry, t: nat, h: nat, d: nat)
    requires g.Paged() && Readable(kind, |paged|, g)
    requires t < g.seqLen && h < g.heads && d < g.dim
    requires Restored(kind, data[..], paged, g, g.CanonicalPosition(t, h, d))
    modifies data
    ensures Restored(kind, data[..], paged, g, g.CanonicalPosition(t, h, d) + 1)
  {
    var block, token := t / g.blockSize, t % g.blockSize;
    CanonicalDecodes(g, t, h, d);
    RustOffsets(g, g.SlotOf(t, h, d), t);
    var vllmOffset := VllmOffset(kind, g, Slot(block, h, d, token));
    var canonicalOffset := t * (g.heads * g.dim) + h * g.dim + d;
    data[canonicalOffset] := paged[vllmOffset];
  }

  /** The elements of one token. */
  method RestoreToken(kind: Kind, data: array<Word>, paged: seq<Word>, g: Geometry, t: nat)
    requires g.Paged() && Readable(kind, |paged|, g) && t < g.seqLen
    requires Restored(kind, data[..], paged, g, g.CanonicalPosition(t, 0, 0))
    modifies data
    ensures Restored(kind, data[..], paged, g, g.CanonicalPosition(t + 1, 0, 0))
  {
    hide UnblockedAt, Flat3, Flat4, Restored;
    for h := 0 to g.heads
      invariant Restored(kind, data[..], paged, g, g.CanonicalPosition(t, h, 0))
    {
      for d := 0 to g.dim
        invariant Restored(kind, data[..], paged, g, g.CanonicalPosition(t, h, d))
      {
        RestoreCell(kind, data, paged, g, t, h, d);
        CanonicalCarry(t, h, d, g.heads, g.dim);
      }
      CanonicalCarry(t, h, 0, g.heads, g.dim);
    }
    CanonicalCarry(t, 0, 0, g.heads, g.dim);
  }

  lemma RestoredFromStart(kind: Kind, data: seq<Word>, paged: seq<Word>, g: Geometry)
    requires g.Paged() && Readable(kind, |paged|, g) && |data| == g.CanonicalSize()
    ensures Restored(kind, data, paged, g, g.CanonicalPosition(0, 0, 0))
  {
  }

  lemma RestoredToEnd(kind: Kind, data: seq<Word>, paged: seq<Word>, g: Geometry)
    requires g.Paged() && Readable(kind, |paged|, g)
    requires Restored(kind, data, paged, g, g.CanonicalPosition(g.seqLen, 0, 0))
    ensures data == Unblocked(kind, paged, g)
  {
    assert g.CanonicalPosition(g.seqLen, 0, 0) == g.CanonicalSize();
  }

  /** Stepping past the end of a canonical dimension. */
  lemma CanonicalCarry(t: nat, h: nat, d: nat, H: nat, D: nat)
    ensures Flat3(t, h, d + 1, H, D) == Flat3(t, h, d, H, D) + 1
    ensures Flat3(t, h, D, H, D) == Flat3(t, h + 1, 0, H, D)
    ensures Flat3(t, H, 0, H, D) == Flat3(t + 1, 0, 0, H, D)
  {
    assert t * H + H == (t + 1) * H;
    var q := t * H + h;
    assert q * D + D == (q + 1) * D;
  }

  method VllmToCanonicalKey(vllm: Tensor, seqLen: nat, blockSize: nat) returns (r: Result<Tensor>)
    requires |vllm.shape| == 4 && vllm.shape[3] == blockSize ==>
               && blockSize > 0
               && (DivCeil(seqLen, blockSize) <= vllm.shape[0] ==>
                     Readable(Key, |vllm.data|, Geometry(seqLen, vllm.shape[1], vllm.shape[2], blockSize)))
    ensures r.Success? <==> |vllm.shape| == 4 && vllm.shape[3] == blockSize && DivCeil(seqLen, blockSize) <= vllm.shape[0]
    ensures r.Success? ==>
              var g := Geometry(seqLen, vllm.shape[1], vllm.shape[2], blockSize);
              r.value == Tensor(Unblocked(Key, vllm.data, g), [seqLen, g.heads, g.dim])
  {
    if |vllm.shape| != 4 {
      return Failure("vLLM block key must have 4 dimensions");
    }
    if blockSize != vllm.shape[3] {
      return Failure("Block size mismatch");
    }
    if vllm.shape[0] < DivCeil(seqLen, blockSize) {
      return Failure("vLLM tensor doesn't contain enough blocks");
    }
    var g := Geometry(seqLen, vllm.shape[1], vllm.shape[2], blockSize);
    hide UnblockedAt, Flat3, Flat4, Restored;
    var data := new Word[seqLen * g.heads * g.dim](_ => 0);
    RestoredFromStart(Key, data[..], vllm.data, g);
    for t := 0 to seqLen
      invariant Restored(Key, data[..], vllm.data, g, g.CanonicalPosition(t, 0, 0))
    {
      RestoreToken(Key, data, vllm.data, g, t);
    }
    RestoredToEnd(Key, data[..], vllm.data, g);
    return Success(Tensor(data[..], [seqLen, g.heads, g.dim]));
  }

  method VllmToCanonicalValue(vllm: Tensor, seqLen: nat, blockSize: nat) returns (r: Result<Tensor>)
    requires |vllm.shape| == 4 && vllm.shape[2] == blockSize ==>
               && blockSize > 0
               && (DivCeil(seqLen, blockSize) <= vllm.shape[0] ==>
                     Readable(Value, |vllm.data|, Geometry(seqLen, vllm.shape[1], vllm.shape[3], blockSize)))
    ensures r.Success? <==> |vllm.shape| == 4 && vllm.shape[2] == blockSize && DivCeil(seqLen, blockSize) <= vllm.shape[0]
    ensures r.Success? ==>
              var g := Geometry(seqLen, vllm.shape[1], vllm.shape[3], blockSize);
              r.value == Tensor(Unblocked(Value, vllm.data, g), [seqLen, g.heads, g.dim])
  {
    if |vllm.shape| != 4 {
      return Failure("vLLM block value must have 4 dimensions");
    }
    if blockSize != vllm.shape[2] {
      return Failure("Block size mismatch");
    }
    if vllm.shape[0] < DivCeil(seqLen, blockSize) {
      return Failure("vLLM tensor doesn't contain enough blocks");
    }
    var g := Geometry(seqLen, vllm.shape[1], vllm.shape[3], blockSize);
    hide UnblockedAt, Flat3, Flat4, Restored;
    var data := new Word[seqLen * g.heads * g.dim](_ => 0);
    RestoredFromStart(Value, data[..], vllm.data, g);
    for t := 0 to seqLen
      invariant Restored(Value, data[..], vllm.data, g, g.CanonicalPosition(t, 0, 0))
    {
      RestoreToken(Value, data, vllm.data, g, t);
    }
    RestoredToEnd(Value, data[..], vllm.data, g);
    return Success(Tensor(data[..], [seqLen, g.heads, g.dim]));
  }
}
