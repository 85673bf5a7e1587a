/**
 The live paged cache (adapters/vllm_live_runtime_registry.py): prepared blocks scattered in place into combined
 [pages, 2, ...] storage in four physical layouts, through allocated page ids.
 */
module PagedCache {
  import opened Common
  import opened Radix
  import opened Bridge

  /** A layer to install: nested blocks, or flat tensors with four-dimensional shapes. */
  datatype Layer =
    | Prepared(key: Nested4, value: Nested4)
    | Preblocked(keyShape: seq<nat>, keyData: seq<real>, valueShape: seq<nat>, valueData: seq<real>)
  {
    /** The flat form comes with two four-dimensional shapes. */
    predicate Shaped() { Preblocked? ==> |keyShape| == 4 && |valueShape| == 4 }

    function Blocks(): nat
      requires Shaped()
    {
      if Prepared? then |key| else keyShape[0]
    }

    function BlockSize(): nat
      requires Shaped()
    {
      if Preblocked? then keyShape[3] else if value == [] || value[0] == [] then 0 else |value[0][0]|
    }

    function Heads(): nat
      requires Shaped()
    {
      if Preblocked? then keyShape[1] else if key == [] then 0 else |key[0]|
    }

    function Dim(): nat
      requires Shaped()
    {
      if Preblocked? then keyShape[2] else if key == [] || key[0] == [] then 0 else |key[0][0]|
    }

    function Tokens(): nat
      requires Shaped()
    {
      Blocks() * BlockSize()
    }

    /** Keys are [blocks][heads][dim][block_size], values [blocks][heads][block_size][dim], with data for every index. */
    predicate WellFormed()
    {
      && Shaped()
      && (Prepared? ==> Rect4(key, Blocks(), Heads(), Dim(), BlockSize()) && Rect4(value, Blocks(), Heads(), BlockSize(), Dim()))
      && (Preblocked? ==>
            && valueShape == [Blocks(), Heads(), BlockSize(), Dim()]
            && |keyData| >= Blocks() * Heads() * Dim() * BlockSize()
            && |valueData| >= Blocks() * Heads() * BlockSize() * Dim())
    }

    predicate Has(b: nat, t: nat, h: nat, d: nat)
      requires Shaped()
    {
      b < Blocks() && t < BlockSize() && h < Heads() && d < Dim()
    }

    function KeyAt(b: nat, t: nat, h: nat, d: nat): real
      requires WellFormed() && Has(b, t, h, d)
    {
      if Prepared? then At4(key, b, h, d, t)
      else
        Flat4Decodes(b, h, d, t, Blocks(), Heads(), Dim(), BlockSize());
        keyData[(((b * keyShape[1] + h) * keyShape[2] + d) * keyShape[3]) + t]
    }

    function ValueAt(b: nat, t: nat, h: nat, d: nat): real
      requires WellFormed() && Has(b, t, h, d)
    {
      if Prepared? then At4(value, b, h, t, d)
      else
        Flat4Decodes(b, h, t, d, Blocks(), Heads(), BlockSize(), Dim());
        valueData[(((b * valueShape[1] + h) * valueShape[2] + t) * valueShape[3]) + d]
    }

    /** The key (kv = 0) or value (kv = 1) element of token `g` of the whole layer. */
    function Element(kv: nat, g: nat, h: nat, d: nat): real
      requires WellFormed() && g < Tokens() && h < Heads() && d < Dim()
    {
      QuotientBound(g, Blocks(), BlockSize());
      if kv == 0 then KeyAt(g / BlockSize(), g % BlockSize(), h, d) else ValueAt(g / BlockSize(), g % BlockSize(), h, d)
    }
  }

  /** The dimensions and elements of a layer given by flat tensors. */
  lemma PreblockedExactly(blocks: nat, heads: nat, dim: nat, blockSize: nat, keyData: seq<real>, valueData: seq<real>)
    requires |keyData| >= blocks * heads * dim * blockSize && |valueData| >= blocks * heads * blockSize * dim
    ensures var layer := Preblocked([blocks, heads, dim, blockSize], keyData, [blocks, heads, blockSize, dim], valueData);
            && layer.WellFormed() && layer.Blocks() == blocks && layer.BlockSize() == blockSize
            && layer.Heads() == heads && layer.Dim() == dim
            && forall b: nat, t: nat, h: nat, d: nat | layer.Has(b, t, h, d) ::
                 && b < blocks && t < blockSize && h < heads && d < dim
                 && 0 <= ((b * heads + h) * dim + d) * blockSize + t < |keyData|
                 && 0 <= ((b * heads + h) * blockSize + t) * dim + d < |valueData|
                 && layer.KeyAt(b, t, h, d) == keyData[((b * heads + h) * dim + d) * blockSize + t]
                 && layer.ValueAt(b, t, h, d) == valueData[((b * heads + h) * blockSize + t) * dim + d]
  {
    var layer := Preblocked([blocks, heads, dim, blockSize], keyData, [blocks, heads, blockSize, dim], valueData);
    forall b: nat, t: nat, h: nat, d: nat | layer.Has(b, t, h, d)
      ensures && b < blocks && t < blockSize && h < heads && d < dim
              && 0 <= ((b * heads + h) * dim + d) * blockSize + t < |keyData|
              && 0 <= ((b * heads + h) * blockSize + t) * dim + d < |valueData|
    {
      Flat4Decodes(b, h, d, t, blocks, heads, dim, blockSize);
      Flat4Decodes(b, h, t, d, blocks, heads, blockSize, dim);
    }
  }

  /** The elements of a layer given by nested blocks. */
  lemma PreparedExactly(layer: Layer, b: nat, t: nat, h: nat, d: nat)
    requires layer.Prepared? && layer.WellFormed() && layer.Has(b, t, h, d)
    ensures b < |layer.key| && h < |layer.key[b]| && d < |layer.key[b][h]| && t < |layer.key[b][h][d]|
    ensures b < |layer.value| && h < |layer.value[b]| && t < |layer.value[b][h]| && d < |layer.value[b][h][t]|
    ensures layer.KeyAt(b, t, h, d) == layer.key[b][h][d][t] && layer.ValueAt(b, t, h, d) == layer.value[b][h][t][d]
  {
    assert Rect3(layer.key[b], layer.Heads(), layer.Dim(), layer.BlockSize());
    assert Rect2(layer.key[b][h], layer.Dim(), layer.BlockSize());
    assert Rect3(layer.value[b], layer.Heads(), layer.BlockSize(), layer.Dim());
    assert Rect2(layer.value[b][h], layer.BlockSize(), layer.Dim());
  }

  datatype Layout =
    | TokenHeadDim(tokens: nat)
    | HeadTokenDim(tokens: nat)
    | SplitTokenHeadDim(tokens: nat, perSource: nat)
    | SplitHeadTokenDim(tokens: nat, perSource: nat)
    | Unsupported
    | DivisionByZero
  {
    predicate Supported() { !Unsupported? && !DivisionByZero? }

    predicate TokenMajor() { TokenHeadDim? || SplitTokenHeadDim? }
  }

  /** `_combined_layout`; a page of no tokens makes the modulo test raise. */
  function CombinedLayout(shape: seq<nat>, blockSize: nat, heads: nat, dim: nat): Layout
  {
    if |shape| != 5 || shape[1] != 2 then Unsupported
    else if shape[2] == blockSize && shape[3] == heads && shape[4] == dim then TokenHeadDim(blockSize)
    else if shape[2] == heads && shape[3] == blockSize && shape[4] == dim then HeadTokenDim(blockSize)
    else if shape[3] == heads && shape[4] == dim && shape[2] == 0 then DivisionByZero
    else if shape[3] == heads && shape[4] == dim && blockSize % shape[2] == 0 then
      SplitTokenHeadDim(shape[2], blockSize / shape[2])
    else if shape[2] == heads && shape[4] == dim && shape[3] == 0 then DivisionByZero
    else if shape[2] == heads && shape[4] == dim && blockSize % shape[3] == 0 then
      SplitHeadTokenDim(shape[3], blockSize / shape[3])
    else Unsupported
  }

  /**
   The layout, by the cache's shape [pages, 2, x, y, dim] alone: whole blocks before parts of blocks, tokens before
   heads, and a division by an empty page where a part of a block would be of no tokens.
   */
  lemma LayoutExactly(shape: seq<nat>, blockSize: nat, heads: nat, dim: nat)
    requires |shape| == 5
    ensures var layout, x, y := CombinedLayout(shape, blockSize, heads, dim), shape[2], shape[3];
            var fits := shape[1] == 2 && shape[4] == dim;
            var whole := (x == blockSize && y == heads) || (x == heads && y == blockSize);
            && (layout == TokenHeadDim(blockSize) <==> fits && x == blockSize && y == heads)
            && (layout == HeadTokenDim(blockSize) <==> fits && x == heads && y == blockSize && !(x == blockSize && y == heads))
            && (layout.SplitTokenHeadDim? <==> fits && !whole && y == heads && x > 0 && blockSize % x == 0)
            && (layout.SplitTokenHeadDim? ==> layout.tokens == x && layout.perSource == blockSize / x)
            && (layout.SplitHeadTokenDim? <==>
                  fits && !whole && x == heads && y > 0 && blockSize % y == 0 && (y == heads ==> x > 0 && blockSize % x != 0))
            && (layout.SplitHeadTokenDim? ==> layout.tokens == y && layout.perSource == blockSize / y)
            && (layout == DivisionByZero <==>
                  fits && !whole && ((y == heads && x == 0) || (x == heads && y == 0)))
    ensures CombinedLayout(shape, blockSize, heads, dim).TokenMajor() <==>
              CombinedLayout(shape, blockSize, heads, dim).TokenHeadDim? || CombinedLayout(shape, blockSize, heads, dim).SplitTokenHeadDim?
  {
  }

  function ShapeOf(cache: array5<real>): seq<nat>
  {
    [cache.Length0, cache.Length1, cache.Length2, cache.Length3, cache.Length4]
  }

  function LayoutFor(cache: array5<real>, layer: Layer): Layout
    requires layer.Shaped()
  {
    CombinedLayout(ShapeOf(cache), layer.BlockSize(), layer.Heads(), layer.Dim())
  }

  /** The page of a logical target block, by position or by allocated id; a negative id counts from the end. */
  function PageOf(ids: Option<seq<int>>, pages: nat, l: nat): int
  {
    if ids.None? then l
    else if l >= |ids.value| then -1
    else if ids.value[l] < 0 then ids.value[l] + pages
    else ids.value[l]
  }

  /** The logical target block and the slot in it that `_combined_target_indices` computes for a source token. */
  function LogicalBlock(layout: Layout, b: nat, t: nat): nat
    requires layout.Supported() && (layout.SplitTokenHeadDim? || layout.SplitHeadTokenDim? ==> layout.tokens > 0)
  {
    if layout.SplitTokenHeadDim? || layout.SplitHeadTokenDim? then b * layout.perSource + t / layout.tokens else b
  }

  function SlotIn(layout: Layout, t: nat): nat
    requires layout.Supported() && (layout.SplitTokenHeadDim? || layout.SplitHeadTokenDim? ==> layout.tokens > 0)
  {
    if layout.SplitTokenHeadDim? || layout.SplitHeadTokenDim? then t % layout.tokens else t
  }

  /** `_combined_target_block_count`. */
  function TargetBlocks(layout: Layout, blocks: nat): nat
  {
    if layout.SplitTokenHeadDim? || layout.SplitHeadTokenDim? then blocks * layout.perSource else blocks
  }

  /**
   Two-stage paging collapses: blocking by block_size and then splitting into pages of T tokens puts token g of
   the layer at logical block g / T, slot g mod T, whatever the block size.
   */
  lemma PagingCollapses(shape: seq<nat>, blockSize: nat, heads: nat, dim: nat, b: nat, t: nat)
    requires t < blockSize && CombinedLayout(shape, blockSize, heads, dim).Supported()
    ensures var layout := CombinedLayout(shape, blockSize, heads, dim);
            && layout.tokens > 0
            && LogicalBlock(layout, b, t) == (b * blockSize + t) / layout.tokens
            && SlotIn(layout, t) == (b * blockSize + t) % layout.tokens
  {
    var layout := CombinedLayout(shape, blockSize, heads, dim);
    if layout.SplitTokenHeadDim? || layout.SplitHeadTokenDim? {
      SplitToken(b, t, layout.tokens, layout.perSource, blockSize);
    } else {
      ModUnique(b, t, blockSize);
    }
  }

  lemma SplitToken(b: nat, t: nat, tokens: nat, perSource: nat, blockSize: nat)
    requires tokens > 0 && blockSize % tokens == 0 && perSource == blockSize / tokens
    ensures (b * blockSize + t) / tokens == b * perSource + t / tokens
    ensures (b * blockSize + t) % tokens == t % tokens
  {
    var x, r := t / tokens, t % tokens;
    assert t == x * tokens + r && blockSize == perSource * tokens;
    RegroupSplit(b, perSource, tokens, x);
    ModUnique(b * perSource + x, r, tokens);
  }

  lemma RegroupSplit(b: nat, perSource: nat, tokens: nat, x: nat)
    ensures b * (perSource * tokens) + x * tokens == (b * perSource + x) * tokens
  {
    assert (b * perSource) * tokens == b * (perSource * tokens);
  }

  /** Every page the layer needs resolves to a page of the cache. */
  predicate Resolves(ids: Option<seq<int>>, pages: nat, count: nat)
  {
    forall l | 0 <= l < count :: 0 <= PageOf(ids, pages, l) < pages
  }

  /** Different logical blocks get different pages. */
  ghost predicate DistinctPages(ids: Option<seq<int>>, pages: nat, count: nat)
  {
    forall k, l | 0 <= k < l < count :: PageOf(ids, pages, k) != PageOf(ids, pages, l)
  }

  predicate LandsOn(ids: Option<seq<int>>, pages: nat, tokens: nat, g: nat, p: nat, s: nat)
    requires tokens > 0
  {
    g % tokens == s && PageOf(ids, pages, g / tokens) == p
  }

  /** The last of the first `count` tokens that lands on slot `s` of page `p`. */
  function LastToken(ids: Option<seq<int>>, pages: nat, tokens: nat, count: nat, p: nat, s: nat): (r: Option<nat>)
    requires tokens > 0
    ensures r.Some? ==> r.value < count && LandsOn(ids, pages, tokens, r.value, p, s)
    ensures r.None? ==> forall g: nat | g < count :: !LandsOn(ids, pages, tokens, g, p, s)
  {
    if count == 0 then None
    else if LandsOn(ids, pages, tokens, count - 1, p, s) then Some(count - 1)
    else LastToken(ids, pages, tokens, count - 1, p, s)
  }

  /** The content of a cell after the first `count` tokens have been scattered over what it held before. */
  function CellAfter(was: real, layer: Layer, ids: Option<seq<int>>, pages: nat, tokens: nat, count: nat,
                     p: nat, kv: nat, s: nat, h: nat, d: nat): real
    requires layer.WellFormed() && tokens > 0 && count <= layer.Tokens() && h < layer.Heads() && d < layer.Dim()
  {
    var g := LastToken(ids, pages, tokens, count, p, s);
    if g.None? then was else layer.Element(kv, g.value, h, d)
  }

  predicate InCache(cache: array5<real>, p: nat, kv: nat, i: nat, j: nat, d: nat)
  {
    p < cache.Length0 && kv < cache.Length1 && i < cache.Length2 && j < cache.Length3 && d < cache.Length4
  }

  /** The slot and the head that a cell's third and fourth index stand for. */
  function SlotOfCell(tokenMajor: bool, i: nat, j: nat): nat { if tokenMajor then i else j }

  function HeadOfCell(tokenMajor: bool, i: nat, j: nat): nat { if tokenMajor then j else i }

  /** The storage has a page form for this layer: keys and values, `tokens` slots, all heads, all dimensions. */
  predicate Fits(cache: array5<real>, layer: Layer, tokenMajor: bool, tokens: nat)
    requires layer.Shaped()
  {
    && cache.Length1 == 2 && cache.Length4 == layer.Dim()
    && (if tokenMajor then cache.Length2 == tokens && cache.Length3 == layer.Heads()
        else cache.Length2 == layer.Heads() && cache.Length3 == tokens)
  }

  /** Writes one head of one token: its key and its value row. */
  method WriteRow(cache: array5<real>, layer: Layer, b: nat, t: nat, h: nat, page: nat, i: nat, j: nat)
    requires layer.WellFormed() && b < layer.Blocks() && t < layer.BlockSize() && h < layer.Heads()
    requires cache.Length1 == 2 && cache.Length4 == layer.Dim()
    requires page < cache.Length0 && i < cache.Length2 && j < cache.Length3
    modifies cache
    ensures forall p: nat, kv: nat, x: nat, y: nat, d: nat | InCache(cache, p, kv, x, y, d) ::
              cache[p, kv, x, y, d] ==
                if p == page && x == i && y == j then (if kv == 0 then layer.KeyAt(b, t, h, d) else layer.ValueAt(b, t, h, d))
                else old(cache[p, kv, x, y, d])
  {
    for e := 0 to layer.Dim()
      invariant forall p: nat, kv: nat, x: nat, y: nat, d: nat | InCache(cache, p, kv, x, y, d) ::
                  cache[p, kv, x, y, d] ==
                    if p == page && x == i && y == j && d < e
                    then (if kv == 0 then layer.KeyAt(b, t, h, d) else layer.ValueAt(b, t, h, d))
                    else old(cache[p, kv, x, y, d])
    {
      cache[page, 0, i, j, e] := layer.KeyAt(b, t, h, e);
      cache[page, 1, i, j, e] := layer.ValueAt(b, t, h, e);
    }
  }

  /** Writes all heads of one token into a slot of a page. */
  method WriteToken(cache: array5<real>, layer: Layer, b: nat, t: nat, tokenMajor: bool, tokens: nat, page: nat, slot: nat)
    requires layer.WellFormed() && b < layer.Blocks() && t < layer.BlockSize()
    requires Fits(cache, layer, tokenMajor, tokens) && page < cache.Length0 && slot < tokens
    modifies cache
    ensures forall p: nat, kv: nat, x: nat, y: nat, d: nat | InCache(cache, p, kv, x, y, d) ::
              cache[p, kv, x, y, d] ==
                if p == page && SlotOfCell(tokenMajor, x, y) == slot
                then BlockElement(layer, kv, b, t, HeadOfCell(tokenMajor, x, y), d)
                else old(cache[p, kv, x, y, d])
  {
    for h := 0 to layer.Heads()
      invariant forall p: nat, kv: nat, x: nat, y: nat, d: nat | InCache(cache, p, kv, x, y, d) ::
                  cache[p, kv, x, y, d] ==
                    if p == page && SlotOfCell(tokenMajor, x, y) == slot && HeadOfCell(tokenMajor, x, y) < h
                    then BlockElement(layer, kv, b, t, HeadOfCell(tokenMajor, x, y), d)
                    else old(cache[p, kv, x, y, d])
    {
      if tokenMajor {
        WriteRow(cache, layer, b, t, h, page, slot, h);
      } else {
        WriteRow(cache, layer, b, t, h, page, h, slot);
      }
    }
  }

  function BlockElement(layer: Layer, kv: nat, b: nat, t: nat, h: nat, d: nat): real
    requires layer.WellFormed() && layer.Has(b, t, h, d)
  {
    if kv == 0 then layer.KeyAt(b, t, h, d) else layer.ValueAt(b, t, h, d)
  }

  lemma TokenInLayer(layer: Layer, b: nat, t: nat)
    requires layer.Shaped() && b < layer.Blocks() && t < layer.BlockSize()
    ensures b * layer.BlockSize() + t < layer.Tokens()
    ensures (b * layer.BlockSize() + t) / layer.BlockSize() == b && (b * layer.BlockSize() + t) % layer.BlockSize() == t
  {
    StepBound(b, layer.Blocks(), t, layer.BlockSize());
    ModUnique(b, t, layer.BlockSize());
  }

  /** The contents of a cache at some moment. */
  type Contents = (nat, nat, nat, nat, nat) -> real

  /** The cache after the first `count` tokens, against what it held before. */
  ghost predicate Scattered(cache: array5<real>, was: Contents, layer: Layer, ids: Option<seq<int>>,
                            tokenMajor: bool, tokens: nat, count: nat)
    requires layer.WellFormed() && tokens > 0 && count <= layer.Tokens() && Fits(cache, layer, tokenMajor, tokens)
    reads cache
  {
    forall p: nat, kv: nat, x: nat, y: nat, d: nat | InCache(cache, p, kv, x, y, d) ::
      cache[p, kv, x, y, d] ==
        CellAfter(was(p, kv, x, y, d), layer, ids, cache.Length0, tokens, count,
                  p, kv, SlotOfCell(tokenMajor, x, y), HeadOfCell(tokenMajor, x, y), d)
  }

  /** The layer has tokens, a layout applies and every page it needs resolves. */
  predicate Installable(cache: array5<real>, layer: Layer, ids: Option<seq<int>>, layout: Layout)
  {
    && layer.WellFormed() && layer.BlockSize() > 0
    && layout == LayoutFor(cache, layer) && layout.Supported() && layout.tokens > 0
    && Fits(cache, layer, layout.TokenMajor(), layout.tokens)
    && Resolves(ids, cache.Length0, TargetBlocks(layout, layer.Blocks()))
  }

  /** One token of the layer, written to the slot it lands on. */
  method ScatterToken(cache: array5<real>, layer: Layer, ids: Option<seq<int>>, layout: Layout, b: nat, t: nat,
                      ghost g: nat, ghost was: Contents)
    requires Installable(cache, layer, ids, layout)
    requires b < layer.Blocks() && t < layer.BlockSize() && g == b * layer.BlockSize() + t && g < layer.Tokens()
    requires Scattered(cache, was, layer, ids, layout.TokenMajor(), layout.tokens, g)
    modifies cache
    ensures Scattered(cache, was, layer, ids, layout.TokenMajor(), layout.tokens, g + 1)
  {
    TokenInLayer(layer, b, t);
    PagingCollapses(ShapeOf(cache), layer.BlockSize(), layer.Heads(), layer.Dim(), b, t);
    LogicalInRange(layout, ShapeOf(cache), layer, b, t);
    var page := PageOf(ids, cache.Length0, LogicalBlock(layout, b, t));
    WriteToken(cache, layer, b, t, layout.TokenMajor(), layout.tokens, page, SlotIn(layout, t));
  }

  /** The loops over blocks and tokens of the token-major layouts and of the split head-major one. */
  method ScatterByToken(cache: array5<real>, layer: Layer, ids: Option<seq<int>>, layout: Layout, ghost was: Contents)
    requires Installable(cache, layer, ids, layout)
    requires Scattered(cache, was, layer, ids, layout.TokenMajor(), layout.tokens, 0)
    modifies cache
    ensures Scattered(cache, was, layer, ids, layout.TokenMajor(), layout.tokens, layer.Tokens())
  {
    var blockSize := layer.BlockSize();
    ghost var g, total := 0, layer.Tokens();
    for b := 0 to layer.Blocks()
      invariant g == b * blockSize && g <= total
      invariant Scattered(cache, was, layer, ids, layout.TokenMajor(), layout.tokens, g)
    {
      BlockEnd(b, layer.Blocks(), blockSize);
      ScatterBlockTokens(cache, layer, ids, layout, b, g, was);
      g := g + blockSize;
    }
  }

  method ScatterBlockTokens(cache: array5<real>, layer: Layer, ids: Option<seq<int>>, layout: Layout, b: nat,
                            ghost g: nat, ghost was: Contents)
    requires Installable(cache, layer, ids, layout)
    requires b < layer.Blocks() && g == b * layer.BlockSize() && g + layer.BlockSize() <= layer.Tokens()
    requires Scattered(cache, was, layer, ids, layout.TokenMajor(), layout.tokens, g)
    modifies cache
    ensures Scattered(cache, was, layer, ids, layout.TokenMajor(), layout.tokens, g + layer.BlockSize())
  {
    hide Scattered, CombinedLayout;
    var blockSize := layer.BlockSize();
    ghost var n, total := g, layer.Tokens();
    for t := 0 to blockSize
      invariant n == g + t && n <= total
      invariant Scattered(cache, was, layer, ids, layout.TokenMajor(), layout.tokens, n)
    {
      ScatterToken(cache, layer, ids, layout, b, t, n, was);
      n := n + 1;
    }
    assert n == g + layer.BlockSize();
  }

  lemma BlockEnd(b: nat, blocks: nat, blockSize: nat)
    requires b < blocks
    ensures b * blockSize + blockSize == (b + 1) * blockSize <= blocks * blockSize
  {
  }

  lemma LogicalInRange(layout: Layout, shape: seq<nat>, layer: Layer, b: nat, t: nat)
    requires layer.Shaped() && layout == CombinedLayout(shape, layer.BlockSize(), layer.Heads(), layer.Dim()) && layout.Supported()
    requires b < layer.Blocks() && t < layer.BlockSize() && layout.tokens > 0
    ensures LogicalBlock(layout, b, t) < TargetBlocks(layout, layer.Blocks())
    ensures SlotIn(layout, t) < layout.tokens
  {
    if layout.SplitTokenHeadDim? || layout.SplitHeadTokenDim? {
      assert layer.BlockSize() == layout.perSource * layout.tokens;
      QuotientBound(t, layout.perSource, layout.tokens);
      StepBound(b, layer.Blocks(), t / layout.tokens, layout.perSource);
    }
  }

  /** One block of the unsplit head-major layout, head by head: it fills one page. */
  method WriteBlockByHead(cache: array5<real>, layer: Layer, b: nat, page: nat)
    requires layer.WellFormed() && b < layer.Blocks() && page < cache.Length0
    requires Fits(cache, layer, false, layer.BlockSize())
    modifies cache
    ensures forall p: nat, kv: nat, x: nat, y: nat, d: nat | InCache(cache, p, kv, x, y, d) ::
              cache[p, kv, x, y, d] == if p == page then BlockElement(layer, kv, b, y, x, d) else old(cache[p, kv, x, y, d])
  {
    for h := 0 to layer.Heads()
      invariant forall p: nat, kv: nat, x: nat, y: nat, d: nat | InCache(cache, p, kv, x, y, d) ::
                  cache[p, kv, x, y, d] ==
                    if p == page && x < h then BlockElement(layer, kv, b, y, x, d) else old(cache[p, kv, x, y, d])
    {
      for t := 0 to layer.BlockSize()
        invariant forall p: nat, kv: nat, x: nat, y: nat, d: nat | InCache(cache, p, kv, x, y, d) ::
                    cache[p, kv, x, y, d] ==
                      if p == page && (x < h || (x == h && y < t)) then BlockElement(layer, kv, b, y, x, d)
                      else old(cache[p, kv, x, y, d])
      {
        WriteRow(cache, layer, b, t, h, page, h, t);
      }
    }
  }

  /** With pages of whole blocks, block `b` is the last writer of its page's slots among the first b + 1 blocks. */
  lemma LastTokenOfBlock(ids: Option<seq<int>>, pages: nat, blockSize: nat, b: nat, p: nat, s: nat, t: nat)
    requires s < blockSize && t <= blockSize
    ensures LastToken(ids, pages, blockSize, b * blockSize + t, p, s)
            == if PageOf(ids, pages, b) == p && s < t then Some(b * blockSize + s)
               else LastToken(ids, pages, blockSize, b * blockSize, p, s)
    decreases t
  {
    if t > 0 {
      LastTokenOfBlock(ids, pages, blockSize, b, p, s, t - 1);
      ModUnique(b, t - 1, blockSize);
    }
  }

  /** The loops of the unsplit head-major layout. */
  method ScatterByHead(cache: array5<real>, layer: Layer, ids: Option<seq<int>>, ghost was: Contents)
    requires layer.WellFormed() && layer.BlockSize() > 0
    requires Resolves(ids, cache.Length0, layer.Blocks()) && Fits(cache, layer, false, layer.BlockSize())
    requires Scattered(cache, was, layer, ids, false, layer.BlockSize(), 0)
    modifies cache
    ensures Scattered(cache, was, layer, ids, false, layer.BlockSize(), layer.Tokens())
  {
    var blockSize := layer.BlockSize();
    ghost var g, total := 0, layer.Tokens();
    for b := 0 to layer.Blocks()
      invariant g == b * blockSize && g <= total
      invariant Scattered(cache, was, layer, ids, false, blockSize, g)
    {
      BlockEnd(b, layer.Blocks(), blockSize);
      ScatterBlock(cache, layer, ids, b, g, was);
      g := g + blockSize;
    }
  }

  method ScatterBlock(cache: array5<real>, layer: Layer, ids: Option<seq<int>>, b: nat, ghost g: nat, ghost was: Contents)
    requires layer.WellFormed() && layer.BlockSize() > 0
    requires b < layer.Blocks() && g == b * layer.BlockSize() && g + layer.BlockSize() <= layer.Tokens()
    requires Resolves(ids, cache.Length0, layer.Blocks()) && Fits(cache, layer, false, layer.BlockSize())
    requires Scattered(cache, was, layer, ids, false, layer.BlockSize(), g)
    modifies cache
    ensures Scattered(cache, was, layer, ids, false, layer.BlockSize(), g + layer.BlockSize())
  {
    var blockSize := layer.BlockSize();
    WriteBlockByHead(cache, layer, b, PageOf(ids, cache.Length0, b));
    forall p: nat, kv: nat, x: nat, y: nat, d: nat | InCache(cache, p, kv, x, y, d)
      ensures cache[p, kv, x, y, d] ==
                CellAfter(was(p, kv, x, y, d), layer, ids, cache.Length0, blockSize, g + blockSize, p, kv, y, x, d)
    {
      LastTokenOfBlock(ids, cache.Length0, blockSize, b, p, y, blockSize);
      ElementOfBlock(layer, kv, b, y, x, d);
    }
  }

  lemma ElementOfBlock(layer: Layer, kv: nat, b: nat, t: nat, h: nat, d: nat)
    requires layer.WellFormed() && layer.Has(b, t, h, d)
    ensures b * layer.BlockSize() + t < layer.Tokens()
    ensures BlockElement(layer, kv, b, t, h, d) == layer.Element(kv, b * layer.BlockSize() + t, h, d)
  {
    TokenInLayer(layer, b, t);
  }

  /**
   `_write_combined_cache`. When a layout applies, every cell ends with the last token that lands on its page and
   slot, and is untouched if none does - with repeated page ids too; otherwise nothing changes.
   */
  method WriteCombinedCache(cache: array5<real>, layer: Layer, ids: Option<seq<int>>) returns (ok: bool)
    requires layer.WellFormed()
    requires LayoutFor(cache, layer).Supported() ==>
               Resolves(ids, cache.Length0, TargetBlocks(LayoutFor(cache, layer), layer.Blocks()))
    modifies cache
    ensures ok <==> LayoutFor(cache, layer).Supported()
    ensures ok && layer.BlockSize() > 0 ==>
              var layout := LayoutFor(cache, layer);
              && layout.tokens > 0 && Fits(cache, layer, layout.TokenMajor(), layout.tokens)
              && forall p: nat, kv: nat, x: nat, y: nat, d: nat | InCache(cache, p, kv, x, y, d) ::
                   cache[p, kv, x, y, d] ==
                     CellAfter(old(cache[p, kv, x, y, d]), layer, ids, cache.Length0, layout.tokens, layer.Tokens(),
                               p, kv, SlotOfCell(layout.TokenMajor(), x, y), HeadOfCell(layout.TokenMajor(), x, y), d)
    ensures !ok || layer.BlockSize() == 0 ==>
              forall p: nat, kv: nat, x: nat, y: nat, d: nat | InCache(cache, p, kv, x, y, d) ::
                cache[p, kv, x, y, d] == old(cache[p, kv, x, y, d])
  {
    var layout := LayoutFor(cache, layer);
    if !layout.Supported() {
      return false;
    }
    if layer.BlockSize() > 0 {
      LayoutFits(cache, layer);
      Install(cache, layer, ids, layout);
    }
    ok := true;
  }

  lemma LayoutFits(cache: array5<real>, layer: Layer)
    requires layer.Shaped() && layer.BlockSize() > 0 && LayoutFor(cache, layer).Supported()
    ensures var layout := LayoutFor(cache, layer);
            layout.tokens > 0 && Fits(cache, layer, layout.TokenMajor(), layout.tokens)
  {
  }

  method Install(cache: array5<real>, layer: Layer, ids: Option<seq<int>>, layout: Layout)
    requires Installable(cache, layer, ids, layout)
    modifies cache
    ensures forall p: nat, kv: nat, x: nat, y: nat, d: nat | InCache(cache, p, kv, x, y, d) ::
              cache[p, kv, x, y, d] ==
                CellAfter(old(cache[p, kv, x, y, d]), layer, ids, cache.Length0, layout.tokens, layer.Tokens(),
                          p, kv, SlotOfCell(layout.TokenMajor(), x, y), HeadOfCell(layout.TokenMajor(), x, y), d)
  {
    ghost var was: Contents := (p: nat, kv: nat, x: nat, y: nat, d: nat) =>
      if InCache(cache, p, kv, x, y, d) then old(cache[p, kv, x, y, d]) else 0.0;
    if layout.HeadTokenDim? {
      ScatterByHead(cache, layer, ids, was);
    } else {
      ScatterByToken(cache, layer, ids, layout, was);
    }
  }

  lemma WholePages(cache: array5<real>, layer: Layer)
    requires layer.Shaped() && layer.BlockSize() > 0 && LayoutFor(cache, layer).Supported()
    ensures var layout := LayoutFor(cache, layer);
            TargetBlocks(layout, layer.Blocks()) * layout.tokens == layer.Tokens()
  {
    var layout := LayoutFor(cache, layer);
    if layout.SplitTokenHeadDim? || layout.SplitHeadTokenDim? {
      WholeSplit(layer.Blocks(), layer.BlockSize(), layout.perSource, layout.tokens);
    }
  }

  lemma WholeSplit(blocks: nat, blockSize: nat, perSource: nat, tokens: nat)
    requires tokens > 0 && blockSize % tokens == 0 && perSource == blockSize / tokens
    ensures blocks * perSource * tokens == blocks * blockSize
  {
    assert blockSize == perSource * tokens;
    RegroupSplit(blocks, perSource, tokens, 0);
  }

  /** With different pages for different blocks, every token is the last one on its own slot. */
  lemma LandsOnce(ids: Option<seq<int>>, pages: nat, tokens: nat, count: nat, g: nat)
    requires tokens > 0 && g < count * tokens && DistinctPages(ids, pages, count)
    requires PageOf(ids, pages, g / tokens) >= 0
    ensures LastToken(ids, pages, tokens, count * tokens, PageOf(ids, pages, g / tokens), g % tokens) == Some(g)
  {
    var p, s := PageOf(ids, pages, g / tokens), g % tokens;
    assert LandsOn(ids, pages, tokens, g, p, s);
    var r := LastToken(ids, pages, tokens, count * tokens, p, s);
    assert r.Some?;
    QuotientBound(g, count, tokens);
    QuotientBound(r.value, count, tokens);
    assert PageOf(ids, pages, r.value / tokens) == PageOf(ids, pages, g / tokens);
    SamePlace(r.value, g, tokens);
  }

  lemma SamePlace(a: nat, b: nat, m: nat)
    requires m > 0 && a / m == b / m && a % m == b % m
    ensures a == b
  {
  }

  /** The page and the two inner indices `_combined_target_indices` gives for a source element. */
  function TargetPage(cache: array5<real>, layer: Layer, ids: Option<seq<int>>, layout: Layout, b: nat, t: nat): (p: nat)
    requires Installable(cache, layer, ids, layout) && b < layer.Blocks() && t < layer.BlockSize()
    ensures p < cache.Length0
  {
    LogicalInRange(layout, ShapeOf(cache), layer, b, t);
    PageOf(ids, cache.Length0, LogicalBlock(layout, b, t))
  }

  function TargetI(layout: Layout, t: nat, h: nat): nat
    requires layout.Supported() && layout.tokens > 0
  {
    if layout.TokenMajor() then SlotIn(layout, t) else h
  }

  function TargetJ(layout: Layout, t: nat, h: nat): nat
    requires layout.Supported() && layout.tokens > 0
  {
    if layout.TokenMajor() then h else SlotIn(layout, t)
  }

  lemma TargetInCache(cache: array5<real>, layer: Layer, ids: Option<seq<int>>, layout: Layout, b: nat, t: nat, h: nat, d: nat)
    requires Installable(cache, layer, ids, layout) && layer.Has(b, t, h, d)
    ensures InCache(cache, TargetPage(cache, layer, ids, layout, b, t), 1, TargetI(layout, t, h), TargetJ(layout, t, h), d)
  {
    LogicalInRange(layout, ShapeOf(cache), layer, b, t);
  }

  /** The cell that holds a source element, after the whole layer has been scattered over distinct pages. */
  lemma ElementLands(cache: array5<real>, layer: Layer, ids: Option<seq<int>>, layout: Layout,
                     was: real, kv: nat, b: nat, t: nat, h: nat, d: nat)
    requires Installable(cache, layer, ids, layout) && layer.Has(b, t, h, d)
    requires DistinctPages(ids, cache.Length0, TargetBlocks(layout, layer.Blocks()))
    ensures CellAfter(was, layer, ids, cache.Length0, layout.tokens, layer.Tokens(),
              TargetPage(cache, layer, ids, layout, b, t), kv, SlotIn(layout, t), h, d) == BlockElement(layer, kv, b, t, h, d)
  {
    var g := b * layer.BlockSize() + t;
    ElementOfBlock(layer, kv, b, t, h, d);
    PagingCollapses(ShapeOf(cache), layer.BlockSize(), layer.Heads(), layer.Dim(), b, t);
    LogicalInRange(layout, ShapeOf(cache), layer, b, t);
    WholePages(cache, layer);
    LandsOnce(ids, cache.Length0, layout.tokens, TargetBlocks(layout, layer.Blocks()), g);
  }

  /** A cell of a page no logical block resolves to keeps its content. */
  lemma OtherPagesKeep(cache: array5<real>, layer: Layer, ids: Option<seq<int>>, layout: Layout,
                       was: real, p: nat, kv: nat, s: nat, h: nat, d: nat)
    requires Installable(cache, layer, ids, layout) && h < layer.Heads() && d < layer.Dim()
    requires forall l | 0 <= l < TargetBlocks(layout, layer.Blocks()) :: PageOf(ids, cache.Length0, l) != p
    ensures CellAfter(was, layer, ids, cache.Length0, layout.tokens, layer.Tokens(), p, kv, s, h, d) == was
  {
    WholePages(cache, layer);
    var r := LastToken(ids, cache.Length0, layout.tokens, layer.Tokens(), p, s);
    if r.Some? {
      QuotientBound(r.value, TargetBlocks(layout, layer.Blocks()), layout.tokens);
    }
  }

  /** A point to probe; in a layer without tokens, heads or dimensions an index can be -1. */
  datatype Point = Point(block: int, token: int, head: int, dim: int)

  predicate Probes(layer: Layer, pt: Point)
    requires layer.Shaped()
  {
    pt.block >= 0 && pt.token >= 0 && pt.head >= 0 && pt.dim >= 0 && layer.Has(pt.block, pt.token, pt.head, pt.dim)
  }

  predicate Inside(pt: Point, blocks: nat, blockSize: nat, heads: nat, dim: nat)
  {
    0 <= pt.block < blocks && 0 <= pt.token < blockSize && 0 <= pt.head < heads && 0 <= pt.dim < dim
  }

  /** `_sample_points`: first, second and last element, without repeats, up to a limit; all inside, if anything is. */
  method SamplePoints(blocks: nat, blockSize: nat, heads: nat, dim: nat, limit: int) returns (points: seq<Point>)
    ensures 1 <= |points| <= Max(1, Min(limit, 3)) && points[0] == Point(0, 0, 0, 0)
    ensures blocks > 0 && blockSize > 0 && heads > 0 && dim > 0 ==> forall pt <- points :: Inside(pt, blocks, blockSize, heads, dim)
    ensures forall i, j | 0 <= i < j < |points| :: points[i] != points[j]
    ensures limit >= 2 ==> Point(0, Min(blockSize - 1, 1), Min(heads - 1, 1), Min(dim - 1, 1)) in points
    ensures limit >= 3 ==> Point(Max(blocks - 1, 0), Max(blockSize - 1, 0), Max(heads - 1, 0), Max(dim - 1, 0)) in points
  {
    var candidates := [
      Point(0, 0, 0, 0),
      Point(0, Min(blockSize - 1, 1), Min(heads - 1, 1), Min(dim - 1, 1)),
      Point(Max(blocks - 1, 0), Max(blockSize - 1, 0), Max(heads - 1, 0), Max(dim - 1, 0))];
    points := [];
    for i := 0 to 3
      invariant |points| <= i && (i > 0 ==> |points| >= 1 && points[0] == candidates[0] && |points| < limit)
      invariant forall pt <- points :: pt in candidates
      invariant forall k | 0 <= k < i :: candidates[k] in points
      invariant forall k, l | 0 <= k < l < |points| :: points[k] != points[l]
    {
      if candidates[i] !in points {
        points := points + [candidates[i]];
        if |points| >= limit {
          assert limit >= 3 ==> points[2] == candidates[2];
          assert limit >= 2 ==> i >= 1 && candidates[1] in points;
          return;
        }
      }
    }
    assert candidates[1] in points && candidates[2] in points;
  }

  /** The probe of one source element: both its key and its value are found where the layout puts them. */
  predicate ProbeMatches(cache: array5<real>, layer: Layer, ids: Option<seq<int>>, layout: Layout, pt: Point)
    requires Installable(cache, layer, ids, layout) && Probes(layer, pt)
    reads cache
  {
    TargetInCache(cache, layer, ids, layout, pt.block, pt.token, pt.head, pt.dim);
    var p, i, j := TargetPage(cache, layer, ids, layout, pt.block, pt.token), TargetI(layout, pt.token, pt.head), TargetJ(layout, pt.token, pt.head);
    && -0.000001 <= layer.KeyAt(pt.block, pt.token, pt.head, pt.dim) - cache[p, 0, i, j, pt.dim] <= 0.000001
    && -0.000001 <= layer.ValueAt(pt.block, pt.token, pt.head, pt.dim) - cache[p, 1, i, j, pt.dim] <= 0.000001
  }

  /** `_combined_slot_samples`: whether every sampled element matches. */
  method CombinedSlotSamples(cache: array5<real>, layer: Layer, ids: Option<seq<int>>, layout: Layout, limit: int)
      returns (allMatch: bool, points: seq<Point>)
    requires Installable(cache, layer, ids, layout) && layer.Has(0, 0, 0, 0)
    ensures |points| > 0 && forall pt <- points :: Probes(layer, pt)
    ensures allMatch <==> forall pt <- points :: ProbeMatches(cache, layer, ids, layout, pt)
  {
    points := SamplePoints(layer.Blocks(), layer.BlockSize(), layer.Heads(), layer.Dim(), limit);
    assert forall pt <- points :: Inside(pt, layer.Blocks(), layer.BlockSize(), layer.Heads(), layer.Dim()) ==> Probes(layer, pt);
    allMatch := true;
    for i := 0 to |points|
      invariant allMatch <==> forall k | 0 <= k < i :: ProbeMatches(cache, layer, ids, layout, points[k])
    {
      var pt := points[i];
      assert Probes(layer, pt);
      TargetInCache(cache, layer, ids, layout, pt.block, pt.token, pt.head, pt.dim);
      var p := TargetPage(cache, layer, ids, layout, pt.block, pt.token);
      var x, y := TargetI(layout, pt.token, pt.head), TargetJ(layout, pt.token, pt.head);
      var keyDelta := layer.KeyAt(pt.block, pt.token, pt.head, pt.dim) - cache[p, 0, x, y, pt.dim];
      var valueDelta := layer.ValueAt(pt.block, pt.token, pt.head, pt.dim) - cache[p, 1, x, y, pt.dim];
      var keyMatches := (if keyDelta < 0.0 then -keyDelta else keyDelta) <= 0.000001;
      var valueMatches := (if valueDelta < 0.0 then -valueDelta else valueDelta) <= 0.000001;
      allMatch := allMatch && keyMatches && valueMatches;
    }
  }

  /** Writing a layer over distinct pages: every source element is readable, cells of other pages are unchanged. */
  method InstallLayer(cache: array5<real>, layer: Layer, ids: Option<seq<int>>, layout: Layout)
    requires Installable(cache, layer, ids, layout)
    requires DistinctPages(ids, cache.Length0, TargetBlocks(layout, layer.Blocks()))
    modifies cache
    ensures forall b: nat, t: nat, h: nat, d: nat | layer.Has(b, t, h, d) :: Reads(cache, layer, ids, layout, b, t, h, d)
    ensures forall p: nat, kv: nat, x: nat, y: nat, d: nat | InCache(cache, p, kv, x, y, d) ::
              Untouched(ids, cache.Length0, TargetBlocks(layout, layer.Blocks()), p) ==>
                cache[p, kv, x, y, d] == old(cache[p, kv, x, y, d])
  {
    hide Untouched;
    Install(cache, layer, ids, layout);
    forall b: nat, t: nat, h: nat, d: nat | layer.Has(b, t, h, d)
      ensures Reads(cache, layer, ids, layout, b, t, h, d)
    {
      TargetInCache(cache, layer, ids, layout, b, t, h, d);
      var p, i, j := TargetPage(cache, layer, ids, layout, b, t), TargetI(layout, t, h), TargetJ(layout, t, h);
      ReadsAfter(cache, layer, ids, layout, old(cache[p, 0, i, j, d]), old(cache[p, 1, i, j, d]), b, t, h, d);
    }
    forall p: nat, kv: nat, x: nat, y: nat, d: nat | InCache(cache, p, kv, x, y, d)
        && Untouched(ids, cache.Length0, TargetBlocks(layout, layer.Blocks()), p)
      ensures cache[p, kv, x, y, d] == old(cache[p, kv, x, y, d])
    {
      UntouchedPage(ids, cache.Length0, TargetBlocks(layout, layer.Blocks()), p);
      OtherPagesKeep(cache, layer, ids, layout, old(cache[p, kv, x, y, d]), p, kv,
        SlotOfCell(layout.TokenMajor(), x, y), HeadOfCell(layout.TokenMajor(), x, y), d);
    }
  }

  /**
   Writing a layer and probing it, as registration does. Over distinct pages every source element is readable where the
   layout puts it, cells of other pages are unchanged, and the probe reports a match.
   */
  method RegisterLayer(cache: array5<real>, layer: Layer, ids: Option<seq<int>>, limit: int) returns (allMatch: bool)
    requires layer.Shaped() && Installable(cache, layer, ids, LayoutFor(cache, layer)) && layer.Has(0, 0, 0, 0)
    requires DistinctPages(ids, cache.Length0, TargetBlocks(LayoutFor(cache, layer), layer.Blocks()))
    modifies cache
    ensures allMatch
    ensures var layout := LayoutFor(cache, layer);
            forall b: nat, t: nat, h: nat, d: nat | layer.Has(b, t, h, d) ::
              TokenHolds(cache, ids, layout, b * layer.BlockSize() + t, h, d, layer.KeyAt(b, t, h, d), layer.ValueAt(b, t, h, d))
    ensures var layout := LayoutFor(cache, layer);
            forall p: nat, kv: nat, x: nat, y: nat, d: nat | InCache(cache, p, kv, x, y, d) ::
              Untouched(ids, cache.Length0, TargetBlocks(layout, layer.Blocks()), p) ==>
                cache[p, kv, x, y, d] == old(cache[p, kv, x, y, d])
  {
    hide Untouched, TokenHolds, CombinedLayout, Resolves, DistinctPages;
    var layout := LayoutFor(cache, layer);
    InstallLayer(cache, layer, ids, layout);
    ReadsAllTokens(cache, layer, ids, layout);
    var points;
    allMatch, points := CombinedSlotSamples(cache, layer, ids, layout, limit);
    assert forall pt <- points :: Reads(cache, layer, ids, layout, pt.block, pt.token, pt.head, pt.dim);
  }

  lemma ReadsAfter(cache: array5<real>, layer: Layer, ids: Option<seq<int>>, layout: Layout, was0: real, was1: real,
                   b: nat, t: nat, h: nat, d: nat)
    requires Installable(cache, layer, ids, layout) && layer.Has(b, t, h, d)
    requires DistinctPages(ids, cache.Length0, TargetBlocks(layout, layer.Blocks()))
    requires InCache(cache, TargetPage(cache, layer, ids, layout, b, t), 1, TargetI(layout, t, h), TargetJ(layout, t, h), d)
    requires var p, i, j := TargetPage(cache, layer, ids, layout, b, t), TargetI(layout, t, h), TargetJ(layout, t, h);
             && cache[p, 0, i, j, d] == CellAfter(was0, layer, ids, cache.Length0, layout.tokens, layer.Tokens(), p, 0, SlotIn(layout, t), h, d)
             && cache[p, 1, i, j, d] == CellAfter(was1, layer, ids, cache.Length0, layout.tokens, layer.Tokens(), p, 1, SlotIn(layout, t), h, d)
    ensures Reads(cache, layer, ids, layout, b, t, h, d)
  {
    ElementLands(cache, layer, ids, layout, was0, 0, b, t, h, d);
    ElementLands(cache, layer, ids, layout, was1, 1, b, t, h, d);
  }

  /** The cache holds this source element's key and value where the layout puts them. */
  predicate Reads(cache: array5<real>, layer: Layer, ids: Option<seq<int>>, layout: Layout, b: nat, t: nat, h: nat, d: nat)
    requires Installable(cache, layer, ids, layout) && layer.Has(b, t, h, d)
    reads cache
  {
    TargetInCache(cache, layer, ids, layout, b, t, h, d);
    var p, i, j := TargetPage(cache, layer, ids, layout, b, t), TargetI(layout, t, h), TargetJ(layout, t, h);
    cache[p, 0, i, j, d] == layer.KeyAt(b, t, h, d) && cache[p, 1, i, j, d] == layer.ValueAt(b, t, h, d)
  }

  /** The layout of a cache for a canonical tensor cut into blocks. */
  function CanonicalLayout(cache: array5<real>, data: Nested3, blockSize: nat): Layout
  {
    CombinedLayout(ShapeOf(cache), blockSize, Bridge.Heads(data), Bridge.Dim(data))
  }

  /**
   Token `g` has this key and value element: with T tokens a page, it is in slot g mod T of page ids[g / T], counted from
   the end if that is negative, or of page g / T without ids.
   */
  ghost predicate TokenHolds(cache: array5<real>, ids: Option<seq<int>>, layout: Layout, g: nat, h: nat, d: nat, key: real, value: real)
    requires layout.Supported() && layout.tokens > 0
    reads cache
  {
    var l, s := g / layout.tokens, g % layout.tokens;
    && 0 <= l && (ids.Some? ==> l < |ids.value|)
    && var id := if ids.None? then l else ids.value[l];
       var p := if id < 0 then id + cache.Length0 else id;
       var i, j := if layout.TokenMajor() then s else h, if layout.TokenMajor() then h else s;
       && 0 <= p && InCache(cache, p, 0, i, j, d) && InCache(cache, p, 1, i, j, d)
       && cache[p, 0, i, j, d] == key && cache[p, 1, i, j, d] == value
  }

  /** No logical block goes to page `p`. */
  ghost predicate Untouched(ids: Option<seq<int>>, pages: nat, count: nat, p: nat)
  {
    if ids.None? then p >= count
    else forall l | 0 <= l < count && l < |ids.value| :: ids.value[l] != p && ids.value[l] + pages != p
  }

  lemma UntouchedPage(ids: Option<seq<int>>, pages: nat, count: nat, p: nat)
    requires Untouched(ids, pages, count, p) && Resolves(ids, pages, count)
    ensures forall l | 0 <= l < count :: PageOf(ids, pages, l) != p
  {
  }

  /** Blocking a layer's key and value as the bridge does, and registering the blocks: both stages of paging together. */
  method InstallCanonical(key: Nested3, value: Nested3, blockSize: nat, cache: array5<real>, ids: Option<seq<int>>, limit: int)
      returns (allMatch: bool)
    requires Canonical(key) && Canonical(value) && |key| == |value| > 0 && blockSize > 0
    requires Bridge.Heads(key) == Bridge.Heads(value) > 0 && Bridge.Dim(key) == Bridge.Dim(value) > 0
    requires CanonicalLayout(cache, key, blockSize).Supported()
    requires Resolves(ids, cache.Length0, TargetBlocks(CanonicalLayout(cache, key, blockSize), BlockCount(|key|, blockSize)))
    requires DistinctPages(ids, cache.Length0, TargetBlocks(CanonicalLayout(cache, key, blockSize), BlockCount(|key|, blockSize)))
    modifies cache
    ensures allMatch
    ensures CanonicalLayout(cache, key, blockSize).tokens > 0
    ensures forall g: nat, h: nat, d: nat | g < BlockCount(|key|, blockSize) * blockSize && h < Bridge.Heads(key) && d < Bridge.Dim(key) ::
              TokenHolds(cache, ids, CanonicalLayout(cache, key, blockSize), g, h, d,
                if g < |key| then key[g][h][d] else 0.0, if g < |value| then value[g][h][d] else 0.0)
    ensures forall p: nat, kv: nat, x: nat, y: nat, d: nat | InCache(cache, p, kv, x, y, d) ::
              Untouched(ids, cache.Length0, TargetBlocks(CanonicalLayout(cache, key, blockSize), BlockCount(|key|, blockSize)), p) ==>
                cache[p, kv, x, y, d] == old(cache[p, kv, x, y, d])
  {
    hide TokenHolds, Untouched;
    var keyBlocks := KeyToBlocks(key, blockSize);
    var valueBlocks := ValueToBlocks(value, blockSize);
    var layer := Prepared(keyBlocks, valueBlocks);
    BlockedDims(keyBlocks, valueBlocks, BlockCount(|key|, blockSize), Bridge.Heads(key), Bridge.Dim(key), blockSize);
    LayoutFits(cache, layer);
    allMatch := RegisterLayer(cache, layer, ids, limit);
    var layout := CanonicalLayout(cache, key, blockSize);
    forall g: nat, h: nat, d: nat | g < BlockCount(|key|, blockSize) * blockSize && h < Bridge.Heads(key) && d < Bridge.Dim(key)
      ensures TokenHolds(cache, ids, layout, g, h, d,
                if g < |key| then key[g][h][d] else 0.0, if g < |value| then value[g][h][d] else 0.0)
    {
      var b, t := TokenParts(g, BlockCount(|key|, blockSize), blockSize);
      assert layer.Has(b, t, h, d);
      assert layer.KeyAt(b, t, h, d) == Padded(key, g, h, d) && layer.ValueAt(b, t, h, d) == Padded(value, g, h, d);
    }
  }

  lemma TokenParts(g: nat, blocks: nat, blockSize: nat) returns (b: nat, t: nat)
    requires g < blocks * blockSize
    ensures b < blocks && t < blockSize && g == b * blockSize + t
  {
    QuotientBound(g, blocks, blockSize);
    b, t := g / blockSize, g % blockSize;
  }

  lemma ReadsAllTokens(cache: array5<real>, layer: Layer, ids: Option<seq<int>>, layout: Layout)
    requires Installable(cache, layer, ids, layout)
    requires forall b: nat, t: nat, h: nat, d: nat | layer.Has(b, t, h, d) :: Reads(cache, layer, ids, layout, b, t, h, d)
    ensures forall b: nat, t: nat, h: nat, d: nat | layer.Has(b, t, h, d) ::
              TokenHolds(cache, ids, layout, b * layer.BlockSize() + t, h, d, layer.KeyAt(b, t, h, d), layer.ValueAt(b, t, h, d))
  {
    hide TokenHolds, Reads, CombinedLayout, Resolves, Fits, TargetBlocks, Rect4;
    forall b: nat, t: nat, h: nat, d: nat | layer.Has(b, t, h, d)
      ensures TokenHolds(cache, ids, layout, b * layer.BlockSize() + t, h, d, layer.KeyAt(b, t, h, d), layer.ValueAt(b, t, h, d))
    {
      ReadsToken(cache, layer, ids, layout, b, t, b * layer.BlockSize() + t, h, d);
    }
  }

  /** A readable element, by the token it belongs to. */
  lemma ReadsToken(cache: array5<real>, layer: Layer, ids: Option<seq<int>>, layout: Layout, b: nat, t: nat, g: nat, h: nat, d: nat)
    requires Installable(cache, layer, ids, layout) && layer.Has(b, t, h, d) && g == b * layer.BlockSize() + t
    requires Reads(cache, layer, ids, layout, b, t, h, d)
    ensures TokenHolds(cache, ids, layout, g, h, d, layer.KeyAt(b, t, h, d), layer.ValueAt(b, t, h, d))
  {
    TargetInCache(cache, layer, ids, layout, b, t, h, d);
    PlaceOfToken(cache, layer, ids, layout, b, t, g);
    var p, i, j := TargetPage(cache, layer, ids, layout, b, t), TargetI(layout, t, h), TargetJ(layout, t, h);
    hide TargetPage, SlotIn, PageOf, CombinedLayout, Resolves, Fits, TokenHolds, InCache;
    HoldsFrom(cache, ids, layout, g, h, d, p, i, j);
  }

  /** The probe of an element matches exactly when what its token holds is within a millionth of it, key and value. */
  lemma ProbeExactly(cache: array5<real>, layer: Layer, ids: Option<seq<int>>, layout: Layout, pt: Point, key: real, value: real)
    requires Installable(cache, layer, ids, layout) && Probes(layer, pt)
    requires TokenHolds(cache, ids, layout, pt.block * layer.BlockSize() + pt.token, pt.head, pt.dim, key, value)
    ensures var k, v := layer.KeyAt(pt.block, pt.token, pt.head, pt.dim), layer.ValueAt(pt.block, pt.token, pt.head, pt.dim);
            ProbeMatches(cache, layer, ids, layout, pt) <==>
              k - 0.000001 <= key <= k + 0.000001 && v - 0.000001 <= value <= v + 0.000001
  {
    var b, t, h, d := pt.block, pt.token, pt.head, pt.dim;
    var g := b * layer.BlockSize() + t;
    TargetInCache(cache, layer, ids, layout, b, t, h, d);
    PlaceOfToken(cache, layer, ids, layout, b, t, g);
    var p, i, j := TargetPage(cache, layer, ids, layout, b, t), TargetI(layout, t, h), TargetJ(layout, t, h);
    hide TargetPage, SlotIn, PageOf, CombinedLayout, Resolves, Fits, TokenHolds;
    HoldsFrom(cache, ids, layout, g, h, d, p, i, j);
    HoldsOne(cache, ids, layout, g, h, d, key, value, cache[p, 0, i, j, d], cache[p, 1, i, j, d]);
  }

  lemma HoldsOne(cache: array5<real>, ids: Option<seq<int>>, layout: Layout, g: nat, h: nat, d: nat, k: real, v: real, k': real, v': real)
    requires layout.Supported() && layout.tokens > 0
    requires TokenHolds(cache, ids, layout, g, h, d, k, v) && TokenHolds(cache, ids, layout, g, h, d, k', v')
    ensures k == k' && v == v'
  {
  }

  lemma HoldsFrom(cache: array5<real>, ids: Option<seq<int>>, layout: Layout, g: nat, h: nat, d: nat, p: nat, i: nat, j: nat)
    requires layout.Supported() && layout.tokens > 0 && InCache(cache, p, 1, i, j, d)
    requires p == PageOf(ids, cache.Length0, g / layout.tokens)
    requires i == (if layout.TokenMajor() then g % layout.tokens else h) && j == (if layout.TokenMajor() then h else g % layout.tokens)
    ensures InCache(cache, p, 0, i, j, d)
    ensures TokenHolds(cache, ids, layout, g, h, d, cache[p, 0, i, j, d], cache[p, 1, i, j, d])
  {
    QuotientIsNat(g, layout.tokens);
    IdOfPage(ids, cache.Length0, g / layout.tokens);
    hide PageOf;
  }

  /** A page that resolves is the id at its position, from the end if negative. */
  lemma IdOfPage(ids: Option<seq<int>>, pages: nat, l: nat)
    requires PageOf(ids, pages, l) >= 0
    ensures ids.Some? ==> l < |ids.value|
    ensures var id := if ids.None? then l else ids.value[l];
            PageOf(ids, pages, l) == if id < 0 then id + pages else id
  {
  }

  /** The page and the slot of a token, by its number in the whole layer. */
  lemma PlaceOfToken(cache: array5<real>, layer: Layer, ids: Option<seq<int>>, layout: Layout, b: nat, t: nat, g: nat)
    requires Installable(cache, layer, ids, layout) && b < layer.Blocks() && t < layer.BlockSize() && g == b * layer.BlockSize() + t
    ensures TargetPage(cache, layer, ids, layout, b, t) == PageOf(ids, cache.Length0, g / layout.tokens)
    ensures SlotIn(layout, t) == g % layout.tokens
  {
    hide CombinedLayout, PageOf, Fits, LogicalBlock, SlotIn, Resolves, TargetBlocks;
    PagingCollapses(ShapeOf(cache), layer.BlockSize(), layer.Heads(), layer.Dim(), b, t);
  }

  lemma BlockedDims(key: Nested4, value: Nested4, blocks: nat, heads: nat, dim: nat, blockSize: nat)
    requires blocks > 0 && heads > 0 && dim > 0 && blockSize > 0
    requires Rect4(key, blocks, heads, dim, blockSize) && Rect4(value, blocks, heads, blockSize, dim)
    ensures var layer := Prepared(key, value);
            && layer.WellFormed() && layer.Blocks() == blocks && layer.BlockSize() == blockSize
            && layer.Heads() == heads && layer.Dim() == dim
  {
    assert Rect3(key[0], heads, dim, blockSize) && Rect3(value[0], heads, blockSize, dim);
    assert Rect2(key[0][0], dim, blockSize) && Rect2(value[0][0], blockSize, dim);
  }
}
