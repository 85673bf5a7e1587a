/**
 The sender (crates/cli/src/main.rs, `run_sim_migrate`, raw codec) and the end-to-end result of an honest
 KV-only migration: what the target's cache holds against what the source extracted.
 */
module Migration {
  import opened Common
  import opened Radix
  import opened Header
  import opened Layout
  import opened Messages
  import opened ChunkWire
  import opened Daemon
  import opened Link
  import Binding

  /** Extracted tensors by name. */
  type Extracted = map<string, Tensor>

  /** `normalize_canonical_kv_tensor`: a four-dimensional tensor is relabelled, its data untouched. */
  function Normalize(t: Tensor): Result<Tensor>
  {
    if |t.shape| == 3 then Success(t)
    else if |t.shape| == 4 && t.shape[0] == 1 then Success(Tensor(t.data, [t.shape[2], t.shape[1], t.shape[3]]))
    else Failure("Unsupported canonical KV tensor shape")
  }

  /** Three dimensions pass as they are; four, with a batch of one, are relabelled; nothing else passes, no data changes. */
  lemma NormalizeExactly(t: Tensor)
    ensures Normalize(t).Success? <==> |t.shape| == 3 || (|t.shape| == 4 && t.shape[0] == 1)
    ensures |t.shape| == 3 ==> Normalize(t).value.shape == t.shape && Normalize(t).value.data == t.data
    ensures |t.shape| == 4 && t.shape[0] == 1 ==>
              Normalize(t).value.shape == [t.shape[2], t.shape[1], t.shape[3]] && Normalize(t).value.data == t.data
  {
  }

  /**
   Relabelling [1, heads, seq, dim] as [seq, heads, dim] is the transposition it stands for only when one of
   heads and seq is at most one; otherwise element [t][head][d] is read from another place than [0][head][t][d].
   */
  lemma RelabelIsTranspose(seqLen: nat, heads: nat, dim: nat)
    requires dim > 0
    ensures (forall t: nat, head: nat, d: nat | t < seqLen && head < heads && d < dim ::
              Flat3(t, head, d, heads, dim) == Flat4(0, head, t, d, heads, seqLen, dim))
            <==> heads <= 1 || seqLen <= 1
  {
    if heads > 1 && seqLen > 1 {
      assert Flat3(1, 0, 0, heads, dim) == heads * dim;
      assert Flat4(0, 0, 1, 0, heads, seqLen, dim) == dim;
      assert heads * dim >= 2 * dim;
    } else {
      forall t: nat, head: nat, d: nat | t < seqLen && head < heads && d < dim
        ensures Flat3(t, head, d, heads, dim) == Flat4(0, head, t, d, heads, seqLen, dim)
      {
        assert t == 0 || heads == 1;
        assert head == 0 || seqLen == 1;
        assert t * heads + head == head * seqLen + t;
      }
    }
  }

  function Shape(h: Header): Geometry { Geometry(h.seqLen, h.kvHeads, h.headDim, h.blockSize) }

  /**
   The extractor delivered every layer's key and value in the header's shape, to be sent raw; block and layer numbers fit
   their 32-bit fields, and a block its buffer. Whether its chunks fit a frame is not part of this: see FramesFit.
   */
  ghost predicate Honest(src: Extracted, h: Header)
  {
    && Accepted(h)
    && h.transferScheme == None
    && h.layers <= U32_LIMIT && |h.blockHashes| <= U32_LIMIT
    && h.kvHeads * h.headDim * h.blockSize < U64_LIMIT
    && forall kind: Kind, layer: nat | layer < h.layers :: HasTensor(src, h, kind, layer)
  }

  /** The extracted tensor has the header's shape, in three dimensions or in four with a batch of one, and data for it. */
  predicate HasTensor(src: Extracted, h: Header, kind: Kind, layer: nat)
  {
    && TensorName(kind, layer) in src
    && var t := src[TensorName(kind, layer)];
       && (t.shape == [h.seqLen, h.kvHeads, h.headDim] || t.shape == [1, h.kvHeads, h.seqLen, h.headDim])
       && |t.data| >= CanonicalFloats(h)
  }

  function CanonicalFloats(h: Header): nat { h.seqLen * h.kvHeads * h.headDim }

  /** The extracted data itself. */
  function Canonical(src: Extracted, h: Header, kind: Kind, layer: nat): seq<Word>
    requires HasTensor(src, h, kind, layer)
  {
    src[TensorName(kind, layer)].data
  }

  /** Floats in one block. */
  function Floats(h: Header): nat { h.kvHeads * h.headDim * h.blockSize }

  lemma PagedSizeIsBlocks(g: Geometry, kind: Kind, blocks: nat)
    ensures g.PagedSize(kind, blocks) == blocks * (g.heads * g.dim * g.blockSize)
    ensures g.BlockFloats(kind) == g.heads * g.dim * g.blockSize
  {
    assert blocks * g.heads * g.dim * g.blockSize == blocks * (g.heads * g.dim * g.blockSize);
    assert g.heads * g.blockSize * g.dim == g.heads * g.dim * g.blockSize;
    assert blocks * g.heads * g.blockSize * g.dim == blocks * (g.heads * g.blockSize * g.dim);
  }

  lemma SliceBounds(b: nat, blocks: nat, n: nat)
    requires b < blocks
    ensures b * n + n <= blocks * n
  {
    assert (b + 1) * n <= blocks * n;
  }

  /** Block `b` of a paged buffer. */
  function Slice(paged: seq<Word>, b: nat, blocks: nat, n: nat): (block: seq<Word>)
    requires |paged| == blocks * n && b < blocks
    ensures |block| == n
  {
    SliceBounds(b, blocks, n);
    paged[b * n..b * n + n]
  }

  /** The floats of one chunk: block `b` of a layer's paged key or value tensor. */
  function ChunkWords(src: Extracted, h: Header, kind: Kind, layer: nat, b: nat): (words: seq<Word>)
    requires Accepted(h) && HasTensor(src, h, kind, layer) && b < |h.blockHashes|
    ensures |words| == Floats(h)
  {
    PagedSizeIsBlocks(Shape(h), kind, |h.blockHashes|);
    Slice(Blocked(kind, Canonical(src, h, kind, layer), Shape(h)), b, |h.blockHashes|, Floats(h))
  }

  function Chunk(f: Foreign, kind: Kind, layer: nat, b: nat, words: seq<Word>): Message
  {
    PayloadChunk(b % U32_LIMIT, layer % U32_LIMIT, TensorName(kind, layer), None, RawBytes(words), f.crc32(RawBytes(words)))
  }

  /** The first `b` blocks of one layer, a key and a value chunk each. */
  function LayerChunks(f: Foreign, src: Extracted, h: Header, layer: nat, b: nat): (sent: seq<Message>)
    requires Accepted(h) && HasTensor(src, h, Key, layer) && HasTensor(src, h, Value, layer) && b <= |h.blockHashes|
    ensures |sent| == 2 * b
  {
    if b == 0 then []
    else
      LayerChunks(f, src, h, layer, b - 1)
      + [Chunk(f, Key, layer, b - 1, ChunkWords(src, h, Key, layer, b - 1)),
         Chunk(f, Value, layer, b - 1, ChunkWords(src, h, Value, layer, b - 1))]
  }

  /** All chunks of the first `layers` layers, in sending order. */
  ghost function HonestChunks(f: Foreign, src: Extracted, h: Header, layers: nat): (sent: seq<Message>)
    requires Honest(src, h) && layers <= h.layers
    ensures |sent| == layers * 2 * |h.blockHashes|
  {
    if layers == 0 then []
    else
      assert layers * 2 * |h.blockHashes| == (layers - 1) * 2 * |h.blockHashes| + 2 * |h.blockHashes|;
      HonestChunks(f, src, h, layers - 1) + LayerChunks(f, src, h, layers - 1, |h.blockHashes|)
  }

  lemma {:induction false} LayerChunkAt(f: Foreign, src: Extracted, h: Header, layer: nat, blocks: nat, b: nat)
    requires Accepted(h) && HasTensor(src, h, Key, layer) && HasTensor(src, h, Value, layer) && b < blocks <= |h.blockHashes|
    ensures LayerChunks(f, src, h, layer, blocks)[2 * b] == Chunk(f, Key, layer, b, ChunkWords(src, h, Key, layer, b))
    ensures LayerChunks(f, src, h, layer, blocks)[2 * b + 1] == Chunk(f, Value, layer, b, ChunkWords(src, h, Value, layer, b))
  {
    hide Chunk, ChunkWords, HasTensor;
    if b == blocks - 1 {
    } else {
      LayerChunkAt(f, src, h, layer, blocks - 1, b);
    }
  }

  lemma {:induction false} ChunkAt(f: Foreign, src: Extracted, h: Header, layers: nat, layer: nat, i: nat, at: nat)
    requires Honest(src, h) && layer < layers <= h.layers && i < 2 * |h.blockHashes| && at == layer * 2 * |h.blockHashes| + i
    ensures HasTensor(src, h, Key, layer) && HasTensor(src, h, Value, layer)
    ensures at < |HonestChunks(f, src, h, layers)|
    ensures HonestChunks(f, src, h, layers)[at] == LayerChunks(f, src, h, layer, |h.blockHashes|)[i]
  {
    hide LayerChunks, HasTensor, Accepted;
    LastLayer(src, h, layers);
    LastLayer(src, h, layer + 1);
    var before, last := HonestChunks(f, src, h, layers - 1), LayerChunks(f, src, h, layers - 1, |h.blockHashes|);
    assert HonestChunks(f, src, h, layers) == before + last;
    if layer == layers - 1 {
      assert |before| + i == at;
    } else {
      ChunkAt(f, src, h, layers - 1, layer, i, at);
    }
  }

  lemma LastLayer(src: Extracted, h: Header, layers: nat)
    requires Honest(src, h) && 0 < layers <= h.layers
    ensures HasTensor(src, h, Key, layers - 1) && HasTensor(src, h, Value, layers - 1)
  {
    hide HasTensor;
  }

  /**
   What the sender streams, in order: for every layer and in it for every block first the key and then the value chunk,
   under their names, uncompressed, with the checksum of their bytes.
   */
  lemma SentExactly(f: Foreign, src: Extracted, h: Header, layer: nat, b: nat, at: nat)
    requires Honest(src, h) && layer < h.layers && b < |h.blockHashes| && at == layer * 2 * |h.blockHashes| + 2 * b
    ensures HasTensor(src, h, Key, layer) && HasTensor(src, h, Value, layer)
    ensures var sent := HonestChunks(f, src, h, h.layers);
            && |sent| == h.layers * 2 * |h.blockHashes| && at + 1 < |sent|
            && sent[at].PayloadChunk? && sent[at + 1].PayloadChunk?
            && sent[at].chunk == b == sent[at + 1].chunk && sent[at].layer == layer == sent[at + 1].layer
            && sent[at].name == "layer." + Decimal(layer) + ".key" && sent[at + 1].name == "layer." + Decimal(layer) + ".value"
            && sent[at].codec == None == sent[at + 1].codec
            && sent[at].crc32 == f.crc32(sent[at].data) && sent[at + 1].crc32 == f.crc32(sent[at + 1].data)
            && RawWords(sent[at].data) == ChunkWords(src, h, Key, layer, b) && |sent[at].data| == 4 * |ChunkWords(src, h, Key, layer, b)|
            && RawWords(sent[at + 1].data) == ChunkWords(src, h, Value, layer, b)
            && |sent[at + 1].data| == 4 * |ChunkWords(src, h, Value, layer, b)|
  {
    hide Decimal, ChunkWords, RawBytes, RawWords, LayerChunks, HonestChunks;
    ChunkAt(f, src, h, h.layers, layer, 2 * b, at);
    ChunkAt(f, src, h, h.layers, layer, 2 * b + 1, at + 1);
    LayerChunkAt(f, src, h, layer, |h.blockHashes|, b);
    RawRoundTrip(ChunkWords(src, h, Key, layer, b));
    RawRoundTrip(ChunkWords(src, h, Value, layer, b));
  }

  // ---- What the daemon has staged along the way ----

  /** How far the sender got: `layer` layers, `block` blocks of the next one, and its next key chunk if `half`. */
  datatype Progress = Progress(layer: nat, block: nat, half: bool) {

    /** The number of blocks of this tensor sent. */
    function Sent(kind: Kind, l: nat, blocks: nat): nat
    {
      if l < layer then blocks
      else if l == layer then (if half && kind == Key then block + 1 else block)
      else 0
    }
  }

  /** The last of the first `limit` blocks whose hash is that of block `b`. */
  function LastWith(hashes: seq<string>, b: nat, limit: nat): (last: nat)
    requires b < limit <= |hashes|
    ensures b <= last < limit && hashes[last] == hashes[b]
    ensures forall c | last < c < limit :: hashes[c] != hashes[b]
  {
    if hashes[limit - 1] == hashes[b] then limit - 1 else LastWith(hashes, b, limit - 1)
  }

  ghost predicate ReceivedUpTo(h: Header, received: set<ChunkKey>, p: Progress)
  {
    forall k <- received ::
      && k.1 < h.layers
      && ((k.2 == TensorName(Key, k.1) && k.0 < p.Sent(Key, k.1, |h.blockHashes|))
          || (k.2 == TensorName(Value, k.1) && k.0 < p.Sent(Value, k.1, |h.blockHashes|)))
  }

  /** This tensor's entry under block `b`'s hash comes from the last block sent with that hash. */
  predicate EntryIs(src: Extracted, h: Header, staged: Cache, kind: Kind, layer: nat, b: nat, limit: nat)
    requires Accepted(h) && HasTensor(src, h, kind, layer) && b < limit <= |h.blockHashes|
  {
    && h.blockHashes[b] in staged
    && TensorName(kind, layer) in staged[h.blockHashes[b]]
    && staged[h.blockHashes[b]][TensorName(kind, layer)]
       == Tensor(ChunkWords(src, h, kind, layer, LastWith(h.blockHashes, b, limit)), KindShape(h, kind))
  }

  /** One block of keys, or of values. */
  function KindShape(h: Header, kind: Kind): seq<nat>
  {
    match kind
    case Key => [1, h.kvHeads, h.headDim, h.blockSize]
    case Value => [1, h.kvHeads, h.blockSize, h.headDim]
  }

  ghost predicate StagedUpTo(src: Extracted, h: Header, staged: Cache, p: Progress)
    requires Honest(src, h) && p.block + (if p.half then 1 else 0) <= |h.blockHashes|
  {
    forall kind: Kind, l: nat, b: nat | l < h.layers && b < p.Sent(kind, l, |h.blockHashes|) ::
      EntryIs(src, h, staged, kind, l, b, p.Sent(kind, l, |h.blockHashes|))
  }

  function Before(kind: Kind, layer: nat, b: nat): Progress { Progress(layer, b, kind == Value) }

  function AfterSending(kind: Kind, layer: nat, b: nat): Progress
  {
    if kind == Key then Progress(layer, b, true) else Progress(layer, b + 1, false)
  }

  /** Sending a chunk counts one more block of its own tensor and of no other. */
  lemma ProgressStep(kind: Kind, layer: nat, b: nat, kind': Kind, l: nat, blocks: nat)
    ensures var was, now := Before(kind, layer, b).Sent(kind', l, blocks), AfterSending(kind, layer, b).Sent(kind', l, blocks);
            if kind' == kind && l == layer then was == b && now == b + 1 else was == now
  {
  }

  lemma ChunkIsNew(h: Header, received: set<ChunkKey>, kind: Kind, layer: nat, b: nat)
    requires ReceivedUpTo(h, received, Before(kind, layer, b))
    ensures (b, layer, TensorName(kind, layer)) !in received
  {
    NamesAreDistinct(Key, layer, Value, layer);
    ProgressStep(kind, layer, b, kind, layer, |h.blockHashes|);
  }

  /** The size of a chunk's frame content. */
  function FrameSize(h: Header, name: string): nat { 21 + |name| + 4 * Floats(h) }

  /** The longest chunk, the last layer's value, is within the frame limit. */
  predicate FramesFit(h: Header)
  {
    h.layers > 0 ==> FrameSize(h, TensorName(Value, h.layers - 1)) <= MAX_MESSAGE
  }

  /** The daemon accepts an honest chunk that reaches it, and decodes exactly the floats sent. */
  lemma ChunkIsAccepted(f: Foreign, h: Header, received: set<ChunkKey>, kind: Kind, layer: nat, b: nat, words: seq<Word>)
    requires h.transferScheme == None && h.layers <= U32_LIMIT && |h.blockHashes| <= U32_LIMIT
    requires Floats(h) < U64_LIMIT && |words| == Floats(h) && layer < h.layers && b < |h.blockHashes|
    requires (b, layer, TensorName(kind, layer)) !in received
    ensures Tensed(f, h, received, Chunk(f, kind, layer, b, words))
            == Success(Tensor(words, KindShape(h, kind)))
    ensures KeyOf(Chunk(f, kind, layer, b, words)) == (b, layer, TensorName(kind, layer))
  {
    hide RawBytes, RawWords, TensorName, EndsWith;
    RawRoundTrip(words);
    NamesAreDistinct(kind, layer, kind, layer);
  }

  /** It reaches the daemon, in whatever stream, exactly when its frame is within the limit. */
  lemma ChunkArrivesExactly(f: Foreign, h: Header, kind: Kind, layer: nat, b: nat, words: seq<Word>, rest: seq<Byte>)
    requires Faithful(f.text) && Plain(f.text) && |words| == Floats(h)
    ensures var m := Chunk(f, kind, layer, b, words);
            && (Carries(f.text, m) <==> FrameSize(h, TensorName(kind, layer)) <= MAX_MESSAGE)
            && (Next(f.text, Framed(f.text, m) + rest) == Some((m, rest)) <==>
                  21 + |TensorName(kind, layer)| + 4 * (h.kvHeads * h.headDim * h.blockSize) <= 524_288_000)
  {
    var m := Chunk(f, kind, layer, b, words);
    hide RawBytes, TensorName, Next, Carries;
    NameIsAscii(kind, layer);
    ChunkCarried(f.text, m);
    NextOfFrame(f.text, m, rest);
  }

  lemma ReceivedStep(h: Header, received: set<ChunkKey>, kind: Kind, layer: nat, b: nat)
    requires ReceivedUpTo(h, received, Before(kind, layer, b)) && layer < h.layers
    ensures ReceivedUpTo(h, received + {(b, layer, TensorName(kind, layer))}, AfterSending(kind, layer, b))
  {
    forall k <- received + {(b, layer, TensorName(kind, layer))}
      ensures && k.1 < h.layers
              && ((k.2 == TensorName(Key, k.1) && k.0 < AfterSending(kind, layer, b).Sent(Key, k.1, |h.blockHashes|))
                  || (k.2 == TensorName(Value, k.1) && k.0 < AfterSending(kind, layer, b).Sent(Value, k.1, |h.blockHashes|)))
    {
      ProgressStep(kind, layer, b, Key, k.1, |h.blockHashes|);
      ProgressStep(kind, layer, b, Value, k.1, |h.blockHashes|);
    }
  }

  /** An entry after one more tensor is put under block `b`'s hash. */
  lemma EntryStep(src: Extracted, h: Header, st: Stage, kind: Kind, layer: nat, b: nat, tensor: Tensor,
                  kind': Kind, l: nat, c: nat, limit: nat)
    requires Accepted(h) && HasTensor(src, h, kind, layer) && HasTensor(src, h, kind', l)
    requires b < |h.blockHashes| && c < limit <= |h.blockHashes|
    requires tensor == Tensor(ChunkWords(src, h, kind, layer, b), KindShape(h, kind))
    requires if kind' == kind && l == layer
             then limit == b + 1 && (c < b ==> EntryIs(src, h, st.staged, kind', l, c, b))
             else EntryIs(src, h, st.staged, kind', l, c, limit)
    ensures EntryIs(src, h, Put(st, h.blockHashes[b], (b, layer, TensorName(kind, layer)), tensor).staged, kind', l, c, limit)
  {
    NamesAreDistinct(kind, layer, kind', l);
    if kind' == kind && l == layer && h.blockHashes[c] != h.blockHashes[b] {
      assert LastWith(h.blockHashes, c, limit) == LastWith(h.blockHashes, c, b);
    }
  }

  lemma StagedStep(src: Extracted, h: Header, st: Stage, kind: Kind, layer: nat, b: nat, tensor: Tensor)
    requires Honest(src, h) && layer < h.layers && b < |h.blockHashes|
    requires StagedUpTo(src, h, st.staged, Before(kind, layer, b))
    requires tensor == Tensor(ChunkWords(src, h, kind, layer, b), KindShape(h, kind))
    ensures StagedUpTo(src, h, Put(st, h.blockHashes[b], (b, layer, TensorName(kind, layer)), tensor).staged,
              AfterSending(kind, layer, b))
  {
    var st' := Put(st, h.blockHashes[b], (b, layer, TensorName(kind, layer)), tensor);
    var blocks := |h.blockHashes|;
    forall kind': Kind, l: nat, c: nat | l < h.layers && c < AfterSending(kind, layer, b).Sent(kind', l, blocks)
      ensures EntryIs(src, h, st'.staged, kind', l, c, AfterSending(kind, layer, b).Sent(kind', l, blocks))
    {
      ProgressStep(kind, layer, b, kind', l, blocks);
      assert HasTensor(src, h, kind, layer) && HasTensor(src, h, kind', l);
      EntryStep(src, h, st, kind, layer, b, tensor, kind', l, c, AfterSending(kind, layer, b).Sent(kind', l, blocks));
    }
  }

  ghost predicate Follows(src: Extracted, h: Header, r: Result<Stage>, p: Progress)
    requires Honest(src, h) && p.block + (if p.half then 1 else 0) <= |h.blockHashes|
  {
    r.Success? && ReceivedUpTo(h, r.value.received, p) && StagedUpTo(src, h, r.value.staged, p)
  }

  lemma SendOne(f: Foreign, src: Extracted, h: Header, st: Stage, kind: Kind, layer: nat, b: nat)
    requires Honest(src, h) && layer < h.layers && b < |h.blockHashes|
    requires Follows(src, h, Success(st), Before(kind, layer, b))
    ensures Follows(src, h, Receive(f, h, st, Chunk(f, kind, layer, b, ChunkWords(src, h, kind, layer, b))),
              AfterSending(kind, layer, b))
  {
    var words := ChunkWords(src, h, kind, layer, b);
    ChunkIsNew(h, st.received, kind, layer, b);
    ChunkIsAccepted(f, h, st.received, kind, layer, b, words);
    ReceivedStep(h, st.received, kind, layer, b);
    StagedStep(src, h, st, kind, layer, b, Tensor(words, KindShape(h, kind)));
  }

  lemma {:induction false} StageAllConcat(f: Foreign, h: Header, a: seq<Message>, m: Message)
    ensures StageAll(f, h, a).Success? ==> StageAll(f, h, a + [m]) == Receive(f, h, StageAll(f, h, a).value, m)
  {
    assert (a + [m])[..|a|] == a;
  }

  lemma FollowChunk(f: Foreign, src: Extracted, h: Header, before: seq<Message>, kind: Kind, layer: nat, b: nat)
    requires Honest(src, h) && layer < h.layers && b < |h.blockHashes|
    requires Follows(src, h, StageAll(f, h, before), Before(kind, layer, b))
    ensures Follows(src, h, StageAll(f, h, before + [Chunk(f, kind, layer, b, ChunkWords(src, h, kind, layer, b))]),
              AfterSending(kind, layer, b))
  {
    SendOne(f, src, h, StageAll(f, h, before).value, kind, layer, b);
    StageAllConcat(f, h, before, Chunk(f, kind, layer, b, ChunkWords(src, h, kind, layer, b)));
  }

  lemma LayerChunksStep(f: Foreign, src: Extracted, h: Header, sent: seq<Message>, layer: nat, b: nat)
    requires Accepted(h) && HasTensor(src, h, Key, layer) && HasTensor(src, h, Value, layer) && b < |h.blockHashes|
    ensures sent + LayerChunks(f, src, h, layer, b + 1)
            == sent + LayerChunks(f, src, h, layer, b)
               + [Chunk(f, Key, layer, b, ChunkWords(src, h, Key, layer, b))]
               + [Chunk(f, Value, layer, b, ChunkWords(src, h, Value, layer, b))]
  {
  }

  /** Following one layer, block by block. */
  lemma {:induction false} FollowLayer(f: Foreign, src: Extracted, h: Header, sent: seq<Message>, layer: nat, b: nat)
    requires Honest(src, h) && layer < h.layers && b <= |h.blockHashes|
    requires HasTensor(src, h, Key, layer) && HasTensor(src, h, Value, layer)
    requires Follows(src, h, StageAll(f, h, sent), Progress(layer, 0, false))
    ensures Follows(src, h, StageAll(f, h, sent + LayerChunks(f, src, h, layer, b)), Progress(layer, b, false))
  {
    hide Follows, StageAll, ChunkWords, Chunk, HasTensor;
    if b == 0 {
      assert sent + LayerChunks(f, src, h, layer, 0) == sent;
    } else {
      FollowLayer(f, src, h, sent, layer, b - 1);
      FollowBlock(f, src, h, sent + LayerChunks(f, src, h, layer, b - 1), layer, b - 1);
      LayerChunksStep(f, src, h, sent, layer, b - 1);
    }
  }

  lemma FollowBlock(f: Foreign, src: Extracted, h: Header, before: seq<Message>, layer: nat, b: nat)
    requires Honest(src, h) && layer < h.layers && b < |h.blockHashes|
    requires HasTensor(src, h, Key, layer) && HasTensor(src, h, Value, layer)
    requires Follows(src, h, StageAll(f, h, before), Progress(layer, b, false))
    ensures Follows(src, h,
              StageAll(f, h, before + [Chunk(f, Key, layer, b, ChunkWords(src, h, Key, layer, b))]
                                    + [Chunk(f, Value, layer, b, ChunkWords(src, h, Value, layer, b))]),
              Progress(layer, b + 1, false))
  {
    hide Follows, StageAll, ChunkWords, Chunk, HasTensor;
    FollowChunk(f, src, h, before, Key, layer, b);
    FollowChunk(f, src, h, before + [Chunk(f, Key, layer, b, ChunkWords(src, h, Key, layer, b))], Value, layer, b);
  }

  /** A finished layer is the next one not begun. */
  lemma NextLayer(src: Extracted, h: Header, r: Result<Stage>, layer: nat)
    requires Honest(src, h) && Follows(src, h, r, Progress(layer, |h.blockHashes|, false))
    ensures Follows(src, h, r, Progress(layer + 1, 0, false))
  {
    var blocks, p := |h.blockHashes|, Progress(layer + 1, 0, false);
    forall kind: Kind, l: nat, b: nat | l < h.layers && b < p.Sent(kind, l, blocks)
      ensures EntryIs(src, h, r.value.staged, kind, l, b, p.Sent(kind, l, blocks))
    {
      assert b < Progress(layer, blocks, false).Sent(kind, l, blocks);
    }
  }

  lemma NothingSent(src: Extracted, h: Header)
    requires Honest(src, h)
    ensures Follows(src, h, Success(EMPTY), Progress(0, 0, false))
  {
  }

  /** In the honest sender's order every tensor ends up, under each hash, with the highest-numbered block of that hash. */
  lemma {:induction false} FollowSender(f: Foreign, src: Extracted, h: Header, layers: nat)
    requires Honest(src, h) && layers <= h.layers
    ensures Follows(src, h, StageAll(f, h, HonestChunks(f, src, h, layers)), Progress(layers, 0, false))
  {
    hide HasTensor, ReceivedUpTo, ChunkWords, Receive;
    if layers == 0 {
      assert HonestChunks(f, src, h, 0) == [];
      NothingSent(src, h);
    } else {
      FollowSender(f, src, h, layers - 1);
      assert HasTensor(src, h, Key, layers - 1) && HasTensor(src, h, Value, layers - 1);
      FollowLayer(f, src, h, HonestChunks(f, src, h, layers - 1), layers - 1, |h.blockHashes|);
      NextLayer(src, h, StageAll(f, h, HonestChunks(f, src, h, layers)), layers - 1);
    }
  }

  // ---- End to end ----

  lemma {:induction false} StreamRun(f: Foreign, s: State, h: Header, left: nat, messages: seq<Message>)
    requires s.phase == StreamingPhase(h, left, EMPTY) && |messages| <= left && StageAll(f, h, messages).Success?
    ensures var s' := Run(f, s, messages);
            && s'.phase == StreamingPhase(h, left - |messages|, StageAll(f, h, messages).value)
            && s'.cache == s.cache && s'.recorded == s.recorded
            && s'.replies == s.replies + Acks(messages)
  {
    hide Receive, Step;
    if messages == [] {
    } else {
      var before, last := messages[..|messages| - 1], messages[|messages| - 1];
      StreamRun(f, s, h, left, before);
      ChunkStep(f, Run(f, s, before), h, left - |before|, StageAll(f, h, before).value, last);
    }
  }

  lemma ChunkStep(f: Foreign, s: State, h: Header, left: nat, stage: Stage, m: Message)
    requires s.phase == Streaming(h, left, stage) && left > 0 && Receive(f, h, stage, m).Success?
    ensures m.PayloadChunk?
    ensures Step(f, s, m) == OnChunk(s, h, left - 1, Receive(f, h, stage, m).value, m.chunk)
  {
    ReceiveAddsKey(f, h, stage, m);
  }

  /** One acknowledgement per chunk, in order. */
  function Acks(messages: seq<Message>): seq<Reply>
  {
    if messages == [] then []
    else Acks(messages[..|messages| - 1])
         + (if messages[|messages| - 1].PayloadChunk? then [ChunkAck(messages[|messages| - 1].chunk)] else [])
  }

  /** One acknowledgement for each chunk, with its number. */
  lemma {:induction false} AcksExactly(messages: seq<Message>)
    requires AllChunks(messages)
    ensures |Acks(messages)| == |messages|
    ensures forall i | 0 <= i < |messages| :: Acks(messages)[i] == ChunkAck(messages[i].chunk)
  {
    if messages == [] {
    } else {
      AcksExactly(messages[..|messages| - 1]);
    }
  }

  /** After opening and chunks the daemon waits for a decision, with everything the chunks staged. */
  lemma HonestRunStages(f: Foreign, h: Header, cache: Cache, chunks: seq<Message>)
    requires Accepted(h) && h.seqLen <= MAX_CONTEXT && |chunks| == ChunkCount(h) && StageAll(f, h, chunks).Success?
    ensures var s := Connect(f, cache, Opening(h.seqLen, h) + chunks);
            && s.phase == AwaitDecision(h, StageAll(f, h, chunks).value) && s.cache == cache && s.recorded == None
            && s.replies == [CapabilityResponse(true), HeaderAck] + Acks(chunks)
  {
    var opening := Opening(h.seqLen, h);
    OpeningRun(f, cache, h.seqLen, h);
    StreamRun(f, Connect(f, cache, opening), h, ChunkCount(h), chunks);
    RunConcat(f, Start(cache), opening, chunks);
  }

  /** Within the context limit the number of chunks cannot wrap. */
  lemma ContextBoundsChunks(h: Header)
    requires Accepted(h) && h.seqLen <= MAX_CONTEXT && h.layers <= U32_LIMIT
    ensures ChunksAnnounced(h) < U64_LIMIT && ChunkCount(h) == h.layers * 2 * |h.blockHashes|
  {
    BlocksBelowTokens(h.seqLen, h.blockSize);
    ProductBelow(h.layers * 2, |h.blockHashes|, U32_LIMIT * 2, MAX_CONTEXT);
  }

  lemma BlocksBelowTokens(seqLen: nat, blockSize: nat)
    requires seqLen > 0 && blockSize > 0
    ensures DivCeil(seqLen, blockSize) <= seqLen
  {
    hide DivCeil;
    var blocks := DivCeil(seqLen, blockSize);
    if seqLen < blocks {
      LastBlockStarts(seqLen, blockSize, blocks - 2);
      ProductBelow(blocks - 1, 1, blocks - 1, blockSize);
    }
  }

  lemma ProductBelow(a: nat, b: nat, c: nat, d: nat)
    requires a <= c && b <= d
    ensures a * b <= c * d
  {
    assert a * b <= c * b <= c * d;
  }

  lemma CommitStep(f: Foreign, s: State, cache: Cache, h: Header, stage: Stage)
    requires (s.phase == AwaitDecision(h, stage) || s.phase == AwaitCommit(h, stage)) && s.cache == cache
    requires Complete(h, stage) && ChunksAnnounced(h) < U64_LIMIT && h.layers > 0
    ensures Step(f, s, CommitRequest) == State(Done(CommittedOk(h, stage)), s.replies + [CommitResponse], cache + stage.staged, Some(true))
  {
    hide StageInv;
    CommitVerdict(s, cache, h, stage);
  }

  /** After opening and chunks the daemon waits for a decision, with every announced chunk staged. */
  lemma HonestStage(f: Foreign, src: Extracted, h: Header, cache: Cache)
    requires Honest(src, h) && h.seqLen <= MAX_CONTEXT
    ensures var chunks := HonestChunks(f, src, h, h.layers);
            var r := StageAll(f, h, chunks);
            && r.Success? && Complete(h, r.value) && ChunksAnnounced(h) < U64_LIMIT
            && Connect(f, cache, Opening(h.seqLen, h) + chunks)
               == State(AwaitDecision(h, r.value), [CapabilityResponse(true), HeaderAck] + Acks(chunks), cache, None)
  {
    hide StageAll, Step, StageInv, StagedUpTo, ReceivedUpTo, HonestChunks, ChunksAnnounced, ChunkCount, Acks, Opening;
    var chunks := HonestChunks(f, src, h, h.layers);
    ContextBoundsChunks(h);
    FollowSender(f, src, h, h.layers);
    HonestRunStages(f, h, cache, chunks);
    AcceptedInv(f, h, chunks);
  }

  // ---- Over the byte stream ----

  /** An honest migration within the context limit, with text functions that carry the messages around the chunks. */
  ghost predicate Offered(f: Foreign, src: Extracted, h: Header)
  {
    && Honest(src, h) && h.layers > 0 && h.seqLen <= MAX_CONTEXT
    && Faithful(f.text) && Plain(f.text)
    && AllCarried(f.text, Opening(h.seqLen, h)) && Carries(f.text, CommitRequest)
  }

  /** The bytes an honest sender puts on the wire, with the messages that end its run. */
  ghost function HonestBytes(f: Foreign, src: Extracted, h: Header, ending: seq<Message>): seq<Byte>
    requires Honest(src, h)
  {
    Wired(f.text, Opening(h.seqLen, h) + HonestChunks(f, src, h, h.layers) + ending)
  }

  lemma {:induction false} LayerCarried(f: Foreign, src: Extracted, h: Header, layer: nat, b: nat)
    requires Accepted(h) && HasTensor(src, h, Key, layer) && HasTensor(src, h, Value, layer) && b <= |h.blockHashes|
    requires Faithful(f.text) && Plain(f.text) && FramesFit(h) && layer < h.layers
    ensures AllCarried(f.text, LayerChunks(f, src, h, layer, b))
  {
    hide Carries, Faithful, Plain, Chunk, ChunkWords, HasTensor, Accepted, FramesFit;
    if b == 0 {
    } else {
      LayerCarried(f, src, h, layer, b - 1);
      ChunkCarriedIfFits(f, h, Key, layer, b - 1, ChunkWords(src, h, Key, layer, b - 1));
      ChunkCarriedIfFits(f, h, Value, layer, b - 1, ChunkWords(src, h, Value, layer, b - 1));
    }
  }

  lemma ChunkCarriedIfFits(f: Foreign, h: Header, kind: Kind, layer: nat, b: nat, words: seq<Word>)
    requires Faithful(f.text) && Plain(f.text) && |words| == Floats(h) && FramesFit(h) && layer < h.layers
    ensures Carries(f.text, Chunk(f, kind, layer, b, words))
  {
    hide Carries, Faithful, Plain, Chunk, TensorName, Next, Framed, Floats;
    LongestName(kind, layer, h.layers);
    ChunkArrivesExactly(f, h, kind, layer, b, words, []);
  }

  lemma {:induction false} ChunksCarried(f: Foreign, src: Extracted, h: Header, layers: nat)
    requires Honest(src, h) && layers <= h.layers
    requires Faithful(f.text) && Plain(f.text) && FramesFit(h)
    ensures AllCarried(f.text, HonestChunks(f, src, h, layers))
  {
    hide Carries, Faithful, Plain, FramesFit, LayerChunks;
    if layers == 0 {
    } else {
      ChunksCarried(f, src, h, layers - 1);
      assert HasTensor(src, h, Key, layers - 1) && HasTensor(src, h, Value, layers - 1);
      LayerCarried(f, src, h, layers - 1, |h.blockHashes|);
    }
  }

  /** Chunks within the frame limit are delivered, and staged as the sender progresses. */
  lemma StagedFromWire(f: Foreign, src: Extracted, h: Header, layers: nat)
    requires Honest(src, h) && layers <= h.layers
    requires Faithful(f.text) && Plain(f.text) && FramesFit(h)
    ensures Follows(src, h, StageAll(f, h, Delivered(f.text, Wired(f.text, HonestChunks(f, src, h, layers)))),
              Progress(layers, 0, false))
  {
    hide Follows, StageAll, Faithful, Plain, FramesFit, AllCarried, Wired, HonestChunks;
    ChunksCarried(f, src, h, layers);
    AllDelivered(f.text, HonestChunks(f, src, h, layers));
    FollowSender(f, src, h, layers);
  }

  /** Within the frame limit the daemon gets every message of the run. */
  lemma RunDelivers(f: Foreign, src: Extracted, h: Header, ending: seq<Message>)
    requires Offered(f, src, h) && FramesFit(h) && AllCarried(f.text, ending)
    ensures Delivered(f.text, HonestBytes(f, src, h, ending)) == Opening(h.seqLen, h) + HonestChunks(f, src, h, h.layers) + ending
  {
    hide Carries, Faithful, Plain, FramesFit, Wired, HonestChunks, Opening;
    ChunksCarried(f, src, h, h.layers);
    AllDelivered(f.text, Opening(h.seqLen, h) + HonestChunks(f, src, h, h.layers) + ending);
  }

  /** Beyond it nothing lands, however the run ends. */
  lemma RunRefused(f: Foreign, src: Extracted, h: Header, cache: Cache, ending: seq<Message>)
    requires Offered(f, src, h) && !FramesFit(h)
    ensures var s := Serve(f, cache, HonestBytes(f, src, h, ending));
            && s.cache == cache && s.recorded == None && CommitResponse !in s.replies
            && (s.phase.Done? ==> s.phase.outcome.Violated?)
  {
    hide Carries, Faithful, Wired, HonestChunks, Opening, Serve, TensorName;
    var opening, later := Opening(h.seqLen, h), HonestChunks(f, src, h, h.layers) + ending;
    assert opening + HonestChunks(f, src, h, h.layers) + ending == opening + later;
    WiredConcat(f.text, opening, later);
    assert !Transferable(f.text, h) by {
      ContextBoundsChunks(h);
      NameIsAscii(Value, h.layers - 1);
    }
    NothingLands(f, cache, h.seqLen, h, Wired(f.text, later));
  }

  /**
   An honest run commits exactly when its longest chunk is within the frame limit. It then adds to the cache what the
   chunks staged; otherwise the daemon gives up while streaming and the cache keeps what it had.
   */
  lemma HonestRunCommits(f: Foreign, src: Extracted, h: Header, cache: Cache)
    requires Offered(f, src, h)
    ensures var s := Serve(f, cache, HonestBytes(f, src, h, [CommitRequest]));
            var r := StageAll(f, h, HonestChunks(f, src, h, h.layers));
            && (s.phase.Done? && s.phase.outcome.CommittedOk? <==> FramesFit(h))
            && (FramesFit(h) ==>
                  && r.Success?
                  && s == State(Done(CommittedOk(h, r.value)),
                                [CapabilityResponse(true), HeaderAck] + Acks(HonestChunks(f, src, h, h.layers)) + [CommitResponse],
                                cache + r.value.staged, Some(true)))
            && (!FramesFit(h) ==> s.cache == cache && s.recorded == None && CommitResponse !in s.replies)
  {
    hide StageAll, Step, StageInv, HonestChunks, Acks, Opening, FramesFit, Carries, Faithful, Plain, Accepted;
    if FramesFit(h) {
      RunDelivers(f, src, h, [CommitRequest]);
      HonestStage(f, src, h, cache);
      var before := Opening(h.seqLen, h) + HonestChunks(f, src, h, h.layers);
      CommitStep(f, Connect(f, cache, before), cache, h, StageAll(f, h, HonestChunks(f, src, h, h.layers)).value);
      RunConcat(f, Start(cache), before, [CommitRequest]);
      RunOne(f, Connect(f, cache, before), CommitRequest);
    } else {
      RunRefused(f, src, h, cache, [CommitRequest]);
    }
  }

  /**
   A header of one token whose block is padded to 2^30 of them: accepted, within the context limit and with distinct
   hashes, but its chunks of 4 GiB do not fit a frame.
   */
  lemma LargeBlockIsRefused(f: Foreign, cache: Cache) returns (src: Extracted, h: Header)
    requires Faithful(f.text) && Plain(f.text)
    requires AllCarried(f.text, Opening(1, LargeBlockHeader())) && Carries(f.text, CommitRequest)
    ensures h == LargeBlockHeader() && Offered(f, src, h) && DistinctHashes(h.blockHashes) && !FramesFit(h)
    ensures var s := Serve(f, cache, HonestBytes(f, src, h, [CommitRequest]));
            s.cache == cache && s.recorded == None && CommitResponse !in s.replies
  {
    h := LargeBlockHeader();
    src := map[TensorName(Key, 0) := Tensor([0], [1, 1, 1]), TensorName(Value, 0) := Tensor([0], [1, 1, 1])];
    NamesAreDistinct(Key, 0, Value, 0);
    assert Honest(src, h) by {
      forall kind: Kind, layer: nat | layer < h.layers
        ensures HasTensor(src, h, kind, layer)
      {
        assert TensorName(kind, layer) in src;
      }
    }
    HonestRunCommits(f, src, h, cache);
  }

  function LargeBlockHeader(): (h: Header)
    ensures Accepted(h) && h.seqLen == h.kvHeads == h.headDim == h.layers == |h.blockHashes| == 1
    ensures h.blockSize == 0x4000_0000 && h.transferScheme == None
  {
    Header("1.1", 1, 1, 0x4000_0000, ["block"], 1, 1, 1, Mha, false, "sha256:", "sha256:", None)
  }

  /** Injection does not wait for the commit request: any other last message but a binding leaves the same cache. */
  lemma InjectionPrecedesCommit(f: Foreign, src: Extracted, h: Header, cache: Cache, m: Message)
    requires Offered(f, src, h) && FramesFit(h) && Carries(f.text, m) && !m.GraphBinding? && !m.CommitRequest?
    ensures var s := Serve(f, cache, HonestBytes(f, src, h, [m]));
            && s.cache == Serve(f, cache, HonestBytes(f, src, h, [CommitRequest])).cache
            && s.phase.Done? && s.phase.outcome.InjectedWithoutCommit? && s.recorded == None
            && s.replies == [CapabilityResponse(true), HeaderAck] + Acks(HonestChunks(f, src, h, h.layers))
  {
    hide StageAll, StageInv, HonestChunks, Acks, Opening, FramesFit, Carries, Faithful, Plain, Accepted, Step, Complete, Inv;
    RunDelivers(f, src, h, [m]);
    HonestStage(f, src, h, cache);
    HonestRunCommits(f, src, h, cache);
    var before := Opening(h.seqLen, h) + HonestChunks(f, src, h, h.layers);
    RunConcat(f, Start(cache), before, [m]);
    RunOne(f, Connect(f, cache, before), m);
    UncommittedStep(f, Connect(f, cache, before), m, cache, h, StageAll(f, h, HonestChunks(f, src, h, h.layers)).value);
  }

  lemma UncommittedStep(f: Foreign, s: State, m: Message, cache: Cache, h: Header, stage: Stage)
    requires s.phase == AwaitDecision(h, stage) && s.cache == cache && s.recorded == None
    requires !m.GraphBinding? && !m.CommitRequest?
    ensures Step(f, s, m) == State(Done(InjectedWithoutCommit(h, stage)), s.replies, cache + stage.staged, None)
  {
  }

  /**
   With a graph binding built from a loaded manifest the same run commits exactly when its frames fit and the manifest
   was ready for this header; a manifest that was not is rejected and the cache keeps what it had.
   */
  lemma BoundRunCommitsExactly(f: Foreign, src: Extracted, h: Header, cache: Cache, manifest: Binding.Graph)
    requires Offered(f, src, h) && Binding.Loaded(manifest)
    requires Carries(f.text, GraphBinding(Binding.ToBinding(manifest, h)))
    ensures var s := Serve(f, cache, HonestBytes(f, src, h, [GraphBinding(Binding.ToBinding(manifest, h)), CommitRequest]));
            && (s.phase.Done? && s.phase.outcome.CommittedOk? <==> FramesFit(h) && Binding.Ready(manifest, h))
            && (FramesFit(h) && Binding.Ready(manifest, h) ==>
                  && s.cache == Serve(f, cache, HonestBytes(f, src, h, [CommitRequest])).cache && s.recorded == Some(true)
                  && s.replies == [CapabilityResponse(true), HeaderAck] + Acks(HonestChunks(f, src, h, h.layers))
                                  + [GraphBindingAck(true)] + [CommitResponse])
            && (FramesFit(h) && !Binding.Ready(manifest, h) ==>
                  s == State(Done(BindingRejected(h)),
                             [CapabilityResponse(true), HeaderAck] + Acks(HonestChunks(f, src, h, h.layers)) + [GraphBindingAck(false)],
                             cache, Some(false)))
            && (!FramesFit(h) ==> s.cache == cache && s.recorded == None && CommitResponse !in s.replies)
  {
    hide StageAll, Step, StageInv, HonestChunks, Opening, FramesFit, Carries, Faithful, Plain, Accepted, Acks;
    hide Binding.Accepts, Binding.Ready, Binding.Loaded, Binding.ToBinding;
    var b := Binding.ToBinding(manifest, h);
    var ending := [GraphBinding(b), CommitRequest];
    if FramesFit(h) {
      RunDelivers(f, src, h, ending);
      HonestStage(f, src, h, cache);
      HonestRunCommits(f, src, h, cache);
      Binding.BindingAcceptedExactly(manifest, h);
      var before := Opening(h.seqLen, h) + HonestChunks(f, src, h, h.layers);
      RunTwo(f, Start(cache), before, GraphBinding(b), CommitRequest);
      BoundSteps(f, Connect(f, cache, before), cache, h, StageAll(f, h, HonestChunks(f, src, h, h.layers)).value, b);
    } else {
      RunRefused(f, src, h, cache, ending);
    }
  }

  lemma BoundSteps(f: Foreign, s: State, cache: Cache, h: Header, stage: Stage, b: Binding.Graph)
    requires s.phase == AwaitDecision(h, stage) && s.cache == cache
    requires Complete(h, stage) && ChunksAnnounced(h) < U64_LIMIT && h.layers > 0
    ensures var s' := Step(f, Step(f, s, GraphBinding(b)), CommitRequest);
            s' == if Binding.Accepts(b, h)
                  then State(Done(CommittedOk(h, stage)), s.replies + [GraphBindingAck(true)] + [CommitResponse], cache + stage.staged, Some(true))
                  else State(Done(BindingRejected(h)), s.replies + [GraphBindingAck(false)], cache, Some(false))
  {
    hide StageInv, Binding.Accepts;
    if Binding.Accepts(b, h) {
      CommitStep(f, Step(f, s, GraphBinding(b)), cache, h, stage);
    }
  }

  lemma RunTwo(f: Foreign, s: State, before: seq<Message>, m: Message, m': Message)
    ensures Run(f, s, before + [m, m']) == Step(f, Step(f, Run(f, s, before), m), m')
  {
    assert before + [m, m'] == before + [m] + [m'];
    RunConcat(f, s, before + [m], [m']);
    RunConcat(f, s, before, [m]);
    RunOne(f, Run(f, s, before), m);
    RunOne(f, Run(f, s, before + [m]), m');
  }

  lemma RunOne(f: Foreign, s: State, m: Message)
    ensures Run(f, s, [m]) == Step(f, s, m)
  {
    assert Run(f, s, [m]) == Step(f, Run(f, s, [m][..0]), [m][0]);
  }

  /** A tensor's blocks, looked up in the cache one after the other by the header's hashes. */
  predicate Present(cache: Cache, h: Header, kind: Kind, layer: nat)
  {
    forall b | 0 <= b < |h.blockHashes| ::
      && h.blockHashes[b] in cache
      && TensorName(kind, layer) in cache[h.blockHashes[b]]
      && |cache[h.blockHashes[b]][TensorName(kind, layer)].data| == Floats(h)
  }

  /** The paged tensor put together from the cache: element `o` comes from block `o / Floats`. */
  function Reassembled(cache: Cache, h: Header, kind: Kind, layer: nat): (paged: seq<Word>)
    requires Present(cache, h, kind, layer)
    ensures |paged| == |h.blockHashes| * Floats(h)
  {
    seq(|h.blockHashes| * Floats(h), o requires 0 <= o < |h.blockHashes| * Floats(h) =>
      QuotientBound(o, |h.blockHashes|, Floats(h));
      cache[h.blockHashes[o / Floats(h)]][TensorName(kind, layer)].data[o % Floats(h)])
  }

  lemma SliceElement(paged: seq<Word>, o: nat, blocks: nat, n: nat)
    requires |paged| == blocks * n && o < |paged|
    ensures n > 0 && 0 <= o / n < blocks
    ensures Slice(paged, o / n, blocks, n)[o % n] == paged[o]
  {
    QuotientBound(o, blocks, n);
    SliceBounds(o / n, blocks, n);
    assert o / n * n + o % n == o;
  }

  /** Two paged buffers are equal when all their blocks are. */
  lemma EqualByBlocks(a: seq<Word>, b: seq<Word>, blocks: nat, n: nat)
    requires |a| == |b| == blocks * n
    requires forall i: nat | i < blocks :: Slice(a, i, blocks, n) == Slice(b, i, blocks, n)
    ensures a == b
  {
    forall o | 0 <= o < |a|
      ensures a[o] == b[o]
    {
      EqualElement(a, b, blocks, n, o);
    }
  }

  lemma EqualElement(a: seq<Word>, b: seq<Word>, blocks: nat, n: nat, o: nat)
    requires |a| == |b| == blocks * n && o < |a|
    requires forall i: nat | i < blocks :: Slice(a, i, blocks, n) == Slice(b, i, blocks, n)
    ensures a[o] == b[o]
  {
    SliceElement(a, o, blocks, n);
    SliceElement(b, o, blocks, n);
    assert Slice(a, o / n, blocks, n) == Slice(b, o / n, blocks, n);
  }

  lemma ReassembledBlock(cache: Cache, h: Header, kind: Kind, layer: nat, b: nat)
    requires Present(cache, h, kind, layer) && b < |h.blockHashes|
    ensures Slice(Reassembled(cache, h, kind, layer), b, |h.blockHashes|, Floats(h))
            == cache[h.blockHashes[b]][TensorName(kind, layer)].data
  {
    hide TensorName;
    var n := Floats(h);
    SliceBounds(b, |h.blockHashes|, n);
    var paged := Reassembled(cache, h, kind, layer);
    forall i | 0 <= i < n
      ensures paged[b * n + i] == cache[h.blockHashes[b]][TensorName(kind, layer)].data[i]
    {
      StepBound(b, |h.blockHashes|, i, n);
      ModUnique(b, i, n);
    }
  }

  /** Blocks with the same hash carry the same floats, in this tensor. */
  ghost predicate SameHashSameWords(src: Extracted, h: Header, kind: Kind, layer: nat)
    requires Accepted(h) && HasTensor(src, h, kind, layer)
  {
    forall b: nat, c: nat | b < |h.blockHashes| && c < |h.blockHashes| && h.blockHashes[b] == h.blockHashes[c] ::
      ChunkWords(src, h, kind, layer, b) == ChunkWords(src, h, kind, layer, c)
  }

  /** The cache at the end of an honest run. */
  ghost function Landed(f: Foreign, src: Extracted, h: Header, cache: Cache): Cache
    requires Honest(src, h)
  {
    Serve(f, cache, HonestBytes(f, src, h, [CommitRequest])).cache
  }

  /**
   Under the hash of block `b` lies, for every layer's key and value, the highest-numbered block with that hash -
   whatever the cache held before.
   */
  lemma HighestBlockWins(f: Foreign, src: Extracted, h: Header, cache: Cache, kind: Kind, layer: nat, b: nat)
    requires Offered(f, src, h) && FramesFit(h) && layer < h.layers && b < |h.blockHashes|
    ensures HasTensor(src, h, kind, layer)
    ensures EntryIs(src, h, Landed(f, src, h, cache), kind, layer, b, |h.blockHashes|)
  {
    hide StageAll, Serve, HonestBytes, HonestChunks, FramesFit, EntryIs, Faithful, Plain, AllCarried, Carries;
    HonestRunCommits(f, src, h, cache);
    FollowSender(f, src, h, h.layers);
    var staged := StageAll(f, h, HonestChunks(f, src, h, h.layers)).value.staged;
    assert HasTensor(src, h, kind, layer);
    assert Progress(h.layers, 0, false).Sent(kind, layer, |h.blockHashes|) == |h.blockHashes|;
    EntryOverrides(src, h, cache, staged, kind, layer, b, |h.blockHashes|);
  }

  lemma EntryOverrides(src: Extracted, h: Header, cache: Cache, staged: Cache, kind: Kind, layer: nat, b: nat, limit: nat)
    requires Accepted(h) && HasTensor(src, h, kind, layer) && b < limit <= |h.blockHashes|
    requires EntryIs(src, h, staged, kind, layer, b, limit)
    ensures EntryIs(src, h, cache + staged, kind, layer, b, limit)
  {
  }

  lemma LandedIsPresent(f: Foreign, src: Extracted, h: Header, cache: Cache, kind: Kind, layer: nat)
    requires Offered(f, src, h) && FramesFit(h) && layer < h.layers
    ensures Present(Landed(f, src, h, cache), h, kind, layer)
  {
    forall b: nat | b < |h.blockHashes|
      ensures && h.blockHashes[b] in Landed(f, src, h, cache)
              && TensorName(kind, layer) in Landed(f, src, h, cache)[h.blockHashes[b]]
              && |Landed(f, src, h, cache)[h.blockHashes[b]][TensorName(kind, layer)].data| == Floats(h)
    {
      HighestBlockWins(f, src, h, cache, kind, layer, b);
    }
  }

  /** Block `b` as the target holds it: the highest-numbered block with its hash. */
  lemma LandedBlock(f: Foreign, src: Extracted, h: Header, cache: Cache, kind: Kind, layer: nat, b: nat)
    requires Offered(f, src, h) && FramesFit(h) && layer < h.layers && b < |h.blockHashes|
    ensures HasTensor(src, h, kind, layer) && Present(Landed(f, src, h, cache), h, kind, layer)
    ensures Slice(Reassembled(Landed(f, src, h, cache), h, kind, layer), b, |h.blockHashes|, Floats(h))
            == ChunkWords(src, h, kind, layer, LastWith(h.blockHashes, b, |h.blockHashes|))
  {
    assert HasTensor(src, h, kind, layer);
    hide Landed, TensorName, FramesFit, Honest, HasTensor, ChunkWords;
    LandedIsPresent(f, src, h, cache, kind, layer);
    HighestBlockWins(f, src, h, cache, kind, layer, b);
    ReassembledBlock(Landed(f, src, h, cache), h, kind, layer, b);
  }

  /** The paged tensor reassembled from the target equals the one sent exactly when blocks of equal hash were equal. */
  lemma PagedFidelity(f: Foreign, src: Extracted, h: Header, cache: Cache, kind: Kind, layer: nat)
    requires Offered(f, src, h) && FramesFit(h) && layer < h.layers
    ensures HasTensor(src, h, kind, layer) && Present(Landed(f, src, h, cache), h, kind, layer)
    ensures Reassembled(Landed(f, src, h, cache), h, kind, layer) == Blocked(kind, Canonical(src, h, kind, layer), Shape(h))
            <==> SameHashSameWords(src, h, kind, layer)
  {
    assert HasTensor(src, h, kind, layer);
    LandedIsPresent(f, src, h, cache, kind, layer);
    var blocks, n := |h.blockHashes|, Floats(h);
    var got, sent := Reassembled(Landed(f, src, h, cache), h, kind, layer), Blocked(kind, Canonical(src, h, kind, layer), Shape(h));
    PagedSizeIsBlocks(Shape(h), kind, blocks);
    forall b: nat | b < blocks
      ensures Slice(got, b, blocks, n) == ChunkWords(src, h, kind, layer, LastWith(h.blockHashes, b, blocks))
      ensures Slice(sent, b, blocks, n) == ChunkWords(src, h, kind, layer, b)
    {
      LandedBlock(f, src, h, cache, kind, layer, b);
    }
    if SameHashSameWords(src, h, kind, layer) {
      EqualByBlocks(got, sent, blocks, n);
    }
    if got == sent {
      SameLastSameWords(src, h, kind, layer);
    }
  }

  lemma SameLastSameWords(src: Extracted, h: Header, kind: Kind, layer: nat)
    requires Accepted(h) && HasTensor(src, h, kind, layer)
    requires forall b: nat | b < |h.blockHashes| ::
               ChunkWords(src, h, kind, layer, LastWith(h.blockHashes, b, |h.blockHashes|)) == ChunkWords(src, h, kind, layer, b)
    ensures SameHashSameWords(src, h, kind, layer)
  {
    forall b: nat, c: nat | b < |h.blockHashes| && c < |h.blockHashes| && h.blockHashes[b] == h.blockHashes[c]
      ensures ChunkWords(src, h, kind, layer, b) == ChunkWords(src, h, kind, layer, c)
    {
      assert LastWith(h.blockHashes, b, |h.blockHashes|) == LastWith(h.blockHashes, c, |h.blockHashes|);
    }
  }

  /** Whatever the hashes, the last block arrives as it was sent, and so does the padding. */
  lemma PaddingLands(f: Foreign, src: Extracted, h: Header, cache: Cache, kind: Kind, layer: nat)
    requires Offered(f, src, h) && FramesFit(h) && layer < h.layers
    ensures Present(Landed(f, src, h, cache), h, kind, layer)
    ensures var got := Reassembled(Landed(f, src, h, cache), h, kind, layer);
            |got| == Shape(h).PagedSize(kind, Shape(h).Blocks()) && ZeroPadded(kind, got, Shape(h))
  {
    assert HasTensor(src, h, kind, layer);
    hide Landed, TensorName, Honest, Faithful, Plain, AllCarried, FramesFit, HasTensor, Reassembled, Present, Blocked, ZeroPadded;
    var g, blocks, n := Shape(h), |h.blockHashes|, Floats(h);
    var canonical := Canonical(src, h, kind, layer);
    PagedSizeIsBlocks(g, kind, blocks);
    LandedBlock(f, src, h, cache, kind, layer, blocks - 1);
    var got := Reassembled(Landed(f, src, h, cache), h, kind, layer);
    PaddingFromLastBlock(kind, canonical, g, got, blocks, n);
  }

  /** A buffer whose last block is that of a paged tensor is zero past the end of the context. */
  lemma PaddingFromLastBlock(kind: Kind, canonical: seq<Word>, g: Geometry, got: seq<Word>, blocks: nat, n: nat)
    requires g.Paged() && |canonical| >= g.CanonicalSize() && blocks == g.Blocks() > 0 && n == g.heads * g.dim * g.blockSize
    requires |got| == blocks * n == g.PagedSize(kind, blocks)
    requires Slice(got, blocks - 1, blocks, n) == Slice(Blocked(kind, canonical, g), blocks - 1, blocks, n)
    ensures ZeroPadded(kind, got, g)
  {
    var sent := Blocked(kind, canonical, g);
    forall o | 0 <= o < |got| && PastEnd(kind, g, o)
      ensures got[o] == 0
    {
      PaddingInLastBlock(kind, g, o);
      SliceFrom(got, sent, blocks, n, o);
      assert sent[o] == BlockedAt(kind, canonical, g, o);
    }
  }

  lemma SliceFrom(a: seq<Word>, b: seq<Word>, blocks: nat, n: nat, o: nat)
    requires |a| == |b| == blocks * n && blocks > 0 && (blocks - 1) * n <= o < |a|
    requires Slice(a, blocks - 1, blocks, n) == Slice(b, blocks - 1, blocks, n)
    ensures a[o] == b[o]
  {
    var start := (blocks - 1) * n;
    assert start + n == blocks * n;
    assert Slice(a, blocks - 1, blocks, n)[o - start] == a[o];
    assert Slice(b, blocks - 1, blocks, n)[o - start] == b[o];
  }

  lemma PresentIsReadable(cache: Cache, h: Header, kind: Kind, layer: nat)
    requires Accepted(h) && Present(cache, h, kind, layer)
    ensures Readable(kind, |Reassembled(cache, h, kind, layer)|, Shape(h))
  {
    hide Reassembled, Present, Readable;
    PagedSizeIsBlocks(Shape(h), kind, |h.blockHashes|);
    WholeIsReadable(kind, |Reassembled(cache, h, kind, layer)|, Shape(h).Blocks(), Shape(h));
  }

  /** Unpaging what a cache holds under the header's hashes gives back this tensor. */
  ghost predicate Restores(src: Extracted, h: Header, cache: Cache, kind: Kind, layer: nat)
    requires Accepted(h) && HasTensor(src, h, kind, layer)
  {
    && Present(cache, h, kind, layer)
    && (PresentIsReadable(cache, h, kind, layer);
        Unblocked(kind, Reassembled(cache, h, kind, layer), Shape(h))
        == src[TensorName(kind, layer)].data[..CanonicalFloats(h)])
  }

  /**
   An honest run commits exactly when its frames fit, and unpaging what the target then holds gives back a layer's key or
   value tensor exactly when blocks of that tensor with equal hashes were equal.
   */
  lemma FidelityExactly(f: Foreign, src: Extracted, h: Header, cache: Cache, kind: Kind, layer: nat)
    requires Offered(f, src, h) && layer < h.layers
    ensures HasTensor(src, h, kind, layer)
    ensures var s := Serve(f, cache, HonestBytes(f, src, h, [CommitRequest]));
            && (s.phase.Done? && s.phase.outcome.CommittedOk? <==> FramesFit(h))
            && (FramesFit(h) ==> (Restores(src, h, s.cache, kind, layer) <==> SameHashSameWords(src, h, kind, layer)))
            && (!FramesFit(h) ==> s.cache == cache)
  {
    assert HasTensor(src, h, kind, layer);
    hide StageAll, Step, StageInv, FramesFit, HonestBytes, Serve;
    hide SameHashSameWords, Blocked, Unblocked, Present, Reassembled, ZeroPadded;
    HonestRunCommits(f, src, h, cache);
    if FramesFit(h) {
      PaddingLands(f, src, h, cache, kind, layer);
      PagedFidelity(f, src, h, cache, kind, layer);
      var got := Reassembled(Landed(f, src, h, cache), h, kind, layer);
      PagedRoundTrip(kind, got, Shape(h));
      BlockedIgnoresExcess(kind, Canonical(src, h, kind, layer), Shape(h));
      LayoutRoundTrip(kind, Canonical(src, h, kind, layer), Shape(h));
    }
  }

  /**
   End-to-end fidelity: with pairwise distinct block hashes an honest run whose frames fit commits, and the target then
   holds, for every layer's key and value, exactly the source's normalised canonical tensor.
   */
  lemma EndToEndFidelity(f: Foreign, src: Extracted, h: Header, cache: Cache)
    requires Offered(f, src, h) && DistinctHashes(h.blockHashes)
    ensures var s := Serve(f, cache, HonestBytes(f, src, h, [CommitRequest]));
            && (s.phase.Done? && s.phase.outcome.CommittedOk? <==> FramesFit(h))
            && (FramesFit(h) ==> forall kind: Kind, layer: nat | layer < h.layers ::
                  HasTensor(src, h, kind, layer) && Restores(src, h, s.cache, kind, layer))
  {
    hide HonestBytes, Serve, FramesFit, Restores, SameHashSameWords;
    HonestRunCommits(f, src, h, cache);
    var s := Serve(f, cache, HonestBytes(f, src, h, [CommitRequest]));
    if FramesFit(h) {
      forall kind: Kind, layer: nat | layer < h.layers
        ensures HasTensor(src, h, kind, layer) && Restores(src, h, s.cache, kind, layer)
      {
        FidelityExactly(f, src, h, cache, kind, layer);
        DistinctIsSame(src, h, kind, layer);
      }
    }
  }

  lemma DistinctIsSame(src: Extracted, h: Header, kind: Kind, layer: nat)
    requires Accepted(h) && HasTensor(src, h, kind, layer) && DistinctHashes(h.blockHashes)
    ensures SameHashSameWords(src, h, kind, layer)
  {
  }

  // ---- Cell by cell ----

  /** The number of the o-th token of block `b`, and the position of its element in the extracted data. */
  function TokenIn(h: Header, b: nat, o: nat): nat { b * h.blockSize + o }

  function ElementOffset(h: Header, token: nat, head: nat, d: nat): nat
  {
    token * (h.kvHeads * h.headDim) + head * h.headDim + d
  }

  lemma OffsetsOfSlot(h: Header, kind: Kind, s: Slot)
    requires s.head < h.kvHeads && s.dim < h.headDim && s.token < h.blockSize
    ensures Shape(h).TokenOf(s) == TokenIn(h, s.block, s.token)
    ensures Shape(h).CanonicalPosition(Shape(h).TokenOf(s), s.head, s.dim) == ElementOffset(h, TokenIn(h, s.block, s.token), s.head, s.dim)
    ensures CellOffset(h, kind, s.head, s.dim, s.token) < Floats(h)
    ensures s.block * Floats(h) + CellOffset(h, kind, s.head, s.dim, s.token) == Shape(h).Position(kind, s)
  {
    CellInBlock(h, kind, s);
    RustOffsets(Shape(h), s, TokenIn(h, s.block, s.token));
  }

  /** Cell (head, d, o) of block `b` of a layer's keys or of its values. */
  lemma ChunkCell(src: Extracted, h: Header, kind: Kind, layer: nat, b: nat, head: nat, d: nat, o: nat)
    requires Accepted(h) && HasTensor(src, h, kind, layer) && b < |h.blockHashes|
    requires head < h.kvHeads && d < h.headDim && o < h.blockSize
    ensures var cell, token, data := CellOffset(h, kind, head, d, o), TokenIn(h, b, o), src[TensorName(kind, layer)].data;
            var e := ElementOffset(h, token, head, d);
            && cell < Floats(h)
            && (token < h.seqLen ==> e < |data| && ChunkWords(src, h, kind, layer, b)[cell] == data[e])
            && (token >= h.seqLen ==> ChunkWords(src, h, kind, layer, b)[cell] == 0)
  {
    var g, s := Shape(h), Slot(b, head, d, o);
    var canonical, n := Canonical(src, h, kind, layer), Floats(h);
    OffsetsOfSlot(h, kind, s);
    BlockedMeaning(kind, canonical, g, s);
    PagedSizeIsBlocks(g, kind, |h.blockHashes|);
    var cell := CellOffset(h, kind, head, d, o);
    hide CellOffset, ElementOffset, TokenIn, TensorName, Blocked, Floats, DivCeil;
    SliceCell(Blocked(kind, canonical, g), b, |h.blockHashes|, n, cell);
  }

  lemma SliceCell(paged: seq<Word>, b: nat, blocks: nat, n: nat, i: nat)
    requires |paged| == blocks * n && b < blocks && i < n
    ensures b * n + i < |paged| && Slice(paged, b, blocks, n)[i] == paged[b * n + i]
  {
    SliceBounds(b, blocks, n);
  }

  /** The offset of a cell inside its block, for keys [head][dim][token] and for values [head][token][dim]. */
  function CellOffset(h: Header, kind: Kind, head: nat, d: nat, o: nat): nat
  {
    match kind
    case Key => head * (h.headDim * h.blockSize) + d * h.blockSize + o
    case Value => head * (h.blockSize * h.headDim) + o * h.headDim + d
  }

  lemma CellInBlock(h: Header, kind: Kind, s: Slot)
    requires s.head < h.kvHeads && s.dim < h.headDim && s.token < h.blockSize
    ensures CellOffset(h, kind, s.head, s.dim, s.token) < Floats(h)
    ensures s.block * Floats(h) + CellOffset(h, kind, s.head, s.dim, s.token) == Shape(h).Position(kind, s)
  {
    RustOffsets(Shape(h), s, 0);
    match kind
    case Key =>
      Flat3Decodes(s.head, s.dim, s.token, h.kvHeads, h.headDim, h.blockSize);
      StridesAreFlat(s.head, s.dim, s.token, 0, h.headDim, h.blockSize, 0);
    case Value =>
      Flat3Decodes(s.head, s.token, s.dim, h.kvHeads, h.blockSize, h.headDim);
      StridesAreFlat(s.head, s.token, s.dim, 0, h.blockSize, h.headDim, 0);
      SwapFactors(h.kvHeads, h.headDim, h.blockSize);
  }

  /**
   Where every cell of the target comes from, in the extracted data's own indices. Under the hash of block `b` lies the
   last block with that hash; its key cell [head][d][o] and its value cell [head][o][d] are element [token][head][d] of what
   was extracted, token being o-th of that block, and zero past the end of the context.
   */
  lemma EveryCellLands(f: Foreign, src: Extracted, h: Header, cache: Cache, layer: nat, b: nat, last: nat,
                       head: nat, d: nat, o: nat, token: nat, e: nat, k: nat, v: nat)
    requires Offered(f, src, h) && FramesFit(h) && layer < h.layers
    requires b <= last < |h.blockHashes| && h.blockHashes[last] == h.blockHashes[b]
    requires forall c | last < c < |h.blockHashes| :: h.blockHashes[c] != h.blockHashes[b]
    requires head < h.kvHeads && d < h.headDim && o < h.blockSize
    requires token == last * h.blockSize + o && e == token * (h.kvHeads * h.headDim) + head * h.headDim + d
    requires k == head * (h.headDim * h.blockSize) + d * h.blockSize + o && v == head * (h.blockSize * h.headDim) + o * h.headDim + d
    ensures var blocks := Landed(f, src, h, cache);
            var key, value := "layer." + Decimal(layer) + ".key", "layer." + Decimal(layer) + ".value";
            && h.blockHashes[b] in blocks && key in blocks[h.blockHashes[b]] && value in blocks[h.blockHashes[b]]
            && key in src && value in src
            && var keys, values := blocks[h.blockHashes[b]][key], blocks[h.blockHashes[b]][value];
               && keys.shape == [1, h.kvHeads, h.headDim, h.blockSize] && values.shape == [1, h.kvHeads, h.blockSize, h.headDim]
               && k < |keys.data| && v < |values.data|
               && (token < h.seqLen ==>
                     && e < |src[key].data| && keys.data[k] == src[key].data[e]
                     && e < |src[value].data| && values.data[v] == src[value].data[e])
               && (token >= h.seqLen ==> keys.data[k] == 0 && values.data[v] == 0)
  {
    assert TokenIn(h, last, o) == token && ElementOffset(h, token, head, d) == e;
    assert CellOffset(h, Key, head, d, o) == k && CellOffset(h, Value, head, d, o) == v;
    hide Decimal, Offered, FramesFit, Landed, CellOffset, ElementOffset, TokenIn, Floats;
    assert TensorName(Key, layer) == "layer." + Decimal(layer) + ".key";
    assert TensorName(Value, layer) == "layer." + Decimal(layer) + ".value";
    CellLands(f, src, h, cache, Key, layer, b, last, head, d, o);
    CellLands(f, src, h, cache, Value, layer, b, last, head, d, o);
    hide TensorName;
  }

  lemma CellLands(f: Foreign, src: Extracted, h: Header, cache: Cache, kind: Kind, layer: nat, b: nat, last: nat,
                  head: nat, d: nat, o: nat)
    requires Offered(f, src, h) && FramesFit(h) && layer < h.layers
    requires b <= last < |h.blockHashes| && h.blockHashes[last] == h.blockHashes[b]
    requires forall c | last < c < |h.blockHashes| :: h.blockHashes[c] != h.blockHashes[b]
    requires head < h.kvHeads && d < h.headDim && o < h.blockSize
    ensures var blocks, name, cell := Landed(f, src, h, cache), TensorName(kind, layer), CellOffset(h, kind, head, d, o);
            var token := TokenIn(h, last, o);
            var e := ElementOffset(h, token, head, d);
            && h.blockHashes[b] in blocks && name in blocks[h.blockHashes[b]] && name in src
            && var t := blocks[h.blockHashes[b]][name];
               && t.shape == KindShape(h, kind) && cell < |t.data| == Floats(h)
               && (token < h.seqLen ==> e < |src[name].data| && t.data[cell] == src[name].data[e])
               && (token >= h.seqLen ==> t.data[cell] == 0)
  {
    assert Accepted(h);
    hide Landed, FramesFit, TensorName, CellOffset, ElementOffset, TokenIn, Floats, Honest;
    assert HasTensor(src, h, kind, layer) by {
      HighestBlockWins(f, src, h, cache, kind, layer, b);
    }
    assert LastWith(h.blockHashes, b, |h.blockHashes|) == last;
    HighestBlockWins(f, src, h, cache, kind, layer, b);
    ChunkCell(src, h, kind, layer, last, head, d, o);
  }

  // ---- The simulator's own run ----

  /** The header's hashes are those of a constant context, as the simulator computes them. */
  ghost predicate Simulated(sha: seq<U32> -> string, token: U32, h: Header)
  {
    h.blockSize > 0 && h.blockHashes == TokenBlockHashes(sha, Constant(token, h.seqLen), h.blockSize)
  }

  /** The hash tells a full block from the shorter one at the end, if there are both. */
  ghost predicate TellsApart(sha: seq<U32> -> string, token: U32, h: Header)
    requires h.blockSize > 0
  {
    FullBlocks(h) > 0 && h.seqLen % h.blockSize > 0 ==>
      sha(Constant(token, h.blockSize)) != sha(Constant(token, h.seqLen % h.blockSize))
  }

  /** The number of full blocks. */
  function FullBlocks(h: Header): nat
    requires h.blockSize > 0
  {
    h.seqLen / h.blockSize
  }

  /** Full blocks share one hash; the block after them has that of the rest of the context. */
  lemma SimulatedHash(sha: seq<U32> -> string, token: U32, h: Header, b: nat)
    requires Accepted(h) && Simulated(sha, token, h) && b < |h.blockHashes|
    ensures b <= FullBlocks(h) && (b == FullBlocks(h) ==> h.seqLen % h.blockSize > 0)
    ensures h.blockHashes[b] == sha(Constant(token, if b < FullBlocks(h) then h.blockSize else h.seqLen % h.blockSize))
  {
    BlockRun(h.seqLen, h.blockSize, b);
    ConstantBlockHash(sha, token, h.seqLen, h.blockSize, b);
  }

  lemma BlockRun(n: nat, m: nat, b: nat)
    requires m > 0 && b < DivCeil(n, m)
    ensures b * m < n && 0 <= n / m && b <= n / m
    ensures Min(m, n - b * m) == if b < n / m then m else n % m
  {
    hide DivCeil;
    BlockStartsInside(n, m, b);
    QuotientParts(n, m);
    RunLength(n / m, n % m, m, b);
  }

  lemma RunLength(q: nat, r: nat, m: nat, b: nat)
    requires r < m && b * m < q * m + r
    ensures b <= q && Min(m, q * m + r - b * m) == if b < q then m else r
  {
    if b < q {
      ProductBelow(b + 1, m, q, m);
    } else if b > q {
      ProductBelow(q + 1, m, b, m);
    }
  }

  lemma BlockStartsInside(n: nat, m: nat, b: nat)
    requires m > 0 && b < DivCeil(n, m)
    ensures b * m < n
  {
    if b * m >= n {
      DivMonotone(n + m - 1, b * m + (m - 1), m);
      ModUnique(b, m - 1, m);
    }
  }

  lemma QuotientParts(n: nat, m: nat)
    requires m > 0
    ensures 0 <= n / m && 0 <= n % m < m && n == n / m * m + n % m
  {
  }

  /** All full blocks of this tensor are the last one. */
  ghost predicate FullBlocksAlike(src: Extracted, h: Header, kind: Kind, layer: nat)
    requires Accepted(h) && HasTensor(src, h, kind, layer)
  {
    FullBlocksExist(h.seqLen, h.blockSize);
    forall b: nat | b < FullBlocks(h) ::
      ChunkWords(src, h, kind, layer, b) == ChunkWords(src, h, kind, layer, FullBlocks(h) - 1)
  }

  lemma FullBlocksExist(n: nat, m: nat)
    requires m > 0
    ensures 0 <= n / m <= DivCeil(n, m)
  {
    if n / m > 0 {
      ProductBelow(n / m, m, n / m, m);
      assert n / m * m + n % m == n;
      DivMonotone(n, n + m - 1, m);
    }
  }

  lemma SimulatedSame(sha: seq<U32> -> string, token: U32, src: Extracted, h: Header, kind: Kind, layer: nat)
    requires Accepted(h) && HasTensor(src, h, kind, layer) && Simulated(sha, token, h)
    requires TellsApart(sha, token, h)
    ensures SameHashSameWords(src, h, kind, layer) <==> FullBlocksAlike(src, h, kind, layer)
  {
    var full := FullBlocks(h);
    FullBlocksExist(h.seqLen, h.blockSize);
    forall b: nat | b < |h.blockHashes|
      ensures b <= full && (b == full ==> h.seqLen % h.blockSize > 0)
      ensures h.blockHashes[b] == sha(Constant(token, if b < full then h.blockSize else h.seqLen % h.blockSize))
    {
      SimulatedHash(sha, token, h, b);
    }
    if FullBlocksAlike(src, h, kind, layer) {
      forall b: nat, c: nat | b < |h.blockHashes| && c < |h.blockHashes| && h.blockHashes[b] == h.blockHashes[c]
        ensures ChunkWords(src, h, kind, layer, b) == ChunkWords(src, h, kind, layer, c)
      {
        assert b < full <==> c < full;
      }
    }
  }

  /**
   What the simulator's own run restores: with one constant token every full block lands as the last full one, so a tensor
   comes back exactly when its full blocks were alike.
   */
  lemma SimulatorRestoresExactly(f: Foreign, sha: seq<U32> -> string, token: U32, src: Extracted, h: Header, cache: Cache,
                                 kind: Kind, layer: nat)
    requires Offered(f, src, h) && FramesFit(h) && layer < h.layers && Simulated(sha, token, h)
    requires TellsApart(sha, token, h)
    ensures HasTensor(src, h, kind, layer)
    ensures Restores(src, h, Landed(f, src, h, cache), kind, layer) <==> FullBlocksAlike(src, h, kind, layer)
  {
    hide Restores, SameHashSameWords, FullBlocksAlike, Simulated, FramesFit, HonestBytes, Serve;
    FidelityExactly(f, src, h, cache, kind, layer);
    SimulatedSame(sha, token, src, h, kind, layer);
  }
}
