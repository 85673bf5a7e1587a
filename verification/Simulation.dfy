/** The streaming loop of `run_sim_migrate`, and a whole migration against the daemon's code. */
module Simulation {
  import opened Common
  import opened Header
  import opened Layout
  import opened Messages
  import opened ChunkWire
  import opened Daemon
  import opened Link
  import opened Migration
  import opened Connection
  import Frames
  import Orchestrator

  /** Pages one tensor, as the sender does before streaming it. */
  method PageTensor(src: Extracted, h: Header, kind: Kind, layer: nat) returns (paged: seq<Word>)
    requires Accepted(h) && HasTensor(src, h, kind, layer)
    ensures paged == Blocked(kind, src[TensorName(kind, layer)].data, Shape(h))
  {
    NormalizeExactly(src[TensorName(kind, layer)]);
    var canonical := Normalize(src[TensorName(kind, layer)]).value;
    var r: Result<Tensor>;
    if kind == Key {
      r := CanonicalToVllmKey(canonical, h.blockSize);
    } else {
      r := CanonicalToVllmValue(canonical, h.blockSize);
    }
    paged := r.value.data;
  }

  /** Cuts block `b` out of a paged tensor and encodes it. */
  method MakeChunk(f: Foreign, paged: seq<Word>, h: Header, kind: Kind, layer: nat, b: nat) returns (m: Message)
    requires |paged| == |h.blockHashes| * Floats(h) && b < |h.blockHashes|
    ensures m == Chunk(f, kind, layer, b, Slice(paged, b, |h.blockHashes|, Floats(h)))
  {
    SliceBounds(b, |h.blockHashes|, Floats(h));
    var size := h.kvHeads * h.headDim * h.blockSize;
    assert size == Floats(h);
    hide Floats, RawBytes, TensorName;
    var start := b * size;
    var bytes := EncodeRaw(paged[start..start + size]);
    m := PayloadChunk(b % U32_LIMIT, layer % U32_LIMIT, TensorName(kind, layer), None, bytes, f.crc32(bytes));
  }

  method StreamLayer(f: Foreign, src: Extracted, h: Header, layer: nat) returns (sent: seq<Message>)
    requires Accepted(h) && HasTensor(src, h, Key, layer) && HasTensor(src, h, Value, layer)
    ensures sent == LayerChunks(f, src, h, layer, |h.blockHashes|)
  {
    var key := PageTensor(src, h, Key, layer);
    var value := PageTensor(src, h, Value, layer);
    PagedSizeIsBlocks(Shape(h), Key, |h.blockHashes|);
    PagedSizeIsBlocks(Shape(h), Value, |h.blockHashes|);
    sent := [];
    for b := 0 to DivCeil(h.seqLen, h.blockSize)
      invariant sent == LayerChunks(f, src, h, layer, b)
    {
      var k := MakeChunk(f, key, h, Key, layer, b);
      var v := MakeChunk(f, value, h, Value, layer, b);
      sent := sent + [k, v];
    }
  }

  method StreamLayers(f: Foreign, src: Extracted, h: Header) returns (sent: seq<Message>)
    requires Honest(src, h)
    ensures sent == HonestChunks(f, src, h, h.layers)
  {
    sent := [];
    for layer := 0 to h.layers
      invariant sent == HonestChunks(f, src, h, layer)
    {
      assert HasTensor(src, h, Key, layer) && HasTensor(src, h, Value, layer);
      var chunks := StreamLayer(f, src, h, layer);
      sent := sent + chunks;
    }
  }

  /** Everything the sender of KV only puts on the wire. */
  method SendAll(f: Foreign, src: Extracted, h: Header) returns (bytes: seq<Byte>)
    requires Honest(src, h)
    ensures bytes == HonestBytes(f, src, h, [CommitRequest])
  {
    hide HonestChunks, Opening;
    var chunks := StreamLayers(f, src, h);
    bytes := SendMessages(f.text, Opening(h.seqLen, h) + chunks + [CommitRequest]);
  }

  method SendMessages(t: Text, messages: seq<Message>) returns (bytes: seq<Byte>)
    ensures bytes == Wired(t, messages)
  {
    hide Wired;
    WiredHead(t, []);
    bytes := [];
    assert messages[..0] == [];
    for i := 0 to |messages|
      invariant bytes == Wired(t, messages[..i])
    {
      var frame := SendMessage(t, messages[i]);
      bytes := bytes + frame;
      assert messages[..i + 1] == messages[..i] + [messages[i]];
      WiredConcat(t, messages[..i], [messages[i]]);
      WiredHead(t, [messages[i]]);
      assert [messages[i]][1..] == [];
    }
    assert messages[..|messages|] == messages;
  }

  /** A migration of KV only: the sender's bytes received and handled by the daemon's code. */
  method Migrate(f: Foreign, src: Extracted, h: Header, injector: KvConnector,
                 orchestrator: Orchestrator.MigrationOrchestrator) returns (ok: bool)
    requires Offered(f, src, h)
    modifies injector, orchestrator
    ensures ok <==> FramesFit(h)
    ensures injector.physicalCache == Landed(f, src, h, old(injector.physicalCache))
    ensures if ok then orchestrator.Counters() == Orchestrator.AfterSuccess(old(orchestrator.Counters()))
            else orchestrator.Counters() == old(orchestrator.Counters())
                 && injector.physicalCache == old(injector.physicalCache)
    ensures forall hash <- old(injector.physicalCache) | hash !in h.blockHashes ::
              hash in injector.physicalCache && injector.physicalCache[hash] == old(injector.physicalCache)[hash]
  {
    hide Step, StageAll, StageInv, HonestChunks, Tensed, FramesFit, Faithful, Plain, Carries, Delivered, HonestBytes, Injected;
    var bytes := SendAll(f, src, h);
    var reader := new Frames.Reader(bytes);
    var inbox := ReceiveAll(f.text, reader);
    HonestRunCommits(f, src, h, injector.physicalCache);
    if !FramesFit(h) {
      RunRefused(f, src, h, injector.physicalCache, [CommitRequest]);
    }
    CommitSafety(f, injector.physicalCache, inbox);
    var replies;
    ok, replies := HandleConnection(f, inbox, injector, orchestrator);
  }
}
