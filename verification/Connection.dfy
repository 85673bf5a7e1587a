/** The daemon's code for one connection, proved to follow the state machine of module Daemon. */
module Connection {
  import opened Common
  import opened Header
  import Layout
  import opened Messages
  import opened Daemon
  import Binding
  import Orchestrator

  /** `KVConnectorBase_V1` with its mock backend. */
  class KvConnector {
    var physicalCache: Cache

    constructor ()
      ensures physicalCache == map[]
    {
      physicalCache := map[];
    }

    method InjectBlockTensors(hash: string, tensors: BlockTensors)
      modifies this
      ensures physicalCache == old(physicalCache)[hash := tensors]
    {
      physicalCache := physicalCache[hash := tensors];
    }

    method VerifyContinuation(expected: seq<string>) returns (ok: bool)
      ensures ok <==> AllPresent(expected, physicalCache)
    {
      var missing := [];
      for i := 0 to |expected|
        invariant missing == [] <==> forall j | 0 <= j < i :: expected[j] in physicalCache
      {
        if expected[i] !in physicalCache {
          missing := missing + [expected[i]];
        }
      }
      ok := missing == [];
    }
  }

  /** Injects the staged blocks one by one, in the map's arbitrary order. */
  method InjectStaged(injector: KvConnector, staged: Cache)
    modifies injector
    ensures injector.physicalCache == old(injector.physicalCache) + staged
  {
    var pending := staged.Keys;
    while pending != {}
      invariant pending <= staged.Keys
      invariant injector.physicalCache == old(injector.physicalCache) + (staged - pending)
      decreases pending
    {
      var hash :| hash in pending;
      injector.InjectBlockTensors(hash, staged[hash]);
      assert staged - (pending - {hash}) == (staged - pending)[hash := staged[hash]];
      pending := pending - {hash};
    }
    assert staged - pending == staged;
  }

  lemma OneMore(f: Foreign, cache: Cache, inbox: seq<Message>, i: nat)
    requires i < |inbox|
    ensures Connect(f, cache, inbox[..i + 1]) == Step(f, Connect(f, cache, inbox[..i]), inbox[i])
  {
    assert inbox[..i + 1][..i] == inbox[..i];
  }

  lemma Ended(f: Foreign, cache: Cache, inbox: seq<Message>, i: nat)
    requires i <= |inbox|
    requires i == |inbox| || Connect(f, cache, inbox[..i]).phase.Done?
    ensures Connect(f, cache, inbox) == Connect(f, cache, inbox[..i])
  {
    assert inbox == inbox[..i] + inbox[i..];
    RunConcat(f, Start(cache), inbox[..i], inbox[i..]);
    if i < |inbox| {
      DoneIsFinal(f, Connect(f, cache, inbox[..i]), inbox[i..]);
    }
  }

  /** `validate_payload_chunk_metadata`: the block's hash and the chunks received with this one, or the first objection. */
  method ValidateMetadata(h: Header, m: Message, received: set<ChunkKey>) returns (r: Result<string>, now: set<ChunkKey>)
    requires m.PayloadChunk?
    ensures r.Success? <==> MetadataOk(h, m, received)
    ensures r.Success? ==> m.chunk < |h.blockHashes| && r.value == h.blockHashes[m.chunk] && now == received + {KeyOf(m)}
  {
    now := received;
    if m.chunk >= |h.blockHashes| {
      return Failure("chunk index exceeds advertised block count"), now;
    }
    var hash := h.blockHashes[m.chunk];
    if m.layer >= h.layers {
      return Failure("layer index exceeds advertised layer count"), now;
    }
    var keyName, valueName := TensorName(Layout.Key, m.layer), TensorName(Layout.Value, m.layer);
    if m.name != keyName && m.name != valueName {
      return Failure("tensor name does not match layer"), now;
    }
    var key: ChunkKey := (m.chunk, m.layer, m.name);
    now := received + {key};
    if key in received {
      return Failure("Duplicate payload chunk"), now;
    }
    r := Success(hash);
  }

  /** The payload decoded by the scheme of the header. */
  method Decode(f: Foreign, h: Header, m: Message) returns (words: Option<seq<Word>>)
    requires m.PayloadChunk?
    ensures words == DecodePayload(f, h, m.codec, m.data)
  {
    if h.transferScheme.None? {
      var floats := DecodeRaw(m.data);
      return Some(floats);
    }
    var scheme := h.transferScheme.value;
    if scheme == "fp8" {
      return Some(f.fp8(m.data));
    }
    if scheme != "qatq" || m.codec.None? || m.codec.value.transferCodec != "qatq" {
      return None;
    }
    var storage := m.codec.value.storage;
    if storage == "qatq-exact-f32le" || storage == "qatq-phase2" || storage == "raw-f32le-pass-through" {
      return f.qatq(storage, m.data, BlockFloatCount(h));
    }
    return None;
  }

  /** The body of the receiving loop up to the staged tensor: checksum, metadata, decoding, length, shape. */
  method ReadChunk(f: Foreign, h: Header, m: Message, received: set<ChunkKey>)
      returns (r: Result<(string, Layout.Tensor)>, now: set<ChunkKey>)
    ensures r.Success? <==> Tensed(f, h, received, m).Success?
    ensures r.Success? ==>
              && m.PayloadChunk? && m.chunk < |h.blockHashes| && now == received + {KeyOf(m)}
              && r.value == (h.blockHashes[m.chunk], Tensed(f, h, received, m).value)
  {
    now := received;
    if !m.PayloadChunk? {
      return Failure("Message is not a payload chunk"), now;
    }
    if f.crc32(m.data) != m.crc32 {
      return Failure("Payload chunk CRC32 checksum mismatch"), now;
    }
    var hash;
    hash, now := ValidateMetadata(h, m, received);
    if hash.Failure? {
      return Failure(hash.error), now;
    }
    var expected := h.kvHeads * h.headDim * h.blockSize % U64_LIMIT;
    var words := Decode(f, h, m);
    if words.None? || |words.value| != expected {
      return Failure("Decoded payload length mismatch"), now;
    }
    var shape := if EndsWith(m.name, ".key") then [1, h.kvHeads, h.headDim, h.blockSize]
                 else [1, h.kvHeads, h.blockSize, h.headDim];
    r := Success((hash.value, Layout.Tensor(words.value, shape)));
  }

  /** The receiving loop, from message `start` on; `next` is where it stopped. */
  method ReceiveChunks(f: Foreign, h: Header, inbox: seq<Message>, start: nat, ghost cache: Cache, acked: seq<Reply>)
      returns (done: bool, next: nat, staged: Cache, replies: seq<Reply>)
    requires start <= |inbox|
    requires Connect(f, cache, inbox[..start]) == State(StreamingPhase(h, ChunkCount(h), EMPTY), acked, cache, None)
    ensures start <= next <= |inbox|
    ensures !done ==> var s := Connect(f, cache, inbox);
                      && s.replies == replies && s.cache == cache && s.recorded == None
                      && (s.phase.Streaming? || s.phase == Done(Violated))
    ensures done ==> exists received ::
                       Connect(f, cache, inbox[..next])
                       == State(AwaitDecision(h, Stage(staged, received)), replies, cache, None)
  {
    hide Tensed, Connect;
    staged, replies, next := map[], acked, start;
    var received: set<ChunkKey> := {};
    var count := ChunkCount(h);
    for n := 0 to count
      invariant start <= next <= |inbox|
      invariant Connect(f, cache, inbox[..next])
                == State(StreamingPhase(h, count - n, Stage(staged, received)), replies, cache, None)
    {
      if next == |inbox| {
        Ended(f, cache, inbox, next);
        return false, next, staged, replies;
      }
      var m := inbox[next];
      OneMore(f, cache, inbox, next);
      var read, now := ReadChunk(f, h, m, received);
      if read.Failure? {
        Ended(f, cache, inbox, next + 1);
        return false, next, staged, replies;
      }
      var (hash, tensor) := read.value;
      received := now;
      staged := staged[hash := BlockOf(staged, hash)[m.name := tensor]];
      replies := replies + [ChunkAck(m.chunk)];
      next := next + 1;
    }
    done := true;
  }

  /** What the orchestrator's counters become. */
  function Reported(book: Orchestrator.Book, recorded: Option<bool>): Orchestrator.Book
  {
    if recorded.Some? then Orchestrator.Recorded(book, recorded.value) else book
  }

  /** The last message: injection first, then the commit check. */
  method FinishConnection(f: Foreign, injector: KvConnector, orchestrator: Orchestrator.MigrationOrchestrator,
                          h: Header, staged: Cache, m: Message, acked: seq<Reply>, ghost s: State)
      returns (ok: bool, replies: seq<Reply>)
    requires exists received :: (s.phase == AwaitDecision(h, Stage(staged, received)) && !m.GraphBinding?)
                                || s.phase == AwaitCommit(h, Stage(staged, received))
    requires s.replies == acked && s.cache == injector.physicalCache && s.recorded == None
    modifies injector, orchestrator
    ensures var s' := Step(f, s, m);
            && s'.phase.Done? && !s'.phase.outcome.Refused? && injector.physicalCache == s'.cache && replies == s'.replies
            && (ok <==> s'.phase.outcome.CommittedOk?)
            && orchestrator.Counters() == Reported(old(orchestrator.Counters()), s'.recorded)
  {
    replies := acked;
    InjectStaged(injector, staged);
    if !m.CommitRequest? {
      return false, replies;
    }
    ok := injector.VerifyContinuation(h.blockHashes);
    if ok {
      replies := replies + [CommitResponse];
      orchestrator.RecordSuccess();
    }
  }

  /** Capability and header exchange. */
  method OpenConnection(f: Foreign, inbox: seq<Message>, ghost cache: Cache)
      returns (header: Option<Header>, refused: bool, replies: seq<Reply>)
    ensures header.Some? ==>
              && |inbox| >= 2
              && Connect(f, cache, inbox[..2])
                 == State(StreamingPhase(header.value, ChunkCount(header.value), EMPTY), replies, cache, None)
    ensures header.None? ==>
              var s := Connect(f, cache, inbox);
              && s.cache == cache && s.replies == replies && s.recorded == None
              && (s.phase.AwaitCapability? || s.phase.AwaitHeader? || s.phase == Done(Refused) || s.phase == Done(Violated))
              && (refused <==> s.phase == Done(Refused))
  {
    assert inbox[..0] == [];
    header, refused, replies := None, false, [];
    if |inbox| == 0 {
      return;
    }
    OneMore(f, cache, inbox, 0);
    if !inbox[0].CapabilityRequest? {
      Ended(f, cache, inbox, 1);
      return;
    }
    if inbox[0].seqLen > MAX_CONTEXT {
      Ended(f, cache, inbox, 1);
      return None, true, [CapabilityResponse(false)];
    }
    replies := [CapabilityResponse(true)];
    if |inbox| == 1 {
      Ended(f, cache, inbox, 1);
      return;
    }
    OneMore(f, cache, inbox, 1);
    var envelope := inbox[1];
    if envelope.HeaderEnvelope? && envelope.content.Some? {
      var valid := ValidateHeader(envelope.content.value);
      if valid {
        return envelope.content, false, replies + [HeaderAck];
      }
    }
    Ended(f, cache, inbox, 2);
  }

  /** The optional graph binding; `next` is the message that concludes the connection, if the peer sent one. */
  method CheckBinding(f: Foreign, inbox: seq<Message>, start: nat, h: Header, ghost stage: Stage, acked: seq<Reply>,
                      ghost cache: Cache) returns (proceed: bool, rejected: bool, next: nat, replies: seq<Reply>)
    requires start <= |inbox|
    requires Connect(f, cache, inbox[..start]) == State(AwaitDecision(h, stage), acked, cache, None)
    ensures proceed ==>
              && next < |inbox|
              && var s := Connect(f, cache, inbox[..next]);
                 && s.replies == replies && s.cache == cache && s.recorded == None
                 && ((s.phase == AwaitDecision(h, stage) && !inbox[next].GraphBinding?) || s.phase == AwaitCommit(h, stage))
    ensures !proceed ==>
              var s := Connect(f, cache, inbox);
              && s.cache == cache && s.replies == replies
              && s.recorded == (if rejected then Some(false) else None)
              && (s.phase.AwaitDecision? || s.phase.AwaitCommit? || s.phase == Done(BindingRejected(h)))
  {
    next, replies, rejected := start, acked, false;
    if next < |inbox| && inbox[next].GraphBinding? {
      OneMore(f, cache, inbox, next);
      next := next + 1;
      var valid := Binding.ValidateBinding(inbox[start].binding, h);
      if !valid {
        Ended(f, cache, inbox, next);
        return false, true, next, replies + [GraphBindingAck(false)];
      }
      replies := replies + [GraphBindingAck(true)];
    }
    proceed := next < |inbox|;
    if !proceed {
      Ended(f, cache, inbox, next);
    }
  }

  /**
   `handle_migration_connection`. The inbox holds the messages the peer sends; running out of them is the error
   of a closed connection. Afterwards the injector, the answers and the orchestrator are those of the state machine.
   */
  method HandleConnection(f: Foreign, inbox: seq<Message>, injector: KvConnector,
                          orchestrator: Orchestrator.MigrationOrchestrator) returns (ok: bool, replies: seq<Reply>)
    modifies injector, orchestrator
    ensures var s := Connect(f, old(injector.physicalCache), inbox);
            && injector.physicalCache == s.cache
            && replies == s.replies
            && (ok <==> s.phase.Done? && (s.phase.outcome.Refused? || s.phase.outcome.CommittedOk?))
            && orchestrator.Counters() == Reported(old(orchestrator.Counters()), s.recorded)
            && (s.recorded == None ==> orchestrator.Counters() == old(orchestrator.Counters()))
            && (s.recorded == Some(true) ==> orchestrator.failures == 0)
            && (s.recorded == Some(false) ==> orchestrator.failures == (old(orchestrator.failures) + 1) % 0x1_0000_0000)
  {
    hide Step, Connect, Accepted, ChunkCount, StageInv;
    ghost var cache := injector.physicalCache;
    var header;
    header, ok, replies := OpenConnection(f, inbox, cache);
    if header.None? {
      return;
    }
    var done, next, staged;
    done, next, staged, replies := ReceiveChunks(f, header.value, inbox, 2, cache, replies);
    if !done {
      return false, replies;
    }
    ghost var received :| Connect(f, cache, inbox[..next])
      == State(AwaitDecision(header.value, Stage(staged, received)), replies, cache, None);
    var proceed, rejected;
    proceed, rejected, next, replies :=
      CheckBinding(f, inbox, next, header.value, Stage(staged, received), replies, cache);
    if !proceed {
      if rejected {
        orchestrator.RecordFailure();
      }
      return false, replies;
    }
    OneMore(f, cache, inbox, next);
    ok, replies := FinishConnection(f, injector, orchestrator, header.value, staged, inbox[next], replies,
      Connect(f, cache, inbox[..next]));
    Ended(f, cache, inbox, next + 1);
  }
}
