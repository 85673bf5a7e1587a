/**
 The target daemon (crates/cli/src/main.rs, `handle_migration_connection`) as a state machine over the
 messages of one connection, with the mock injector (crates/injector/src/lib.rs) as its cache.
 */
module Daemon {
  import opened Common
  import opened Header
  import opened Layout
  import opened Messages
  import Binding

  const MAX_CONTEXT: nat := 131072

  type BlockTensors = map<string, Tensor>

  /** The mock injector's physical cache: block hash to named tensors. */
  type Cache = map<string, BlockTensors>

  /** Block index, layer index and tensor name: what the daemon records to reject duplicates. */
  type ChunkKey = (nat, nat, string)

  /** Tensors staged by block hash, and the chunks received so far. */
  datatype Stage = Stage(staged: Cache, received: set<ChunkKey>)

  const EMPTY := Stage(map[], {})

  /** The number of chunks a header announces, before any wrap-around. */
  function ChunksAnnounced(h: Header): nat
  {
    h.layers * 2 * |h.blockHashes|
  }

  /** The bound of the receiving loop: a 64-bit product, which wraps in a release build. */
  function ChunkCount(h: Header): nat
  {
    ChunksAnnounced(h) % U64_LIMIT
  }

  /** `block_float_count`, the same for keys and values. */
  function BlockFloatCount(h: Header): nat
  {
    h.kvHeads * h.headDim * h.blockSize % U64_LIMIT
  }

  function BlockShape(h: Header, name: string): seq<nat>
  {
    if EndsWith(name, ".key") then [1, h.kvHeads, h.headDim, h.blockSize]
    else [1, h.kvHeads, h.blockSize, h.headDim]
  }

  function KeyOf(m: Message): ChunkKey
    requires m.PayloadChunk?
  {
    (m.chunk, m.layer, m.name)
  }

  /** `validate_payload_chunk_metadata`. */
  predicate MetadataOk(h: Header, m: Message, received: set<ChunkKey>)
    requires m.PayloadChunk?
  {
    && m.chunk < |h.blockHashes|
    && m.layer < h.layers
    && (m.name == TensorName(Key, m.layer) || m.name == TensorName(Value, m.layer))
    && KeyOf(m) !in received
  }

  /** The payload decoded by the scheme the header announces. */
  function DecodePayload(f: Foreign, h: Header, codec: Option<Codec>, data: seq<Byte>): Option<seq<Word>>
  {
    if h.transferScheme == None then Some(RawWords(data))
    else if h.transferScheme == Some("fp8") then Some(f.fp8(data))
    else if h.transferScheme == Some("qatq") then
      if codec.Some? && codec.value.transferCodec == "qatq"
         && codec.value.storage in ["qatq-exact-f32le", "qatq-phase2", "raw-f32le-pass-through"]
      then f.qatq(codec.value.storage, data, BlockFloatCount(h))
      else None
    else None
  }

  function BlockOf(cache: Cache, hash: string): BlockTensors
  {
    if hash in cache then cache[hash] else map[]
  }

  /** The tensor a message carries, if it is a chunk that passes the checksum, the metadata checks and decoding. */
  function Tensed(f: Foreign, h: Header, received: set<ChunkKey>, m: Message): Result<Tensor>
  {
    if !m.PayloadChunk? then Failure("Message is not a payload chunk")
    else if f.crc32(m.data) != m.crc32 then Failure("CRC32 checksum mismatch")
    else if !MetadataOk(h, m, received) then Failure("Bad chunk metadata")
    else
      var words := DecodePayload(f, h, m.codec, m.data);
      if words.None? then Failure("Undecodable payload")
      else if |words.value| != BlockFloatCount(h) then Failure("Decoded payload length mismatch")
      else Success(Tensor(words.value, BlockShape(h, m.name)))
  }

  /** The stage with one more chunk. */
  function Put(st: Stage, hash: string, key: ChunkKey, tensor: Tensor): Stage
  {
    Stage(st.staged[hash := BlockOf(st.staged, hash)[key.2 := tensor]], st.received + {key})
  }

  /** One turn of the receiving loop. */
  function Receive(f: Foreign, h: Header, st: Stage, m: Message): Result<Stage>
  {
    var tensor := Tensed(f, h, st.received, m);
    if tensor.Failure? then Failure(tensor.error)
    else Success(Put(st, h.blockHashes[m.chunk], KeyOf(m), tensor.value))
  }

  /**
   One turn of the receiving loop, in the message's own fields. It succeeds exactly on a chunk whose checksum matches,
   whose block and layer the header has, whose name is that layer's key or value, which was not received before, and whose
   payload decodes, by the scheme of the header, to one block of floats.
   */
  lemma ReceiveExactly(f: Foreign, h: Header, st: Stage, m: Message)
    ensures Receive(f, h, st, m).Success? <==>
              && m.PayloadChunk? && f.crc32(m.data) == m.crc32
              && m.chunk < |h.blockHashes| && m.layer < h.layers
              && (m.name == "layer." + Decimal(m.layer) + ".key" || m.name == "layer." + Decimal(m.layer) + ".value")
              && (m.chunk as nat, m.layer as nat, m.name) !in st.received
              && var count := h.kvHeads * h.headDim * h.blockSize % 0x1_0000_0000_0000_0000;
                 || (h.transferScheme == None && |m.data| / 4 == count)
                 || (h.transferScheme == Some("fp8") && |f.fp8(m.data)| == count)
                 || (h.transferScheme == Some("qatq") && m.codec.Some? && m.codec.value.transferCodec == "qatq"
                     && m.codec.value.storage in {"qatq-exact-f32le", "qatq-phase2", "raw-f32le-pass-through"}
                     && f.qatq(m.codec.value.storage, m.data, count).Some?
                     && |f.qatq(m.codec.value.storage, m.data, count).value| == count)
    ensures Receive(f, h, st, m).Success? ==>
              var st' := Receive(f, h, st, m).value;
              var hash := h.blockHashes[m.chunk];
              && st'.received == st.received + {(m.chunk as nat, m.layer as nat, m.name)}
              && st'.staged.Keys == st.staged.Keys + {hash}
              && (forall other <- st.staged | other != hash :: st'.staged[other] == st.staged[other])
              && m.name in st'.staged[hash]
              && st'.staged[hash].Keys == (if hash in st.staged then st.staged[hash].Keys else {}) + {m.name}
              && (forall name | hash in st.staged && name in st.staged[hash] && name != m.name ::
                    st'.staged[hash][name] == st.staged[hash][name])
              && Decodes(f, h, m, st'.staged[hash][m.name].data)
              && st'.staged[hash][m.name].shape
                 == if m.name == "layer." + Decimal(m.layer) + ".key" then [1, h.kvHeads, h.headDim, h.blockSize]
                    else [1, h.kvHeads, h.blockSize, h.headDim]
  {
    TensedExactly(f, h, st.received, m);
    hide Tensed, Decimal, Put, Decodes;
    if Receive(f, h, st, m).Success? {
      PutExactly(st, h.blockHashes[m.chunk], KeyOf(m), Tensed(f, h, st.received, m).value);
    }
  }

  lemma TensedExactly(f: Foreign, h: Header, received: set<ChunkKey>, m: Message)
    ensures Tensed(f, h, received, m).Success? <==>
              && m.PayloadChunk? && f.crc32(m.data) == m.crc32
              && m.chunk < |h.blockHashes| && m.layer < h.layers
              && (m.name == "layer." + Decimal(m.layer) + ".key" || m.name == "layer." + Decimal(m.layer) + ".value")
              && (m.chunk as nat, m.layer as nat, m.name) !in received
              && var count := h.kvHeads * h.headDim * h.blockSize % 0x1_0000_0000_0000_0000;
                 || (h.transferScheme == None && |m.data| / 4 == count)
                 || (h.transferScheme == Some("fp8") && |f.fp8(m.data)| == count)
                 || (h.transferScheme == Some("qatq") && m.codec.Some? && m.codec.value.transferCodec == "qatq"
                     && m.codec.value.storage in {"qatq-exact-f32le", "qatq-phase2", "raw-f32le-pass-through"}
                     && f.qatq(m.codec.value.storage, m.data, count).Some?
                     && |f.qatq(m.codec.value.storage, m.data, count).value| == count)
    ensures Tensed(f, h, received, m).Success? ==>
              && Decodes(f, h, m, Tensed(f, h, received, m).value.data)
              && Tensed(f, h, received, m).value.shape
                 == if m.name == "layer." + Decimal(m.layer) + ".key" then [1, h.kvHeads, h.headDim, h.blockSize]
                    else [1, h.kvHeads, h.blockSize, h.headDim]
  {
    if m.PayloadChunk? {
      NamesAreDistinct(Key, m.layer, Value, m.layer);
      NamesAreDistinct(Value, m.layer, Key, m.layer);
      assert TensorName(Key, m.layer) == "layer." + Decimal(m.layer) + ".key";
      assert TensorName(Value, m.layer) == "layer." + Decimal(m.layer) + ".value";
    }
    assert "fp8" != "qatq" by {
      assert |"fp8"| == 3 && |"qatq"| == 4;
    }
    hide Decimal, RawWords, TensorName, EndsWith;
  }

  lemma PutExactly(st: Stage, hash: string, key: ChunkKey, tensor: Tensor)
    ensures var st' := Put(st, hash, key, tensor);
            && st'.received == st.received + {key}
            && st'.staged.Keys == st.staged.Keys + {hash}
            && (forall other <- st.staged | other != hash :: st'.staged[other] == st.staged[other])
            && key.2 in st'.staged[hash] && st'.staged[hash][key.2] == tensor
            && st'.staged[hash].Keys == (if hash in st.staged then st.staged[hash].Keys else {}) + {key.2}
            && (forall name | hash in st.staged && name in st.staged[hash] && name != key.2 ::
                  st'.staged[hash][name] == st.staged[hash][name])
  {
  }

  /** These are the floats of a chunk's payload. */
  ghost predicate Decodes(f: Foreign, h: Header, m: Message, words: seq<Word>)
    requires m.PayloadChunk?
  {
    match h.transferScheme
    case None => words == RawWords(m.data)
    case Some(scheme) =>
      || (scheme == "fp8" && words == f.fp8(m.data))
      || (scheme == "qatq" && m.codec.Some? && |words| < U64_LIMIT
          && f.qatq(m.codec.value.storage, m.data, |words|) == Some(words))
  }

  /** The receiving loop over a list of messages. */
  function StageAll(f: Foreign, h: Header, messages: seq<Message>): Result<Stage>
  {
    if messages == [] then Success(EMPTY)
    else
      var before := StageAll(f, h, messages[..|messages| - 1]);
      if before.Failure? then before else Receive(f, h, before.value, messages[|messages| - 1])
  }

  // ---- Coverage by counting ----

  predicate Announced(h: Header, k: ChunkKey)
  {
    k.0 < |h.blockHashes| && k.1 < h.layers && Named(k)
  }

  function BlockKeys(block: nat, layers: nat): set<ChunkKey>
  {
    if layers == 0 then {}
    else
      BlockKeys(block, layers - 1)
      + {(block, layers - 1, TensorName(Key, layers - 1)), (block, layers - 1, TensorName(Value, layers - 1))}
  }

  /** The key carries its layer's key or value name. */
  predicate Named(k: ChunkKey) { k.2 == TensorName(Key, k.1) || k.2 == TensorName(Value, k.1) }

  lemma NamedIsOneOfTwo(k: ChunkKey, layer: nat)
    requires k.1 == layer
    ensures Named(k) <==> k == (k.0, layer, TensorName(Key, layer)) || k == (k.0, layer, TensorName(Value, layer))
  {
  }

  lemma {:induction false} BlockKeysMembers(block: nat, layers: nat, k: ChunkKey)
    ensures k in BlockKeys(block, layers) <==> k.0 == block && k.1 < layers && Named(k)
  {
    hide TensorName, Named;
    if layers == 0 {
    } else {
      BlockKeysMembers(block, layers - 1, k);
      if k.1 == layers - 1 {
        NamedIsOneOfTwo(k, layers - 1);
      }
    }
  }

  lemma {:induction false} BlockKeysSize(block: nat, layers: nat)
    ensures |BlockKeys(block, layers)| == 2 * layers
  {
    hide TensorName, Named;
    if layers == 0 {
    } else {
      BlockKeysSize(block, layers - 1);
      OneLayerMore(block, layers, BlockKeys(block, layers - 1));
    }
  }

  lemma OneLayerMore(block: nat, layers: nat, keys: set<ChunkKey>)
    requires layers > 0 && keys == BlockKeys(block, layers - 1)
    ensures |BlockKeys(block, layers)| == |keys| + 2
  {
    var a: ChunkKey := (block, layers - 1, TensorName(Key, layers - 1));
    var b: ChunkKey := (block, layers - 1, TensorName(Value, layers - 1));
    hide TensorName, Named;
    BlockKeysMembers(block, layers - 1, a);
    BlockKeysMembers(block, layers - 1, b);
    NamesAreDistinct(Key, layers - 1, Value, layers - 1);
    TwoMore(keys, a, b);
  }

  lemma TwoMore<T>(s: set<T>, a: T, b: T)
    requires a !in s && b !in s && a != b
    ensures |s + {a, b}| == |s| + 2
  {
    assert s + {a, b} == s + {a} + {b};
  }

  /** The keys of the first `blocks` blocks. */
  function FirstKeys(blocks: nat, layers: nat): set<ChunkKey>
  {
    if blocks == 0 then {} else FirstKeys(blocks - 1, layers) + BlockKeys(blocks - 1, layers)
  }

  lemma {:induction false} FirstKeysMembers(blocks: nat, layers: nat, k: ChunkKey)
    ensures k in FirstKeys(blocks, layers) <==> k.0 < blocks && k.1 < layers && Named(k)
  {
    hide Named, BlockKeys;
    if blocks == 0 {
    } else {
      FirstKeysMembers(blocks - 1, layers, k);
      BlockKeysMembers(blocks - 1, layers, k);
    }
  }

  lemma {:induction false} FirstKeysSize(blocks: nat, layers: nat)
    ensures |FirstKeys(blocks, layers)| == layers * 2 * blocks
  {
    hide Named, BlockKeys;
    if blocks == 0 {
    } else {
      FirstKeysSize(blocks - 1, layers);
      BlockKeysSize(blocks - 1, layers);
      var first, last := FirstKeys(blocks - 1, layers), BlockKeys(blocks - 1, layers);
      forall k: ChunkKey | k in last
        ensures k !in first
      {
        FirstKeysMembers(blocks - 1, layers, k);
        BlockKeysMembers(blocks - 1, layers, k);
      }
      DisjointSize(first, last);
      OneBlockMore(layers, blocks);
    }
  }

  lemma DisjointSize<T>(a: set<T>, b: set<T>)
    requires forall x | x in b :: x !in a
    ensures |a + b| == |a| + |b|
  {
    assert a !! b;
  }

  lemma OneBlockMore(layers: nat, blocks: nat)
    requires blocks > 0
    ensures layers * 2 * blocks == layers * 2 * (blocks - 1) + 2 * layers
  {
  }

  /** A header announces as many different chunks as it has layers times two times blocks. */
  lemma AllKeys(h: Header) returns (keys: set<ChunkKey>)
    ensures |keys| == ChunksAnnounced(h)
    ensures forall k: ChunkKey :: k in keys <==> Announced(h, k)
  {
    hide Named;
    keys := FirstKeys(|h.blockHashes|, h.layers);
    FirstKeysSize(|h.blockHashes|, h.layers);
    forall k: ChunkKey
      ensures k in keys <==> Announced(h, k)
    {
      FirstKeysMembers(|h.blockHashes|, h.layers, k);
    }
  }

  ghost predicate Covered(h: Header, st: Stage)
  {
    forall k: ChunkKey :: Announced(h, k) ==> k in st.received
  }

  /** A staged tensor has one block's floats in the block shape of its name. */
  predicate BlockTensor(h: Header, name: string, t: Tensor)
  {
    |t.data| == BlockFloatCount(h) && t.shape == BlockShape(h, name)
  }

  /** What the receiving loop keeps: only announced chunks, each staged under its block's hash, and no other block. */
  ghost predicate StageInv(h: Header, st: Stage)
  {
    && (forall k <- st.received :: Announced(h, k))
    && (forall k <- st.received :: StagedFor(h, st.staged, k))
    && (forall hash <- st.staged :: FromChunk(h, st.received, hash))
    && (forall hash <- st.staged, name <- st.staged[hash] :: BlockTensor(h, name, st.staged[hash][name]))
  }

  /** Some received chunk belongs to a block with this hash. */
  ghost predicate FromChunk(h: Header, received: set<ChunkKey>, hash: string)
  {
    exists k <- received :: k.0 < |h.blockHashes| && h.blockHashes[k.0] == hash
  }

  predicate StagedFor(h: Header, staged: Cache, k: ChunkKey)
  {
    && k.0 < |h.blockHashes|
    && h.blockHashes[k.0] in staged
    && k.2 in staged[h.blockHashes[k.0]]
  }

  lemma PutKeepsInv(h: Header, st: Stage, hash: string, key: ChunkKey, tensor: Tensor)
    requires StageInv(h, st)
    requires Announced(h, key) && hash == h.blockHashes[key.0] && key !in st.received && BlockTensor(h, key.2, tensor)
    ensures StageInv(h, Put(st, hash, key, tensor))
    ensures |Put(st, hash, key, tensor).received| == |st.received| + 1
  {
    var st' := Put(st, hash, key, tensor);
    forall k <- st'.received
      ensures Announced(h, k) && StagedFor(h, st'.staged, k)
    {
      if k != key {
        assert k in st.received;
      }
    }
    forall other <- st'.staged
      ensures FromChunk(h, st'.received, other)
    {
      if other == hash {
        assert key in st'.received;
      } else {
        var k :| k in st.received && k.0 < |h.blockHashes| && h.blockHashes[k.0] == other;
        assert k in st'.received;
      }
    }
    forall other <- st'.staged, name <- st'.staged[other]
      ensures BlockTensor(h, name, st'.staged[other][name])
    {
      PutTensors(h, st, hash, key, tensor, other, name);
    }
  }

  lemma PutTensors(h: Header, st: Stage, hash: string, key: ChunkKey, tensor: Tensor, other: string, name: string)
    requires StageInv(h, st) && BlockTensor(h, key.2, tensor)
    requires other in Put(st, hash, key, tensor).staged && name in Put(st, hash, key, tensor).staged[other]
    ensures BlockTensor(h, name, Put(st, hash, key, tensor).staged[other][name])
  {
  }

  lemma ReceiveKeepsInv(f: Foreign, h: Header, st: Stage, m: Message)
    requires StageInv(h, st) && Receive(f, h, st, m).Success?
    ensures var st' := Receive(f, h, st, m).value;
            StageInv(h, st') && |st'.received| == |st.received| + 1
  {
    PutKeepsInv(h, st, h.blockHashes[m.chunk], KeyOf(m), Tensed(f, h, st.received, m).value);
  }

  /** Pigeonhole: a subset of equal size is the whole set. */
  lemma {:induction false} SubsetOfEqualSize<T>(a: set<T>, b: set<T>)
    requires a <= b
    ensures |a| <= |b|
    ensures |a| == |b| ==> a == b
  {
    if a == {} {
    } else {
      var x :| x in a;
      SubsetOfEqualSize(a - {x}, b - {x});
    }
  }

  /** Sequences without repetition, by size. */
  lemma {:induction false} NoRepeatsBySize<T>(s: seq<T>)
    ensures |set x | x in s| <= |s|
    ensures |set x | x in s| == |s| ==> forall i, j | 0 <= i < j < |s| :: s[i] != s[j]
  {
    if s == [] {
    } else {
      var front, last := s[..|s| - 1], s[|s| - 1];
      NoRepeatsBySize(front);
      assert s == front + [last];
      assert (set x | x in s) == (set x | x in front) + {last};
    }
  }

  predicate AllChunks(messages: seq<Message>)
  {
    forall i | 0 <= i < |messages| :: messages[i].PayloadChunk?
  }

  function KeysOf(messages: seq<Message>): seq<ChunkKey>
    requires AllChunks(messages)
  {
    seq(|messages|, i requires 0 <= i < |messages| => KeyOf(messages[i]))
  }

  lemma {:induction false} AcceptedInv(f: Foreign, h: Header, messages: seq<Message>)
    requires StageAll(f, h, messages).Success?
    ensures StageInv(h, StageAll(f, h, messages).value)
    ensures |StageAll(f, h, messages).value.received| == |messages|
  {
    if messages == [] {
    } else {
      AcceptedInv(f, h, messages[..|messages| - 1]);
      ReceiveKeepsInv(f, h, StageAll(f, h, messages[..|messages| - 1]).value, messages[|messages| - 1]);
    }
  }

  /** The keys recorded are those of the accepted messages. */
  lemma {:induction false} AcceptedKeys(f: Foreign, h: Header, messages: seq<Message>)
    requires StageAll(f, h, messages).Success?
    ensures AllChunks(messages)
    ensures StageAll(f, h, messages).value.received == set k | k in KeysOf(messages)
  {
    hide Receive, KeyOf;
    if messages == [] {
    } else {
      var before, last := messages[..|messages| - 1], messages[|messages| - 1];
      AcceptedKeys(f, h, before);
      ReceiveAddsKey(f, h, StageAll(f, h, before).value, last);
      KeysOfAppend(before, last);
      assert before + [last] == messages;
    }
  }

  lemma ReceiveAddsKey(f: Foreign, h: Header, st: Stage, m: Message)
    requires Receive(f, h, st, m).Success?
    ensures m.PayloadChunk? && Receive(f, h, st, m).value.received == st.received + {KeyOf(m)}
  {
  }

  lemma KeysOfAppend(before: seq<Message>, last: Message)
    requires AllChunks(before) && last.PayloadChunk?
    ensures AllChunks(before + [last])
    ensures (set k | k in KeysOf(before + [last])) == (set k | k in KeysOf(before)) + {KeyOf(last)}
  {
    assert KeysOf(before + [last]) == KeysOf(before) + [KeyOf(last)];
  }

  /** Key `k` occurs at exactly one index. */
  ghost predicate OccursOnce<T>(s: seq<T>, x: T)
  {
    exists i | 0 <= i < |s| :: s[i] == x && forall j | 0 <= j < |s| && s[j] == x :: j == i
  }

  /**
   Any chunks, in any order, that survive the receiving loop include every announced triple exactly once -
   although the daemon only counts, checks ranges and rejects duplicates - precisely when the announced count fits
   in 64 bits. A header whose count wraps is let through without full coverage.
   */
  lemma CoverageByCounting(f: Foreign, h: Header, messages: seq<Message>)
    requires |messages| == ChunkCount(h) && StageAll(f, h, messages).Success?
    ensures Covered(h, StageAll(f, h, messages).value) <==> ChunksAnnounced(h) < U64_LIMIT
    ensures AllChunks(messages)
    ensures ChunksAnnounced(h) < U64_LIMIT ==>
              forall k: ChunkKey :: Announced(h, k) ==> OccursOnce(KeysOf(messages), k)
  {
    AcceptedInv(f, h, messages);
    AcceptedKeys(f, h, messages);
    CoverageOfStage(h, StageAll(f, h, messages).value, KeysOf(messages));
  }

  lemma CoverageOfStage(h: Header, st: Stage, keys: seq<ChunkKey>)
    requires StageInv(h, st) && st.received == (set k | k in keys) && |st.received| == |keys| == ChunkCount(h)
    ensures Covered(h, st) <==> ChunksAnnounced(h) < U64_LIMIT
    ensures ChunksAnnounced(h) < U64_LIMIT ==> forall k: ChunkKey :: Announced(h, k) ==> OccursOnce(keys, k)
  {
    hide Announced, StageInv;
    CoveredBySize(h, st);
    NoRepeatsBySize(keys);
    forall k: ChunkKey | k in st.received
      ensures OccursOnce(keys, k)
    {
      OnceWithoutRepeats(keys, k);
    }
  }

  lemma OnceWithoutRepeats<T>(s: seq<T>, x: T)
    requires x in s && forall i, j | 0 <= i < j < |s| :: s[i] != s[j]
    ensures OccursOnce(s, x)
  {
    var i :| 0 <= i < |s| && s[i] == x;
    assert forall j | 0 <= j < |s| && s[j] == x :: j == i;
  }

  /** Enough different announced chunks are all of them. */
  lemma CoveredBySize(h: Header, st: Stage)
    requires StageInv(h, st)
    ensures |st.received| <= ChunksAnnounced(h)
    ensures Covered(h, st) <==> |st.received| == ChunksAnnounced(h)
  {
    var keys := AllKeys(h);
    assert st.received <= keys;
    SubsetOfEqualSize(st.received, keys);
    if Covered(h, st) {
      assert keys == st.received;
    }
    if |st.received| == |keys| {
      assert forall k: ChunkKey :: Announced(h, k) ==> k in keys;
    }
  }

  /** Full coverage of at least one layer stages every block of the header. */
  lemma CoveredStagesEveryBlock(h: Header, st: Stage)
    requires StageInv(h, st) && Covered(h, st) && h.layers > 0
    ensures forall hash <- h.blockHashes :: hash in st.staged
  {
    forall hash <- h.blockHashes
      ensures hash in st.staged
    {
      var c :| 0 <= c < |h.blockHashes| && h.blockHashes[c] == hash;
      var key: ChunkKey := (c, 0, TensorName(Key, 0));
      assert Announced(h, key);
    }
  }

  // ---- The connection ----

  datatype Outcome =
    | Refused
    | Violated
    | BindingRejected(h: Header)
    | CommittedOk(h: Header, stage: Stage)
    | VerificationFailed(h: Header, stage: Stage)
    | InjectedWithoutCommit(h: Header, stage: Stage)

  datatype Phase =
    | AwaitCapability
    | AwaitHeader
    | Streaming(h: Header, left: nat, stage: Stage)
    | AwaitDecision(h: Header, stage: Stage)
    | AwaitCommit(h: Header, stage: Stage)
    | Done(outcome: Outcome)

  /** `recorded` is the outcome reported to the orchestrator, if any. */
  datatype State = State(phase: Phase, replies: seq<Reply>, cache: Cache, recorded: Option<bool>)

  function Start(cache: Cache): State { State(AwaitCapability, [], cache, None) }

  function StreamingPhase(h: Header, left: nat, stage: Stage): Phase
  {
    if left == 0 then AwaitDecision(h, stage) else Streaming(h, left, stage)
  }

  predicate AllPresent(hashes: seq<string>, cache: Cache)
  {
    forall i | 0 <= i < |hashes| :: hashes[i] in cache
  }

  /** Injection, which comes before the last message is looked at, then the commit check. */
  function Conclude(s: State, h: Header, stage: Stage, m: Message): State
  {
    var cache := s.cache + stage.staged;
    if !m.CommitRequest? then s.(phase := Done(InjectedWithoutCommit(h, stage)), cache := cache)
    else if AllPresent(h.blockHashes, cache) then
      State(Done(CommittedOk(h, stage)), s.replies + [CommitResponse], cache, Some(true))
    else s.(phase := Done(VerificationFailed(h, stage)), cache := cache)
  }

  function OnCapability(s: State, seqLen: nat): State
  {
    if seqLen > MAX_CONTEXT then s.(phase := Done(Refused), replies := s.replies + [CapabilityResponse(false)])
    else s.(phase := AwaitHeader, replies := s.replies + [CapabilityResponse(true)])
  }

  function OnHeader(s: State, h: Header): State
  {
    s.(phase := StreamingPhase(h, ChunkCount(h), EMPTY), replies := s.replies + [HeaderAck])
  }

  function OnChunk(s: State, h: Header, left: nat, stage: Stage, chunk: U32): State
  {
    s.(phase := StreamingPhase(h, left, stage), replies := s.replies + [ChunkAck(chunk)])
  }

  function OnBinding(s: State, h: Header, stage: Stage, accepted: bool): State
  {
    if accepted then s.(phase := AwaitCommit(h, stage), replies := s.replies + [GraphBindingAck(true)])
    else State(Done(BindingRejected(h)), s.replies + [GraphBindingAck(false)], s.cache, Some(false))
  }

  function Step(f: Foreign, s: State, m: Message): State
  {
    match s.phase
    case AwaitCapability =>
      if m.CapabilityRequest? then OnCapability(s, m.seqLen) else s.(phase := Done(Violated))
    case AwaitHeader =>
      if m.HeaderEnvelope? && m.content.Some? && Accepted(m.content.value) then OnHeader(s, m.content.value)
      else s.(phase := Done(Violated))
    case Streaming(h, left, stage) =>
      var r := Receive(f, h, stage, m);
      if r.Success? && left > 0 then OnChunk(s, h, left - 1, r.value, m.chunk) else s.(phase := Done(Violated))
    case AwaitDecision(h, stage) =>
      if m.GraphBinding? then OnBinding(s, h, stage, Binding.Accepts(m.binding, h)) else Conclude(s, h, stage, m)
    case AwaitCommit(h, stage) => Conclude(s, h, stage, m)
    case Done(_) => s
  }

  function Run(f: Foreign, s: State, messages: seq<Message>): State
  {
    if messages == [] then s
    else Step(f, Run(f, s, messages[..|messages| - 1]), messages[|messages| - 1])
  }

  /** A connection from the first message on. */
  function Connect(f: Foreign, cache: Cache, messages: seq<Message>): State
  {
    Run(f, Start(cache), messages)
  }

  lemma {:induction false} RunConcat(f: Foreign, s: State, a: seq<Message>, b: seq<Message>)
    ensures Run(f, s, a + b) == Run(f, Run(f, s, a), b)
  {
    if b == [] {
      assert a + b == a;
    } else {
      assert (a + b)[..|a + b| - 1] == a + b[..|b| - 1];
      RunConcat(f, s, a, b[..|b| - 1]);
    }
  }

  lemma {:induction false} DoneIsFinal(f: Foreign, s: State, messages: seq<Message>)
    requires s.phase.Done?
    ensures Run(f, s, messages) == s
  {
    if messages == [] {
    } else {
      DoneIsFinal(f, s, messages[..|messages| - 1]);
    }
  }

  /**
   The context limit binds only the claim in the capability request: the rest of a connection is the same for every
   claim within the limit, whatever sequence length its header carries.
   */
  lemma ClaimIsNotCompared(f: Foreign, cache: Cache, claim: U64, claim': U64, rest: seq<Message>)
    requires claim <= 131072 && claim' <= 131072
    ensures Connect(f, cache, [CapabilityRequest(claim)] + rest) == Connect(f, cache, [CapabilityRequest(claim')] + rest)
  {
    var a, b := [CapabilityRequest(claim)], [CapabilityRequest(claim')];
    assert a[..0] == [] && b[..0] == [];
    assert Run(f, Start(cache), a) == Step(f, Run(f, Start(cache), a[..0]), a[0]);
    assert Run(f, Start(cache), b) == Step(f, Run(f, Start(cache), b[..0]), b[0]);
    RunConcat(f, Start(cache), a, rest);
    RunConcat(f, Start(cache), b, rest);
  }

  ghost predicate Complete(h: Header, stage: Stage)
  {
    Accepted(h) && StageInv(h, stage) && |stage.received| == ChunkCount(h)
  }

  /** A negative binding answer and a commit answer are sent in no other outcome. */
  ghost predicate RepliesInv(s: State)
  {
    && (GraphBindingAck(false) in s.replies <==> s.phase.Done? && s.phase.outcome.BindingRejected?)
    && (CommitResponse in s.replies <==> s.phase.Done? && s.phase.outcome.CommittedOk?)
  }

  ghost predicate OutcomeInv(o: Outcome, s: State, cache: Cache)
  {
    match o
    case Refused => s.cache == cache && s.recorded == None
    case Violated => s.cache == cache && s.recorded == None
    case BindingRejected(_) => s.cache == cache && s.recorded == Some(false)
    case CommittedOk(h, stage) =>
      && Complete(h, stage) && s.cache == cache + stage.staged && AllPresent(h.blockHashes, s.cache)
      && s.recorded == Some(true)
    case VerificationFailed(h, stage) =>
      && Complete(h, stage) && s.cache == cache + stage.staged && !AllPresent(h.blockHashes, s.cache)
      && s.recorded == None
    case InjectedWithoutCommit(h, stage) =>
      Complete(h, stage) && s.cache == cache + stage.staged && s.recorded == None
  }

  /** What holds of every state a connection can reach, given the cache it started from. */
  ghost predicate Inv(s: State, cache: Cache)
  {
    && RepliesInv(s)
    && (!s.phase.Done? ==> s.cache == cache && s.recorded == None)
    && match s.phase
       case AwaitCapability => true
       case AwaitHeader => true
       case Streaming(h, left, stage) =>
         Accepted(h) && StageInv(h, stage) && left > 0 && |stage.received| + left == ChunkCount(h)
       case AwaitDecision(h, stage) => Complete(h, stage)
       case AwaitCommit(h, stage) => Complete(h, stage)
       case Done(o) => OutcomeInv(o, s, cache)
  }

  lemma OnHeaderKeepsInv(s: State, h: Header, cache: Cache)
    requires Inv(s, cache) && s.phase.AwaitHeader? && Accepted(h)
    ensures Inv(OnHeader(s, h), cache)
  {
  }

  lemma OnChunkKeepsInv(s: State, h: Header, left: nat, stage: Stage, chunk: U32, cache: Cache)
    requires Inv(s, cache) && s.phase.Streaming?
    requires Accepted(h) && StageInv(h, stage) && |stage.received| + left == ChunkCount(h)
    ensures Inv(OnChunk(s, h, left, stage, chunk), cache)
  {
  }

  lemma OnBindingKeepsInv(s: State, h: Header, stage: Stage, accepted: bool, cache: Cache)
    requires Inv(s, cache) && s.phase == AwaitDecision(h, stage)
    ensures Inv(OnBinding(s, h, stage, accepted), cache)
  {
  }

  lemma ConcludeKeepsInv(s: State, h: Header, stage: Stage, m: Message, cache: Cache)
    requires Inv(s, cache) && (s.phase == AwaitDecision(h, stage) || s.phase == AwaitCommit(h, stage))
    ensures Inv(Conclude(s, h, stage, m), cache)
  {
  }

  lemma StepKeepsInv(f: Foreign, s: State, m: Message, cache: Cache)
    requires Inv(s, cache)
    ensures Inv(Step(f, s, m), cache)
  {
    match s.phase
    case AwaitCapability =>
    case AwaitHeader =>
      if m.HeaderEnvelope? && m.content.Some? && Accepted(m.content.value) {
        OnHeaderKeepsInv(s, m.content.value, cache);
      }
    case Streaming(h, left, stage) =>
      if Receive(f, h, stage, m).Success? {
        ReceiveKeepsInv(f, h, stage, m);
        OnChunkKeepsInv(s, h, left - 1, Receive(f, h, stage, m).value, m.chunk, cache);
      }
    case AwaitDecision(h, stage) =>
      if m.GraphBinding? {
        OnBindingKeepsInv(s, h, stage, Binding.Accepts(m.binding, h), cache);
      } else {
        ConcludeKeepsInv(s, h, stage, m, cache);
      }
    case AwaitCommit(h, stage) => ConcludeKeepsInv(s, h, stage, m, cache);
    case Done(_) =>
  }

  lemma {:induction false} Reachable(f: Foreign, cache: Cache, messages: seq<Message>)
    ensures Inv(Connect(f, cache, messages), cache)
  {
    if messages == [] {
    } else {
      Reachable(f, cache, messages[..|messages| - 1]);
      StepKeepsInv(f, Connect(f, cache, messages[..|messages| - 1]), messages[|messages| - 1], cache);
    }
  }

  // ---- Safety over every message sequence ----

  /** The outcomes in which staged blocks were injected. */
  predicate Injected(o: Outcome)
  {
    o.CommittedOk? || o.VerificationFailed? || o.InjectedWithoutCommit?
  }

  /**
   Whatever a peer sends: the injector changes only once the receiving loop has run its (possibly wrapped) count of chunks
   and any binding offered was accepted, and then by exactly the staged blocks, all of them the header's; a rejected binding changes nothing; success
   is answered only with every header block present. Injection does not wait for the commit request.
   */
  lemma CommitSafety(f: Foreign, cache: Cache, messages: seq<Message>)
    ensures var s := Connect(f, cache, messages);
            && (s.cache != cache ==> s.phase.Done? && Injected(s.phase.outcome))
            && (s.phase.Done? && Injected(s.phase.outcome) ==>
                  && Complete(s.phase.outcome.h, s.phase.outcome.stage)
                  && s.cache == cache + s.phase.outcome.stage.staged
                  && GraphBindingAck(false) !in s.replies
                  && forall hash <- s.cache :: hash !in s.phase.outcome.h.blockHashes ==> hash in cache && s.cache[hash] == cache[hash])
            && (GraphBindingAck(false) in s.replies ==> s.cache == cache && s.recorded == Some(false))
            && (CommitResponse in s.replies ==>
                  && s.phase.Done? && s.phase.outcome.CommittedOk?
                  && AllPresent(s.phase.outcome.h.blockHashes, s.cache) && s.recorded == Some(true))
  {
    Reachable(f, cache, messages);
  }

  /** Injection means full coverage, and verification cannot fail, as soon as the count fits and there is a layer. */
  lemma InjectedIsCovered(f: Foreign, cache: Cache, messages: seq<Message>)
    ensures var s := Connect(f, cache, messages);
            s.phase.Done? && Injected(s.phase.outcome) && ChunksAnnounced(s.phase.outcome.h) < U64_LIMIT ==>
              && Covered(s.phase.outcome.h, s.phase.outcome.stage)
              && (s.phase.outcome.h.layers > 0 ==> !s.phase.outcome.VerificationFailed?)
  {
    hide StageInv, Covered, Connect;
    Reachable(f, cache, messages);
    var s := Connect(f, cache, messages);
    if s.phase.Done? && Injected(s.phase.outcome) {
      var h, stage := s.phase.outcome.h, s.phase.outcome.stage;
      CoveredBySize(h, stage);
      if Covered(h, stage) && h.layers > 0 {
        CoveredStagesEveryBlock(h, stage);
        assert AllPresent(h.blockHashes, cache + stage.staged);
      }
    }
  }

  /** From its header on, a connection is about that header. */
  predicate About(s: State, h: Header)
  {
    match s.phase
    case AwaitCapability => false
    case AwaitHeader => false
    case Streaming(h', _, _) => h' == h
    case AwaitDecision(h', _) => h' == h
    case AwaitCommit(h', _) => h' == h
    case Done(o) => o.Violated? || (!o.Refused? && o.h == h)
  }

  lemma {:induction false} StaysAbout(f: Foreign, s: State, h: Header, messages: seq<Message>)
    requires About(s, h)
    ensures About(Run(f, s, messages), h)
  {
    if messages == [] {
    } else {
      StaysAbout(f, s, h, messages[..|messages| - 1]);
    }
  }

  /** When a binding was accepted on the way to a commit, every block its spans name is in the cache afterwards. */
  lemma BoundBlocksInstalled(f: Foreign, cache: Cache, before: seq<Message>, b: Binding.Graph, after: seq<Message>)
    requires Connect(f, cache, before).phase.AwaitDecision?
    ensures var s := Connect(f, cache, before + [GraphBinding(b)] + after);
            CommitResponse in s.replies ==>
              forall i, j | 0 <= i < |b.spans| && 0 <= j < |b.spans[i].blockHashes| :: b.spans[i].blockHashes[j] in s.cache
  {
    hide StageInv, Binding.Accepts, Step, Complete;
    var h := Connect(f, cache, before).phase.h;
    RunConcat(f, Start(cache), before + [GraphBinding(b)], after);
    Reachable(f, cache, before + [GraphBinding(b)] + after);
    BindingStep(f, cache, before, b);
    StaysAbout(f, Connect(f, cache, before + [GraphBinding(b)]), h, after);
    if Binding.Accepts(b, h) {
      SpansAreMigrated(b, h);
    } else {
      DoneIsFinal(f, Connect(f, cache, before + [GraphBinding(b)]), after);
    }
  }

  lemma BindingStep(f: Foreign, cache: Cache, before: seq<Message>, b: Binding.Graph)
    requires Connect(f, cache, before).phase.AwaitDecision?
    ensures var h, s := Connect(f, cache, before).phase.h, Connect(f, cache, before + [GraphBinding(b)]);
            && About(s, h)
            && (!Binding.Accepts(b, h) ==> s.phase == Done(BindingRejected(h)))
  {
    hide Binding.Accepts;
    assert (before + [GraphBinding(b)])[..|before|] == before;
  }

  lemma SpansAreMigrated(b: Binding.Graph, h: Header)
    requires Binding.Accepts(b, h)
    ensures forall i, j | 0 <= i < |b.spans| && 0 <= j < |b.spans[i].blockHashes| :: b.spans[i].blockHashes[j] in h.blockHashes
  {
  }

  /** A message the receiving loop does not accept ends the connection: no answer, nothing recorded, the cache as it was. */
  lemma BadChunkEnds(f: Foreign, cache: Cache, before: seq<Message>, m: Message, after: seq<Message>)
    requires var s := Connect(f, cache, before);
             s.phase.Streaming? && Receive(f, s.phase.h, s.phase.stage, m).Failure?
    ensures Connect(f, cache, before + [m] + after) == State(Done(Violated), Connect(f, cache, before).replies, cache, None)
  {
    hide StageInv, Receive;
    Reachable(f, cache, before);
    RunConcat(f, Start(cache), before + [m], after);
    assert (before + [m])[..|before|] == before;
    DoneIsFinal(f, Connect(f, cache, before + [m]), after);
  }

  /** A staged tensor is the payload of a chunk that was sent, with a checksum that matched. */
  ghost predicate Sourced(f: Foreign, h: Header, messages: seq<Message>, hash: string, name: string, words: seq<Word>)
  {
    exists i | 0 <= i < |messages| :: IsSource(f, h, messages[i], hash, name, words)
  }

  ghost predicate IsSource(f: Foreign, h: Header, m: Message, hash: string, name: string, words: seq<Word>)
  {
    && m.PayloadChunk? && f.crc32(m.data) == m.crc32 && m.name == name
    && m.chunk < |h.blockHashes| && h.blockHashes[m.chunk] == hash
    && Decodes(f, h, m, words)
  }

  ghost predicate AllSourced(f: Foreign, h: Header, messages: seq<Message>, stage: Stage)
  {
    forall hash <- stage.staged, name <- stage.staged[hash] :: Sourced(f, h, messages, hash, name, stage.staged[hash][name].data)
  }

  ghost predicate SourcedInv(f: Foreign, s: State, messages: seq<Message>)
  {
    && (forall r <- s.replies :: r.ChunkAck? ==> AckSourced(f, messages, r.chunk))
    && match s.phase
       case AwaitCapability => true
       case AwaitHeader => true
       case Streaming(h, _, stage) => AllSourced(f, h, messages, stage)
       case AwaitDecision(h, stage) => AllSourced(f, h, messages, stage)
       case AwaitCommit(h, stage) => AllSourced(f, h, messages, stage)
       case Done(o) => Injected(o) ==> AllSourced(f, o.h, messages, o.stage)
  }

  ghost predicate AckSourced(f: Foreign, messages: seq<Message>, chunk: nat)
  {
    exists i | 0 <= i < |messages| ::
      messages[i].PayloadChunk? && messages[i].chunk == chunk && f.crc32(messages[i].data) == messages[i].crc32
  }

  lemma SourcedGrows(f: Foreign, h: Header, messages: seq<Message>, m: Message, stage: Stage)
    requires AllSourced(f, h, messages, stage)
    ensures AllSourced(f, h, messages + [m], stage)
  {
    hide IsSource;
    forall hash <- stage.staged, name <- stage.staged[hash]
      ensures Sourced(f, h, messages + [m], hash, name, stage.staged[hash][name].data)
    {
      var i :| 0 <= i < |messages| && IsSource(f, h, messages[i], hash, name, stage.staged[hash][name].data);
      assert (messages + [m])[i] == messages[i];
    }
  }

  lemma ReceiveKeepsSourced(f: Foreign, h: Header, messages: seq<Message>, m: Message, stage: Stage)
    requires AllSourced(f, h, messages, stage) && Receive(f, h, stage, m).Success?
    ensures AllSourced(f, h, messages + [m], Receive(f, h, stage, m).value)
  {
    SourcedGrows(f, h, messages, m, stage);
    ReceiveExactly(f, h, stage, m);
    hide Receive, Decodes;
    var stage' := Receive(f, h, stage, m).value;
    forall hash <- stage'.staged, name <- stage'.staged[hash]
      ensures Sourced(f, h, messages + [m], hash, name, stage'.staged[hash][name].data)
    {
      if hash == h.blockHashes[m.chunk] && name == m.name {
        assert (messages + [m])[|messages|] == m;
        assert IsSource(f, h, m, hash, name, stage'.staged[hash][name].data);
      }
    }
  }

  lemma AcksGrow(f: Foreign, messages: seq<Message>, m: Message, chunk: nat)
    requires AckSourced(f, messages, chunk)
    ensures AckSourced(f, messages + [m], chunk)
  {
    var i :| 0 <= i < |messages| && messages[i].PayloadChunk? && messages[i].chunk == chunk
             && f.crc32(messages[i].data) == messages[i].crc32;
    assert (messages + [m])[i] == messages[i];
  }

  lemma StepKeepsSourced(f: Foreign, s: State, messages: seq<Message>, m: Message)
    requires SourcedInv(f, s, messages)
    ensures SourcedInv(f, Step(f, s, m), messages + [m])
  {
    forall r <- s.replies | r.ChunkAck?
      ensures AckSourced(f, messages + [m], r.chunk)
    {
      AcksGrow(f, messages, m, r.chunk);
    }
    hide AllSourced, AckSourced, Receive;
    match s.phase
    case Streaming(h, left, stage) =>
      if Receive(f, h, stage, m).Success? && left > 0 {
        ReceiveExactly(f, h, stage, m);
        ReceiveKeepsSourced(f, h, messages, m, stage);
        NewAck(f, messages, m);
      }
    case AwaitDecision(h, stage) => SourcedGrows(f, h, messages, m, stage);
    case AwaitCommit(h, stage) => SourcedGrows(f, h, messages, m, stage);
    case Done(o) =>
      if Injected(o) {
        SourcedGrows(f, o.h, messages, m, o.stage);
      }
    case AwaitHeader =>
      if m.HeaderEnvelope? && m.content.Some? {
        NothingSourced(f, m.content.value, messages + [m]);
      }
    case AwaitCapability =>
  }

  lemma NothingSourced(f: Foreign, h: Header, messages: seq<Message>)
    ensures AllSourced(f, h, messages, EMPTY)
  {
  }

  lemma NewAck(f: Foreign, messages: seq<Message>, m: Message)
    requires m.PayloadChunk? && f.crc32(m.data) == m.crc32
    ensures AckSourced(f, messages + [m], m.chunk)
  {
    assert (messages + [m])[|messages|] == m;
  }

  /**
   Over every run: a chunk is acknowledged only if its checksum matched, and whatever is injected is the decoded payload of
   a chunk that was sent under that block and that name with a matching checksum.
   */
  lemma {:induction false} OnlyCheckedChunksLand(f: Foreign, cache: Cache, messages: seq<Message>)
    ensures SourcedInv(f, Connect(f, cache, messages), messages)
  {
    hide SourcedInv, Step;
    if messages == [] {
      StartIsSourced(f, cache);
    } else {
      var before, m := messages[..|messages| - 1], messages[|messages| - 1];
      OnlyCheckedChunksLand(f, cache, before);
      StepKeepsSourced(f, Connect(f, cache, before), before, m);
      assert before + [m] == messages;
    }
  }

  lemma StartIsSourced(f: Foreign, cache: Cache)
    ensures SourcedInv(f, Start(cache), [])
  {
  }

  /** A context above the limit is refused at once, with nothing staged. */
  lemma LongContextRefused(f: Foreign, cache: Cache, claim: U64, rest: seq<Message>)
    requires claim > 131072
    ensures Connect(f, cache, [CapabilityRequest(claim)] + rest) == State(Done(Refused), [CapabilityResponse(false)], cache, None)
  {
    var a := [CapabilityRequest(claim)];
    assert Run(f, Start(cache), a) == Step(f, Run(f, Start(cache), a[..0]), a[0]);
    RunConcat(f, Start(cache), a, rest);
    DoneIsFinal(f, Run(f, Start(cache), a), rest);
  }

  /** How a connection opens: anything but a capability request, or then anything but a valid header, ends it. */
  lemma OpeningExactly(f: Foreign, cache: Cache, claim: U64, m: Message, rest: seq<Message>)
    requires claim <= 131072
    ensures !m.CapabilityRequest? ==> Connect(f, cache, [m] + rest) == State(Done(Violated), [], cache, None)
    ensures !(m.HeaderEnvelope? && m.content.Some? && Accepted(m.content.value)) ==>
              Connect(f, cache, [CapabilityRequest(claim), m] + rest) == State(Done(Violated), [CapabilityResponse(true)], cache, None)
    ensures m.HeaderEnvelope? && m.content.Some? && Accepted(m.content.value) ==>
              Connect(f, cache, [CapabilityRequest(claim), m])
              == State(StreamingPhase(m.content.value, ChunkCount(m.content.value), EMPTY), [CapabilityResponse(true), HeaderAck], cache, None)
  {
    hide Accepted, ChunkCount;
    var first, both := [CapabilityRequest(claim)], [CapabilityRequest(claim), m];
    assert [m][..0] == [] && first[..0] == [] && both[..1] == first;
    assert Run(f, Start(cache), [m]) == Step(f, Start(cache), m);
    assert Run(f, Start(cache), first) == Step(f, Start(cache), first[0]);
    assert Run(f, Start(cache), both) == Step(f, Run(f, Start(cache), first), m);
    RunConcat(f, Start(cache), [m], rest);
    RunConcat(f, Start(cache), both, rest);
    if !m.CapabilityRequest? {
      DoneIsFinal(f, Run(f, Start(cache), [m]), rest);
    }
    if !(m.HeaderEnvelope? && m.content.Some? && Accepted(m.content.value)) {
      DoneIsFinal(f, Run(f, Start(cache), both), rest);
    }
  }

  lemma StagedUnlessNoLayers(h: Header, stage: Stage)
    requires StageInv(h, stage) && |stage.received| == ChunksAnnounced(h)
    ensures if h.layers > 0 then forall hash <- h.blockHashes :: hash in stage.staged else stage.staged == map[]
  {
    CoveredBySize(h, stage);
    if h.layers > 0 {
      CoveredStagesEveryBlock(h, stage);
    } else {
      assert stage.received == {};
      assert stage.staged.Keys == {};
    }
  }

  /**
   A commit request is answered with success exactly when every block's hash was in the cache before or came with some
   received chunk; that is so as soon as there is a layer, unless the count wrapped.
   */
  lemma CommitVerdict(s: State, cache: Cache, h: Header, stage: Stage)
    requires Complete(h, stage) && s.cache == cache
    ensures Conclude(s, h, stage, CommitRequest) in
              {State(Done(CommittedOk(h, stage)), s.replies + [CommitResponse], cache + stage.staged, Some(true)),
               State(Done(VerificationFailed(h, stage)), s.replies, cache + stage.staged, s.recorded)}
    ensures Conclude(s, h, stage, CommitRequest).phase == Done(CommittedOk(h, stage))
            <==> forall b | 0 <= b < |h.blockHashes| :: h.blockHashes[b] in cache || FromChunk(h, stage.received, h.blockHashes[b])
    ensures ChunksAnnounced(h) < U64_LIMIT ==>
              (Conclude(s, h, stage, CommitRequest).phase == Done(CommittedOk(h, stage))
               <==> h.layers > 0 || AllPresent(h.blockHashes, cache))
  {
    hide StageInv, Covered, Accepted, ChunksAnnounced, FromChunk;
    PresentAfter(cache, h, stage);
    if ChunksAnnounced(h) < U64_LIMIT {
      PresentUnlessWrapped(cache, h, stage);
    }
  }

  lemma PresentAfter(cache: Cache, h: Header, stage: Stage)
    requires StageInv(h, stage)
    ensures AllPresent(h.blockHashes, cache + stage.staged)
            <==> forall b | 0 <= b < |h.blockHashes| :: h.blockHashes[b] in cache || FromChunk(h, stage.received, h.blockHashes[b])
  {
    hide StageInv, FromChunk;
    forall b | 0 <= b < |h.blockHashes|
      ensures h.blockHashes[b] in stage.staged <==> FromChunk(h, stage.received, h.blockHashes[b])
    {
      StagedIffFromChunk(h, stage, h.blockHashes[b]);
    }
  }

  lemma PresentUnlessWrapped(cache: Cache, h: Header, stage: Stage)
    requires Complete(h, stage) && ChunksAnnounced(h) < U64_LIMIT
    ensures AllPresent(h.blockHashes, cache + stage.staged) <==> h.layers > 0 || AllPresent(h.blockHashes, cache)
  {
    hide StageInv, Covered, Accepted, ChunksAnnounced;
    StagedUnlessNoLayers(h, stage);
    if h.layers == 0 {
      assert cache + stage.staged == cache;
    }
  }

  lemma StagedIffFromChunk(h: Header, stage: Stage, hash: string)
    requires StageInv(h, stage)
    ensures hash in stage.staged <==> FromChunk(h, stage.received, hash)
  {
    if FromChunk(h, stage.received, hash) {
      var k :| k in stage.received && k.0 < |h.blockHashes| && h.blockHashes[k.0] == hash;
      assert StagedFor(h, stage.staged, k);
    }
  }

  // ---- A count that wraps ----

  /** An announced count that wraps to nothing: with the blocks already in the cache, no chunk at all leads to a commit. */
  lemma WrappedCountCommits(f: Foreign, cache: Cache, claim: U64, h: Header)
    requires Accepted(h) && claim <= MAX_CONTEXT && AllPresent(h.blockHashes, cache)
    requires ChunksAnnounced(h) > 0 && ChunkCount(h) == 0
    ensures var s := Connect(f, cache, [CapabilityRequest(claim), HeaderEnvelope(Some(h)), CommitRequest]);
            && s.phase == Done(CommittedOk(h, EMPTY)) && CommitResponse in s.replies && s.recorded == Some(true)
            && !Covered(h, EMPTY)
  {
    hide ChunksAnnounced, ChunkCount, Accepted;
    var a := CapabilityRequest(claim);
    var b := HeaderEnvelope(Some(h));
    var all := [a, b, CommitRequest];
    assert all[..2] == [a, b] && [a, b][..1] == [a] && [a][..0] == [];
    assert Run(f, Start(cache), [a]) == Step(f, Start(cache), a);
    assert Run(f, Start(cache), [a, b]) == Step(f, Run(f, Start(cache), [a]), b);
    assert Run(f, Start(cache), all) == Step(f, Run(f, Start(cache), [a, b]), CommitRequest);
    assert cache + EMPTY.staged == cache;
    CoveredBySize(h, EMPTY);
  }

  /** Such headers exist: one block of 2^63 layers. */
  lemma WrappedHeader(hash: string) returns (h: Header)
    ensures Accepted(h) && h.blockHashes == [hash] && ChunksAnnounced(h) == U64_LIMIT && ChunkCount(h) == 0
  {
    h := Header("1.1", 1, 1, 1, [hash], 0x8000_0000_0000_0000, 1, 1, Mha, false, "sha256:", "sha256:", None);
    assert StartsWith("sha256:", "sha256:");
  }
}
