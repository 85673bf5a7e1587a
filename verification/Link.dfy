/**
 The byte stream of a connection (crates/transport/src/lib.rs, `send_message` and `recv_message`): every message goes
 behind a 32-bit length, and the receiver refuses a frame of more than 500 MiB.
 */
module Link {
  import opened Common
  import opened Header
  import opened Layout
  import opened Messages
  import opened ChunkWire
  import opened Daemon
  import Frames

  const MAX_MESSAGE: nat := 500 * 1024 * 1024

  /** A message behind its length, which is cast to u32. */
  function Framed(t: Text, m: Message): (bytes: seq<Byte>)
    ensures |bytes| == 4 + |Encoded(t, m)|
  {
    BigEndian(|Encoded(t, m)|, 4) + Encoded(t, m)
  }

  /** `send_message`. */
  method SendMessage(t: Text, m: Message) returns (bytes: seq<Byte>)
    ensures bytes == Framed(t, m)
    ensures |bytes| == 4 + |Encoded(t, m)| && bytes[4..] == Encoded(t, m)
    ensures bytes[0] as int * 0x100_0000 + bytes[1] as int * 0x1_0000 + bytes[2] as int * 0x100 + bytes[3]
            == |Encoded(t, m)| % 0x1_0000_0000
  {
    FramedExactly(t, m);
    hide Encoded, BigEndian;
    var serialized := EncodeMessage(t, m);
    bytes := BigEndian(|serialized|, 4);
    bytes := bytes + serialized;
  }

  lemma FramedExactly(t: Text, m: Message)
    ensures var bytes := Framed(t, m);
            && bytes[4..] == Encoded(t, m)
            && bytes[0] as int * 0x100_0000 + bytes[1] as int * 0x1_0000 + bytes[2] as int * 0x100 + bytes[3]
               == |Encoded(t, m)| % 0x1_0000_0000
  {
    hide Encoded, BigEndian, FromBigEndian;
    var n := |Encoded(t, m)|;
    assert Framed(t, m)[..4] == BigEndian(n, 4);
    BigEndianValue(n, 4);
    Pow256Values();
    FourBytes(Framed(t, m)[..4]);
  }

  /** The message at the front of a stream, and what is behind it. */
  ghost function Next(t: Text, stream: seq<Byte>): Option<(Message, seq<Byte>)>
  {
    if |stream| < 4 then None
    else
      var len := Frames.Field(stream, 0, 4);
      if len > MAX_MESSAGE || |stream| < 4 + len then None
      else
        var m := Decoded(t, stream[4..4 + len]);
        if m.None? then None else Some((m.value, stream[4 + len..]))
  }

  /** `recv_message`: one message off the stream, or an error, after which the connection is given up. */
  method RecvMessage(t: Text, reader: Frames.Reader) returns (r: Result<Message>)
    modifies reader
    ensures r.Success? <==> Next(t, old(reader.pending)).Some?
    ensures r.Success? ==> Next(t, old(reader.pending)) == Some((r.value, reader.pending))
    ensures r.Success? ==>
              var s := old(reader.pending);
              && |s| >= 4
              && var len := s[0] as int * 0x100_0000 + s[1] as int * 0x1_0000 + s[2] as int * 0x100 + s[3];
                 && len <= 524_288_000 && 4 + len <= |s| && reader.pending == s[4 + len..] && Decoded(t, s[4..4 + len]) == Some(r.value)
    ensures r.Failure? ==>
              var s := old(reader.pending);
              |s| >= 4 ==>
                var len := s[0] as int * 0x100_0000 + s[1] as int * 0x1_0000 + s[2] as int * 0x100 + s[3];
                len > 524_288_000 || 4 + len > |s| || Decoded(t, s[4..4 + len]) == None
  {
    if |reader.pending| >= 4 {
      FourBytes(reader.pending[0..4]);
    }
    hide Decoded, FromBigEndian, Pow256;
    var prefix := reader.ReadExact(4);
    if prefix.Failure? {
      return Failure(prefix.error);
    }
    var len := FromBigEndian(prefix.value);
    if len > MAX_MESSAGE {
      return Failure("Frame size too large");
    }
    var buffer := reader.ReadExact(len);
    if buffer.Failure? {
      return Failure(buffer.error);
    }
    assert old(reader.pending)[4..][..len] == old(reader.pending)[4..4 + len];
    assert old(reader.pending)[4..][len..] == old(reader.pending)[4 + len..];
    r := DecodeMessage(t, buffer.value);
  }

  /** Everything a receiver gets out of a stream before it ends or a frame is refused. */
  ghost function Delivered(t: Text, stream: seq<Byte>): seq<Message>
    decreases |stream|
  {
    var next := Next(t, stream);
    if next.None? then [] else [next.value.0] + Delivered(t, next.value.1)
  }

  method ReceiveAll(t: Text, reader: Frames.Reader) returns (inbox: seq<Message>)
    modifies reader
    ensures inbox == Delivered(t, old(reader.pending))
  {
    inbox := [];
    ghost var left := reader.pending;
    var more := true;
    while more
      invariant more ==> left == reader.pending
      invariant inbox + (if more then Delivered(t, left) else []) == Delivered(t, old(reader.pending))
      decreases more, |left|
    {
      var r := RecvMessage(t, reader);
      more := r.Success?;
      if more {
        inbox := inbox + [r.value];
        left := reader.pending;
      }
    }
  }

  /** The receiver gets this message back out of its frame. */
  ghost predicate Carries(t: Text, m: Message)
  {
    |Encoded(t, m)| <= MAX_MESSAGE && Decoded(t, Encoded(t, m)) == Some(m)
  }

  lemma NextOfFrame(t: Text, m: Message, rest: seq<Byte>)
    ensures Next(t, Framed(t, m) + rest) == Some((m, rest)) <==> Carries(t, m)
  {
    hide Decoded;
    var bytes := Encoded(t, m);
    var stream := Framed(t, m) + rest;
    assert stream[0..4] == BigEndian(|bytes|, 4);
    Pow256Values();
    if |bytes| <= MAX_MESSAGE {
      Frames.FieldIs(stream, 0, 4, |bytes|);
      assert stream[4..4 + |bytes|] == bytes && stream[4 + |bytes|..] == rest;
    }
  }

  /** A chunk comes back out of its frame exactly when the frame is within the limit. */
  lemma ChunkCarried(t: Text, m: Message)
    requires Faithful(t) && m.PayloadChunk?
    ensures Carries(t, m) <==> |Encoded(t, m)| <= MAX_MESSAGE
  {
    hide Decoded;
    RoundTripExactly(t, m);
  }

  /** Messages framed one after the other. */
  function Wired(t: Text, messages: seq<Message>): seq<Byte>
  {
    if messages == [] then [] else Framed(t, messages[0]) + Wired(t, messages[1..])
  }

  ghost predicate AllCarried(t: Text, messages: seq<Message>)
  {
    forall i | 0 <= i < |messages| :: Carries(t, messages[i])
  }

  lemma DeliversOne(t: Text, m: Message, rest: seq<Byte>)
    requires Carries(t, m)
    ensures Delivered(t, Framed(t, m) + rest) == [m] + Delivered(t, rest)
  {
    hide Framed, Next;
    NextOfFrame(t, m, rest);
  }

  /** What is sent in frames within the limit is what is delivered, whatever follows. */
  lemma {:induction false} WiredDelivers(t: Text, messages: seq<Message>, rest: seq<Byte>)
    requires AllCarried(t, messages)
    ensures Delivered(t, Wired(t, messages) + rest) == messages + Delivered(t, rest)
  {
    hide Carries, Framed, Encoded, Decoded;
    if messages == [] {
      assert Wired(t, messages) + rest == rest;
    } else {
      var tail := Wired(t, messages[1..]) + rest;
      assert Wired(t, messages) + rest == Framed(t, messages[0]) + tail;
      DeliversOne(t, messages[0], tail);
      WiredDelivers(t, messages[1..], rest);
    }
  }

  lemma {:induction false} WiredConcat(t: Text, a: seq<Message>, b: seq<Message>)
    ensures Wired(t, a + b) == Wired(t, a) + Wired(t, b)
  {
    hide Wired;
    if a == [] {
      WiredHead(t, []);
      assert a + b == b;
    } else {
      WiredHead(t, a);
      WiredHead(t, a + b);
      assert (a + b)[1..] == a[1..] + b;
      WiredConcat(t, a[1..], b);
    }
  }

  lemma WiredHead(t: Text, messages: seq<Message>)
    ensures if messages == [] then Wired(t, messages) == []
            else Wired(t, messages) == Framed(t, messages[0]) + Wired(t, messages[1..])
  {
  }

  lemma AllDelivered(t: Text, messages: seq<Message>)
    requires AllCarried(t, messages)
    ensures Delivered(t, Wired(t, messages)) == messages
  {
    WiredDelivers(t, messages, []);
    assert Wired(t, messages) + [] == Wired(t, messages);
  }

  // ---- The daemon on a byte stream ----

  /** The daemon's state after everything a stream delivers; a refused frame ends the connection like its close. */
  ghost function Serve(f: Foreign, cache: Cache, stream: seq<Byte>): State
  {
    Connect(f, cache, Delivered(f.text, stream))
  }

  /** The size of a raw chunk's frame content. */
  function ChunkBytes(t: Text, name: string, data: nat): nat { 21 + |t.utf8(name)| + data }

  /** ASCII takes a byte a character, and a chunk written as JSON is no shorter than in its binary form. */
  ghost predicate Plain(t: Text)
  {
    && (forall s | Ascii(s) :: |t.utf8(s)| == |s|)
    && (forall b: seq<Byte> ::
          var m := t.fromJsonMessage(b);
          m.Some? && m.value.PayloadChunk? ==> ChunkBytes(t, m.value.name, |m.value.data|) <= 1 + |b|)
  }

  predicate Small(t: Text, m: Message)
  {
    m.PayloadChunk? ==> ChunkBytes(t, m.name, |m.data|) <= MAX_MESSAGE
  }

  lemma NextIsSmall(t: Text, stream: seq<Byte>)
    requires Faithful(t) && Plain(t) && Next(t, stream).Some?
    ensures Small(t, Next(t, stream).value.0)
  {
    hide Reads;
    var len := Frames.Field(stream, 0, 4);
    var buffer := stream[4..4 + len];
    var m := Decoded(t, buffer).value;
    if m.PayloadChunk? {
      if buffer[0] == KIND_JSON {
        assert t.fromJsonMessage(buffer[1..]) == Some(m);
      } else {
        var p: Parts :| Reads(buffer[1..], p) && Meaning(t, p) == Some(m);
        ReadsIsBody(buffer[1..], p);
        MeaningFields(t, p, m);
      }
    }
  }

  lemma {:induction false} DeliveredAreSmall(t: Text, stream: seq<Byte>)
    requires Faithful(t) && Plain(t)
    ensures forall i | 0 <= i < |Delivered(t, stream)| :: Small(t, Delivered(t, stream)[i])
    decreases |stream|
  {
    hide Faithful, Plain, Small, Decoded;
    var next := Next(t, stream);
    if next.Some? {
      NextIsSmall(t, stream);
      DeliveredAreSmall(t, next.value.1);
    }
  }

  /** Every raw chunk received came in a frame within the limit. */
  ghost predicate Sized(t: Text, h: Header, stage: Stage)
  {
    h.transferScheme == None ==> forall k <- stage.received :: ChunkBytes(t, k.2, 4 * BlockFloatCount(h)) <= MAX_MESSAGE
  }

  /** The longest chunk a raw header announces is within the limit. */
  ghost predicate Transferable(t: Text, h: Header)
  {
    h.transferScheme == None && h.layers > 0 && ChunksAnnounced(h) < U64_LIMIT ==>
      ChunkBytes(t, TensorName(Value, h.layers - 1), 4 * BlockFloatCount(h)) <= MAX_MESSAGE
  }

  lemma ReceiveKeepsSized(f: Foreign, h: Header, stage: Stage, m: Message)
    requires Sized(f.text, h, stage) && Small(f.text, m) && Receive(f, h, stage, m).Success?
    ensures Sized(f.text, h, Receive(f, h, stage, m).value)
  {
    ReceiveAddsKey(f, h, stage, m);
    if h.transferScheme == None {
      assert |RawWords(m.data)| == BlockFloatCount(h);
      assert 4 * BlockFloatCount(h) <= |m.data|;
      assert ChunkBytes(f.text, m.name, 4 * BlockFloatCount(h)) <= MAX_MESSAGE;
    }
  }

  /** Coverage includes the longest chunk. */
  lemma CompleteIsTransferable(t: Text, h: Header, stage: Stage)
    requires Complete(h, stage) && Sized(t, h, stage)
    ensures Transferable(t, h)
  {
    hide StageInv, ChunksAnnounced, BlockFloatCount, ChunkBytes, TensorName;
    if h.layers > 0 && ChunksAnnounced(h) < U64_LIMIT {
      CoveredBySize(h, stage);
      var k: ChunkKey := (0, h.layers - 1, TensorName(Value, h.layers - 1));
      LastValueIsAnnounced(h);
      assert k in stage.received;
    }
  }

  lemma LastValueIsAnnounced(h: Header)
    requires Accepted(h) && h.layers > 0
    ensures Announced(h, (0, h.layers - 1, TensorName(Value, h.layers - 1)))
  {
    hide TensorName;
    ZeroQuotient(h.blockSize);
    BlockBelowCount(0, h.seqLen, h.blockSize);
  }

  lemma ZeroQuotient(m: nat)
    requires m > 0
    ensures 0 / m == 0
  {
  }

  /** Streaming so far was in frames within the limit, and beyond streaming the header is transferable. */
  ghost predicate SizedInv(t: Text, s: State)
  {
    match s.phase
    case AwaitCapability => true
    case AwaitHeader => true
    case Streaming(h, _, stage) => Sized(t, h, stage)
    case AwaitDecision(h, _) => Transferable(t, h)
    case AwaitCommit(h, _) => Transferable(t, h)
    case Done(o) => (Injected(o) || o.BindingRejected?) ==> Transferable(t, o.h)
  }

  lemma StreamingKeepsSized(t: Text, s: State, h: Header, left: nat, stage: Stage)
    requires s.phase == StreamingPhase(h, left, stage) && Sized(t, h, stage) && (left == 0 ==> Complete(h, stage))
    ensures SizedInv(t, s)
  {
    if left == 0 {
      CompleteIsTransferable(t, h, stage);
    }
  }

  lemma StepKeepsSized(f: Foreign, s: State, m: Message, cache: Cache)
    requires Inv(s, cache) && SizedInv(f.text, s) && Small(f.text, m)
    ensures SizedInv(f.text, Step(f, s, m))
  {
    hide StageInv, Sized, Transferable, Receive, ChunkCount;
    StepKeepsInv(f, s, m, cache);
    if s.phase.AwaitHeader? && m.HeaderEnvelope? && m.content.Some? && Accepted(m.content.value) {
      var h := m.content.value;
      EmptyIsSized(f.text, h);
      StreamingKeepsSized(f.text, Step(f, s, m), h, ChunkCount(h), EMPTY);
    } else if s.phase.Streaming? && Receive(f, s.phase.h, s.phase.stage, m).Success? {
      var h, stage := s.phase.h, Receive(f, s.phase.h, s.phase.stage, m).value;
      ReceiveKeepsSized(f, h, s.phase.stage, m);
      StreamingKeepsSized(f.text, Step(f, s, m), h, s.phase.left - 1, stage);
    }
  }

  lemma EmptyIsSized(t: Text, h: Header)
    ensures Sized(t, h, EMPTY)
  {
  }

  lemma {:induction false} RunKeepsSized(f: Foreign, cache: Cache, messages: seq<Message>)
    requires forall i | 0 <= i < |messages| :: Small(f.text, messages[i])
    ensures SizedInv(f.text, Connect(f, cache, messages))
  {
    hide Small, SizedInv, Step, Inv;
    if messages == [] {
      assert SizedInv(f.text, Start(cache)) by {
        StartIsSized(f.text, cache);
      }
    } else {
      var before := messages[..|messages| - 1];
      RunKeepsSized(f, cache, before);
      Reachable(f, cache, before);
      StepKeepsSized(f, Connect(f, cache, before), messages[|messages| - 1], cache);
    }
  }

  lemma StartIsSized(t: Text, cache: Cache)
    ensures SizedInv(t, Start(cache))
  {
  }

  /**
   Whatever bytes a peer sends, the daemon gets past streaming only for a header whose longest chunk is within the frame
   limit: no header beyond it can be injected, committed or even have a binding refused.
   */
  lemma OnlyTransferableHeadersLand(f: Foreign, cache: Cache, stream: seq<Byte>)
    requires Faithful(f.text) && Plain(f.text)
    ensures SizedInv(f.text, Serve(f, cache, stream))
  {
    hide Faithful, Plain, SizedInv, Small;
    DeliveredAreSmall(f.text, stream);
    RunKeepsSized(f, cache, Delivered(f.text, stream));
  }

  /** What the first two messages of a connection open. */
  function Opening(claim: U64, h: Header): seq<Message> { [CapabilityRequest(claim), HeaderEnvelope(Some(h))] }

  lemma OpeningRun(f: Foreign, cache: Cache, claim: U64, h: Header)
    requires Accepted(h) && claim <= MAX_CONTEXT
    ensures Connect(f, cache, Opening(claim, h))
            == State(StreamingPhase(h, ChunkCount(h), EMPTY), [CapabilityResponse(true), HeaderAck], cache, None)
  {
    var first := [CapabilityRequest(claim)];
    var both := Opening(claim, h);
    assert both[..1] == first && first[..0] == [];
    assert Run(f, Start(cache), first) == Step(f, Run(f, Start(cache), []), first[0]);
    assert Run(f, Start(cache), both) == Step(f, Run(f, Start(cache), first), both[1]);
  }

  /** Behind a header that is not transferable no bytes at all change the cache, record an outcome or are answered with success. */
  lemma NothingLands(f: Foreign, cache: Cache, claim: U64, h: Header, rest: seq<Byte>)
    requires Faithful(f.text) && Plain(f.text) && AllCarried(f.text, Opening(claim, h))
    requires Accepted(h) && claim <= MAX_CONTEXT && !Transferable(f.text, h)
    ensures var s := Serve(f, cache, Wired(f.text, Opening(claim, h)) + rest);
            && s.cache == cache && s.recorded == None
            && (s.phase.Done? ==> s.phase.outcome.Violated?)
            && CommitResponse !in s.replies && GraphBindingAck(false) !in s.replies
  {
    hide Faithful, Plain, AllCarried, Wired, Accepted, Transferable, Step, Opening, StageInv;
    var opening, later := Opening(claim, h), Delivered(f.text, rest);
    var stream := Wired(f.text, opening) + rest;
    WiredDelivers(f.text, opening, rest);
    OpeningRun(f, cache, claim, h);
    RunConcat(f, Start(cache), opening, later);
    StaysAbout(f, Connect(f, cache, opening), h, later);
    OnlyTransferableHeadersLand(f, cache, stream);
    Reachable(f, cache, Delivered(f.text, stream));
  }
}
