/** Payload-chunk messages on the wire (crates/transport/src/lib.rs): length-prefixed fields and an optional codec trailer. */
module ChunkWire {
  import opened Common
  import opened Messages
  import Frames

  /** UTF-8 is a bijection onto the valid byte strings; JSON reads back what it wrote. */
  ghost predicate Faithful(t: Text)
  {
    && (forall s :: t.fromUtf8(t.utf8(s)) == Some(s))
    && (forall b, s :: t.fromUtf8(b) == Some(s) ==> t.utf8(s) == b)
    && (forall c :: t.fromJson(t.json(c)) == Some(c))
  }

  function Trailer(codec: Option<seq<Byte>>): seq<Byte>
  {
    if codec.None? then [] else BigEndian(|codec.value|, 4) + codec.value
  }

  /** The fields of a chunk after the kind byte. */
  datatype Parts = Parts(chunk: U32, layer: U32, name: seq<Byte>, crc32: U32, data: seq<Byte>, codec: Option<seq<Byte>>)

  /** Their bytes; lengths are cast to u32. */
  function Body(p: Parts): (bytes: seq<Byte>)
    ensures |bytes| == 20 + |p.name| + |p.data| + |Trailer(p.codec)|
  {
    Head(p.chunk, p.layer, |p.name|) + p.name + Middle(p.crc32, |p.data|) + p.data + Trailer(p.codec)
  }

  /** The fields before the name, and those before the data. */
  function Head(chunk: nat, layer: nat, nameLen: nat): (bytes: seq<Byte>)
    ensures |bytes| == 12
  {
    BigEndian(chunk, 4) + BigEndian(layer, 4) + BigEndian(nameLen, 4)
  }

  function Middle(crc32: nat, dataLen: nat): (bytes: seq<Byte>)
    ensures |bytes| == 8
  {
    BigEndian(crc32, 4) + BigEndian(dataLen, 4)
  }

  predicate Fits(p: Parts)
  {
    |p.name| < U32_LIMIT && |p.data| < U32_LIMIT && (p.codec.Some? ==> |p.codec.value| < U32_LIMIT)
  }

  lemma SlicesOfBody(p: Parts)
    ensures var w := Body(p);
            var n := 12 + |p.name|;
            var d := n + 8 + |p.data|;
            && w[0..4] == BigEndian(p.chunk, 4) && w[4..8] == BigEndian(p.layer, 4) && w[8..12] == BigEndian(|p.name|, 4)
            && w[12..n] == p.name
            && w[n..n + 4] == BigEndian(p.crc32, 4) && w[n + 4..n + 8] == BigEndian(|p.data|, 4)
            && w[n + 8..d] == p.data && w[d..] == Trailer(p.codec)
  {
    var front, back := Head(p.chunk, p.layer, |p.name|), Middle(p.crc32, |p.data|);
    var w := Body(p);
    var n := 12 + |p.name|;
    assert w[..12] == front;
    assert w[0..4] == front[0..4] && w[4..8] == front[4..8] && w[8..12] == front[8..12];
    assert w[n..n + 8] == back;
    assert w[n..n + 4] == back[0..4] && w[n + 4..n + 8] == back[4..8];
  }

  /**
   The fields of a chunk, byte by byte and in network order: block and layer, the length of the name and the name, the
   checksum, the length of the data and the data, and for a compressed chunk the length of the codec and the codec.
   */
  lemma BodyExactly(p: Parts)
    requires Fits(p)
    ensures var w, n := Body(p), 12 + |p.name|;
            var d := n + 8 + |p.data|;
            && w[0] as int * 0x100_0000 + w[1] as int * 0x1_0000 + w[2] as int * 0x100 + w[3] == p.chunk
            && w[4] as int * 0x100_0000 + w[5] as int * 0x1_0000 + w[6] as int * 0x100 + w[7] == p.layer
            && w[8] as int * 0x100_0000 + w[9] as int * 0x1_0000 + w[10] as int * 0x100 + w[11] == |p.name|
            && w[12..n] == p.name
            && w[n] as int * 0x100_0000 + w[n + 1] as int * 0x1_0000 + w[n + 2] as int * 0x100 + w[n + 3] == p.crc32
            && w[n + 4] as int * 0x100_0000 + w[n + 5] as int * 0x1_0000 + w[n + 6] as int * 0x100 + w[n + 7] == |p.data|
            && w[n + 8..d] == p.data
            && (p.codec.None? ==> |w| == d)
            && (p.codec.Some? ==>
                  && |w| == d + 4 + |p.codec.value| && w[d + 4..] == p.codec.value
                  && w[d] as int * 0x100_0000 + w[d + 1] as int * 0x1_0000 + w[d + 2] as int * 0x100 + w[d + 3] == |p.codec.value|)
  {
    BodyReads(p);
    hide Body, Reads;
    FrontExactly(Body(p), p);
    TrailerExactly(Body(p), p);
  }

  lemma FrontExactly(w: seq<Byte>, p: Parts)
    requires Reads(w, p)
    ensures var n := 12 + |p.name|;
            var d := n + 8 + |p.data|;
            && d <= |w|
            && w[0] as int * 0x100_0000 + w[1] as int * 0x1_0000 + w[2] as int * 0x100 + w[3] == p.chunk
            && w[4] as int * 0x100_0000 + w[5] as int * 0x1_0000 + w[6] as int * 0x100 + w[7] == p.layer
            && w[8] as int * 0x100_0000 + w[9] as int * 0x1_0000 + w[10] as int * 0x100 + w[11] == |p.name|
            && w[12..n] == p.name
            && w[n] as int * 0x100_0000 + w[n + 1] as int * 0x1_0000 + w[n + 2] as int * 0x100 + w[n + 3] == p.crc32
            && w[n + 4] as int * 0x100_0000 + w[n + 5] as int * 0x1_0000 + w[n + 6] as int * 0x100 + w[n + 7] == |p.data|
            && w[n + 8..d] == p.data
  {
    var n := 12 + |p.name|;
    FieldBytesExactly(w, 0);
    FieldBytesExactly(w, 4);
    FieldBytesExactly(w, 8);
    FieldBytesExactly(w, n);
    FieldBytesExactly(w, n + 4);
    hide Frames.Field;
  }

  lemma TrailerExactly(w: seq<Byte>, p: Parts)
    requires Reads(w, p)
    ensures var d := 20 + |p.name| + |p.data|;
            && (p.codec.None? ==> |w| == d)
            && (p.codec.Some? ==>
                  && |w| == d + 4 + |p.codec.value| && w[d + 4..] == p.codec.value
                  && w[d] as int * 0x100_0000 + w[d + 1] as int * 0x1_0000 + w[d + 2] as int * 0x100 + w[d + 3] == |p.codec.value|)
  {
    var d := 20 + |p.name| + |p.data|;
    if p.codec.Some? {
      FieldBytesExactly(w, d);
    }
    hide Frames.Field;
  }

  lemma FieldBytesExactly(w: seq<Byte>, at: nat)
    requires at + 4 <= |w|
    ensures Frames.Field(w, at, 4) == w[at] as int * 0x100_0000 + w[at + 1] as int * 0x1_0000 + w[at + 2] as int * 0x100 + w[at + 3]
  {
    hide FromBigEndian;
    FourBytes(w[at..at + 4]);
  }

  /** Where the data ends. */
  function DataEnd(p: Parts): nat { 20 + |p.name| + |p.data| }

  /** What a reader finds at each position up to the end of the data. */
  ghost predicate ReadsFront(w: seq<Byte>, p: Parts)
  {
    && DataEnd(p) <= |w|
    && Frames.Field(w, 0, 4) == p.chunk && Frames.Field(w, 4, 4) == p.layer && Frames.Field(w, 8, 4) == |p.name|
    && var n := 12 + |p.name|;
       && w[12..n] == p.name
       && Frames.Field(w, n, 4) == p.crc32 && Frames.Field(w, n + 4, 4) == |p.data|
       && w[n + 8..DataEnd(p)] == p.data
  }

  ghost predicate Reads(w: seq<Byte>, p: Parts)
  {
    ReadsFront(w, p) && ReadsTrailer(w, DataEnd(p), p.codec)
  }

  /** The message ends after its data, or with one more length-prefixed field. */
  ghost predicate ReadsTrailer(w: seq<Byte>, d: nat, codec: Option<seq<Byte>>)
    requires d <= |w|
  {
    if codec.None? then d == |w|
    else d + 4 <= |w| && Frames.Field(w, d, 4) == |codec.value| && w[d + 4..] == codec.value
  }

  /** A byte string is the body of some parts that fit exactly when it reads as them. */
  lemma BodyReads(p: Parts)
    requires Fits(p)
    ensures Reads(Body(p), p)
  {
    var w := Body(p);
    SlicesOfBody(p);
    Pow256Values();
    var n, d := 12 + |p.name|, DataEnd(p);
    Frames.FieldIs(w, 0, 4, p.chunk);
    Frames.FieldIs(w, 4, 4, p.layer);
    Frames.FieldIs(w, 8, 4, |p.name|);
    Frames.FieldIs(w, n, 4, p.crc32);
    Frames.FieldIs(w, n + 4, 4, |p.data|);
    if p.codec.Some? {
      assert w[d..d + 4] == Trailer(p.codec)[..4];
      Frames.FieldIs(w, d, 4, |p.codec.value|);
      assert w[d + 4..] == Trailer(p.codec)[4..];
    }
  }

  lemma ReadsIsBody(w: seq<Byte>, p: Parts)
    requires Reads(w, p)
    ensures Fits(p) && w == Body(p)
  {
    Pow256Values();
    var n, d := 12 + |p.name|, DataEnd(p);
    HeadBytes(w);
    MiddleBytes(w, n);
    TrailerBytes(w, d, p.codec);
    Pieces(w, n, d);
  }

  lemma HeadBytes(w: seq<Byte>)
    requires 12 <= |w|
    ensures w[..12] == Head(Frames.Field(w, 0, 4), Frames.Field(w, 4, 4), Frames.Field(w, 8, 4))
  {
    hide BigEndian, Frames.Field;
    FieldBytes(w, 0, 4);
    FieldBytes(w, 4, 4);
    FieldBytes(w, 8, 4);
    assert w[..12] == w[0..4] + w[4..8] + w[8..12];
  }

  lemma MiddleBytes(w: seq<Byte>, n: nat)
    requires n + 8 <= |w|
    ensures w[n..n + 8] == Middle(Frames.Field(w, n, 4), Frames.Field(w, n + 4, 4))
  {
    FieldBytes(w, n, 4);
    FieldBytes(w, n + 4, 4);
    assert w[n..n + 8] == w[n..n + 4] + w[n + 4..n + 8];
  }

  lemma Pieces(w: seq<Byte>, n: nat, d: nat)
    requires 12 <= n && n + 8 <= d <= |w|
    ensures w == w[..12] + w[12..n] + w[n..n + 8] + w[n + 8..d] + w[d..]
  {
  }

  lemma FieldBytes(w: seq<Byte>, at: nat, width: nat)
    requires at + width <= |w|
    ensures w[at..at + width] == BigEndian(Frames.Field(w, at, width), width)
  {
    BigEndianBytes(w[at..at + width]);
  }

  lemma TrailerBytes(w: seq<Byte>, d: nat, codec: Option<seq<Byte>>)
    requires d <= |w| && ReadsTrailer(w, d, codec)
    ensures w[d..] == Trailer(codec)
    ensures codec.Some? ==> |codec.value| < Pow256(4)
  {
    if codec.Some? {
      FieldBytes(w, d, 4);
      assert w[d..] == w[d..d + 4] + w[d + 4..];
    }
  }

  /** A reading is unique: in particular a missing trailer is never taken for a present one, nor the reverse. */
  lemma ReadingIsUnique(w: seq<Byte>, p: Parts, q: Parts)
    requires Reads(w, p) && Reads(w, q)
    ensures p == q
  {
  }

  /** The message that parts stand for, if their text decodes. */
  function Meaning(t: Text, p: Parts): Option<Message>
  {
    var name := t.fromUtf8(p.name);
    if name.None? then None
    else if p.codec.None? then Some(PayloadChunk(p.chunk, p.layer, name.value, None, p.data, p.crc32))
    else
      var codec := t.fromJson(p.codec.value);
      if codec.None? then None else Some(PayloadChunk(p.chunk, p.layer, name.value, codec, p.data, p.crc32))
  }

  lemma MeaningFields(t: Text, p: Parts, m: Message)
    requires Faithful(t) && Meaning(t, p) == Some(m)
    ensures m.PayloadChunk? && m.data == p.data && t.utf8(m.name) == p.name
  {
    assert t.fromUtf8(p.name) == Some(m.name);
  }

  /** The first half of `decode_payload_chunk`: every field up to the end of the data. */
  method DecodeFront(t: Text, buffer: seq<Byte>) returns (r: Result<Message>, dataEnd: nat, ghost parts: Parts)
    ensures r.Success? ==>
              && parts.codec == None && ReadsFront(buffer, parts) && DataEnd(parts) == dataEnd
              && t.fromUtf8(parts.name).Some?
              && r.value == PayloadChunk(parts.chunk, parts.layer, t.fromUtf8(parts.name).value, None, parts.data, parts.crc32)
    ensures r.Failure? ==> forall p | ReadsFront(buffer, p) :: t.fromUtf8(p.name) == None
  {
    Pow256Values();
    parts, dataEnd := Parts(0, 0, [], 0, [], None), 0;
    var cursor := 0;
    var chunk, layer, nameLen, crc32, dataLen;
    chunk, cursor := Frames.ReadField(buffer, cursor, 4);
    if chunk.Failure? { return Failure(chunk.error), dataEnd, parts; }
    layer, cursor := Frames.ReadField(buffer, cursor, 4);
    if layer.Failure? { return Failure(layer.error), dataEnd, parts; }
    nameLen, cursor := Frames.ReadField(buffer, cursor, 4);
    if nameLen.Failure? { return Failure(nameLen.error), dataEnd, parts; }
    var nameEnd := cursor + nameLen.value;
    if nameEnd > |buffer| { return Failure("tensor name exceeds frame length"), dataEnd, parts; }
    var nameBytes := buffer[cursor..nameEnd];
    var name := t.fromUtf8(nameBytes);
    if name.None? { return Failure("tensor name is not valid UTF-8"), dataEnd, parts; }
    cursor := nameEnd;
    crc32, cursor := Frames.ReadField(buffer, cursor, 4);
    if crc32.Failure? { return Failure(crc32.error), dataEnd, parts; }
    dataLen, cursor := Frames.ReadField(buffer, cursor, 4);
    if dataLen.Failure? { return Failure(dataLen.error), dataEnd, parts; }
    dataEnd := cursor + dataLen.value;
    if dataEnd > |buffer| { return Failure("data length does not match frame size"), dataEnd, parts; }
    var data := buffer[cursor..dataEnd];
    parts := Parts(chunk.value, layer.value, nameBytes, crc32.value, data, None);
    r := Success(PayloadChunk(chunk.value, layer.value, name.value, None, data, crc32.value));
  }

  /** Parts that start alike differ in their trailer only. */
  lemma FrontIsUnique(w: seq<Byte>, p: Parts, q: Parts)
    requires ReadsFront(w, p) && ReadsFront(w, q)
    ensures p.(codec := None) == q.(codec := None)
  {
  }

  /** `decode_payload_chunk`: succeeds exactly on bytes that read as parts with a meaning, and returns that meaning. */
  method DecodePayloadChunk(t: Text, buffer: seq<Byte>) returns (r: Result<Message>, ghost parts: Parts)
    ensures r.Success? ==> Reads(buffer, parts) && Meaning(t, parts) == Some(r.value)
    ensures r.Failure? ==> forall p | Reads(buffer, p) :: Meaning(t, p) == None
  {
    hide Frames.Field;
    var cursor;
    r, cursor, parts := DecodeFront(t, buffer);
    if r.Failure? || cursor == |buffer| {
      return;
    }
    ghost var front := parts;
    forall p | Reads(buffer, p)
      ensures p == front.(codec := p.codec) && p.codec.Some?
    {
      FrontIsUnique(buffer, p, front);
    }
    var codecLen;
    codecLen, cursor := Frames.ReadField(buffer, cursor, 4);
    if codecLen.Failure? {
      return Failure(codecLen.error), parts;
    }
    if cursor + codecLen.value != |buffer| {
      return Failure("codec metadata length does not match frame size"), parts;
    }
    var codecBytes := buffer[cursor..];
    parts := parts.(codec := Some(codecBytes));
    var codec := t.fromJson(codecBytes);
    if codec.None? {
      return Failure("codec metadata is invalid"), parts;
    }
    r := Success(r.value.(codec := codec));
  }

  const KIND_JSON: Byte := 0
  const KIND_PAYLOAD_CHUNK: Byte := 1

  /** What a chunk message is written as. */
  function PartsOf(t: Text, m: Message): Parts
    requires m.PayloadChunk?
  {
    Parts(m.chunk, m.layer, t.utf8(m.name), m.crc32, m.data, if m.codec.Some? then Some(t.json(m.codec.value)) else None)
  }

  /** A message on the wire: a chunk's fields, or JSON. */
  function Encoded(t: Text, m: Message): (bytes: seq<Byte>)
    ensures |bytes| > 0
  {
    if m.PayloadChunk? then [KIND_PAYLOAD_CHUNK] + Body(PartsOf(t, m)) else [KIND_JSON] + t.jsonMessage(m)
  }

  /** The message some bytes stand for: a chunk exactly if they read as fields with a meaning. */
  ghost function Decoded(t: Text, buffer: seq<Byte>): Option<Message>
  {
    if buffer == [] || buffer[0] > KIND_PAYLOAD_CHUNK then None
    else if buffer[0] == KIND_JSON then t.fromJsonMessage(buffer[1..])
    else if p: Parts :| Reads(buffer[1..], p) then Meaning(t, p)
    else None
  }

  /** `encode_message`. */
  method EncodeMessage(t: Text, m: Message) returns (out: seq<Byte>)
    ensures out == Encoded(t, m)
    ensures !m.PayloadChunk? ==> out == [0] + t.jsonMessage(m)
    ensures m.PayloadChunk? ==>
              && out[0] == 1
              && out[1..] == Body(Parts(m.chunk, m.layer, t.utf8(m.name), m.crc32, m.data,
                                        if m.codec.None? then None else Some(t.json(m.codec.value))))
  {
    hide BigEndian;
    if !m.PayloadChunk? {
      return [KIND_JSON] + t.jsonMessage(m);
    }
    var nameBytes := t.utf8(m.name);
    out := [KIND_PAYLOAD_CHUNK];
    out := out + BigEndian(m.chunk, 4);
    out := out + BigEndian(m.layer, 4);
    out := out + BigEndian(|nameBytes|, 4);
    assert out == [KIND_PAYLOAD_CHUNK] + Head(m.chunk, m.layer, |nameBytes|);
    out := out + nameBytes;
    var middle: seq<Byte> := BigEndian(m.crc32, 4);
    middle := middle + BigEndian(|m.data|, 4);
    out := out + middle;
    out := out + m.data;
    if m.codec.Some? {
      var codecJson := t.json(m.codec.value);
      var trailer: seq<Byte> := BigEndian(|codecJson|, 4);
      out := out + (trailer + codecJson);
    }
    assert out == [KIND_PAYLOAD_CHUNK] + Body(PartsOf(t, m));
  }

  /** Decoding a chunk is unambiguous. */
  lemma DecodedReads(t: Text, buffer: seq<Byte>, p: Parts)
    requires buffer != [] && buffer[0] == KIND_PAYLOAD_CHUNK && Reads(buffer[1..], p)
    ensures Decoded(t, buffer) == Meaning(t, p)
  {
    var q: Parts :| Reads(buffer[1..], q) && Decoded(t, buffer) == Meaning(t, q);
    ReadingIsUnique(buffer[1..], p, q);
  }

  /** `decode_message`. */
  method DecodeMessage(t: Text, buffer: seq<Byte>) returns (r: Result<Message>)
    ensures r.Success? <==> Decoded(t, buffer).Some?
    ensures r.Success? ==> Decoded(t, buffer) == Some(r.value)
    ensures buffer == [] || buffer[0] > 1 ==> r.Failure?
    ensures buffer != [] && buffer[0] == 0 ==>
              if t.fromJsonMessage(buffer[1..]).Some? then r == Success(t.fromJsonMessage(buffer[1..]).value) else r.Failure?
    ensures buffer != [] && buffer[0] == 1 && r.Success? ==> exists p :: Reads(buffer[1..], p) && Meaning(t, p) == Some(r.value)
    ensures buffer != [] && buffer[0] == 1 && r.Failure? ==> forall p | Reads(buffer[1..], p) :: Meaning(t, p) == None
  {
    hide Reads;
    if buffer == [] {
      return Failure("Empty frame");
    }
    if buffer[0] == KIND_JSON {
      var m := t.fromJsonMessage(buffer[1..]);
      return if m.Some? then Success(m.value) else Failure("Invalid JSON message");
    } else if buffer[0] == KIND_PAYLOAD_CHUNK {
      ghost var parts;
      r, parts := DecodePayloadChunk(t, buffer[1..]);
      if r.Success? {
        DecodedReads(t, buffer, parts);
      }
    } else {
      return Failure("Unknown frame kind");
    }
  }

  /** Decoding inverts encoding for a chunk message exactly when its name, data and codec lengths fit in 32 bits. */
  lemma RoundTripExactly(t: Text, m: Message)
    requires Faithful(t) && m.PayloadChunk?
    ensures Decoded(t, Encoded(t, m)) == Some(m) <==> Fits(PartsOf(t, m))
  {
    hide Reads, Fits;
    var p := PartsOf(t, m);
    assert Encoded(t, m)[1..] == Body(p);
    if Fits(p) {
      BodyReads(p);
      DecodedReads(t, Encoded(t, m), p);
    }
    if Decoded(t, Encoded(t, m)) == Some(m) {
      var q: Parts :| Reads(Body(p), q) && Meaning(t, q) == Some(m);
      OnlyFittingRoundTrips(t, m, q);
    }
  }

  /** If what was written reads back as the message, every length fitted in its 32-bit field. */
  lemma OnlyFittingRoundTrips(t: Text, m: Message, parts: Parts)
    requires Faithful(t) && m.PayloadChunk?
    requires Reads(Body(PartsOf(t, m)), parts) && Meaning(t, parts) == Some(m)
    ensures Fits(PartsOf(t, m))
  {
    ReadsIsBody(Body(PartsOf(t, m)), parts);
    assert t.fromUtf8(parts.name) == Some(m.name);
    assert parts.name == t.utf8(m.name);
  }

  /** `encode_message` followed by `decode_message`. */
  method RoundTrip(t: Text, m: Message) returns (same: bool)
    requires Faithful(t) && m.PayloadChunk?
    ensures same <==> Fits(PartsOf(t, m))
  {
    var bytes := EncodeMessage(t, m);
    var r := DecodeMessage(t, bytes);
    same := r == Success(m);
    RoundTripExactly(t, m);
  }
}
