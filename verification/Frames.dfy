/** PMT1 binary frames (crates/transport/src/lib.rs): encoding, decoding, reading from a stream, duplicate rejection. */
module Frames {
  import opened Common

  datatype Frame = Frame(kind: Byte, flags: Byte, streamId: U32, frameIndex: U64, payload: seq<Byte>)

  const MAGIC: seq<Byte> := [0x50, 0x4D, 0x54, 0x31]
  const VERSION: U16 := 1
  const HEADER_LEN: nat := 28

  /** The checksum is a foreign function. */
  type Checksum = seq<Byte> -> U32

  /** The first 20 bytes: everything before the payload length. */
  function Prefix(f: Frame): (bytes: seq<Byte>)
    ensures |bytes| == 20
  {
    MAGIC + BigEndian(VERSION, 2) + [f.kind, f.flags] + BigEndian(f.streamId, 4) + BigEndian(f.frameIndex, 8)
  }

  /** A frame on the wire. */
  function Wire(crc: Checksum, f: Frame): (bytes: seq<Byte>)
    ensures |bytes| == HEADER_LEN + |f.payload|
  {
    Prefix(f) + BigEndian(|f.payload|, 4) + BigEndian(crc(f.payload), 4) + f.payload
  }

  /** `encode_binary_frame`. */
  method EncodeBinaryFrame(crc: Checksum, f: Frame, maxFrameBytes: U32) returns (r: Result<seq<Byte>>)
    ensures r.Success? <==> |f.payload| <= maxFrameBytes
    ensures r.Success? ==> r.value == Wire(crc, f)
  {
    if |f.payload| > maxFrameBytes {
      return Failure("binary frame payload exceeds configured maximum");
    }
    var out: seq<Byte> := MAGIC;
    out := out + BigEndian(VERSION, 2);
    out := out + [f.kind];
    out := out + [f.flags];
    out := out + BigEndian(f.streamId, 4);
    out := out + BigEndian(f.frameIndex, 8);
    out := out + BigEndian(|f.payload|, 4);
    out := out + BigEndian(crc(f.payload), 4);
    out := out + f.payload;
    assert out == Wire(crc, f);
    return Success(out);
  }

  /** A big-endian field at a position, with the bound its width gives. */
  function Field(buffer: seq<Byte>, at: nat, width: nat): (n: nat)
    requires at + width <= |buffer|
    ensures n < Pow256(width)
  {
    BigEndianBytes(buffer[at..at + width]);
    FromBigEndian(buffer[at..at + width])
  }

  /** The fields of a buffer that starts with a frame. */
  lemma FieldsOfWire(crc: Checksum, f: Frame, rest: seq<Byte>)
    requires |f.payload| < U32_LIMIT
    ensures var w := Wire(crc, f) + rest;
            && w[..4] == MAGIC && Field(w, 4, 2) == VERSION
            && w[6] == f.kind && w[7] == f.flags
            && Field(w, 8, 4) == f.streamId && Field(w, 12, 8) == f.frameIndex
            && Field(w, 20, 4) == |f.payload| && Field(w, 24, 4) == crc(f.payload)
            && w[28..28 + |f.payload|] == f.payload && w[28 + |f.payload|..] == rest
  {
    var w := Wire(crc, f) + rest;
    SlicesOfWire(crc, f, rest);
    Pow256Values();
    FieldIs(w, 4, 2, VERSION);
    FieldIs(w, 8, 4, f.streamId);
    FieldIs(w, 12, 8, f.frameIndex);
    FieldIs(w, 20, 4, |f.payload|);
    FieldIs(w, 24, 4, crc(f.payload));
  }

  /**
   A frame, byte by byte: "PMT1", version 1, kind, flags, then stream, index, payload length and checksum in network order,
   and the payload.
   */
  lemma WireExactly(crc: Checksum, f: Frame)
    requires |f.payload| < 0x1_0000_0000
    ensures var w := Wire(crc, f);
            && |w| == 28 + |f.payload|
            && w[..8] == [0x50, 0x4D, 0x54, 0x31, 0, 1, f.kind, f.flags]
            && w[8] as int * 0x100_0000 + w[9] as int * 0x1_0000 + w[10] as int * 0x100 + w[11] == f.streamId
            && (w[12] as int * 0x100_0000 + w[13] as int * 0x1_0000 + w[14] as int * 0x100 + w[15]) * 0x1_0000_0000
               + w[16] as int * 0x100_0000 + w[17] as int * 0x1_0000 + w[18] as int * 0x100 + w[19] == f.frameIndex
            && w[20] as int * 0x100_0000 + w[21] as int * 0x1_0000 + w[22] as int * 0x100 + w[23] == |f.payload|
            && w[24] as int * 0x100_0000 + w[25] as int * 0x1_0000 + w[26] as int * 0x100 + w[27] == crc(f.payload)
            && w[28..] == f.payload
  {
    var w := Wire(crc, f);
    FieldsOfWire(crc, f, []);
    assert w + [] == w;
    FourBytes(w[8..12]);
    EightBytes(w[12..20]);
    FourBytes(w[20..24]);
    FourBytes(w[24..28]);
    VersionBytes(w);
    hide Wire, FromBigEndian;
    assert w[..8] == w[..4] + w[4..8];
  }

  lemma VersionBytes(w: seq<Byte>)
    requires |w| >= 8 && Field(w, 4, 2) == 1
    ensures w[4] == 0 && w[5] == 1
  {
    TwoBytes(w[4..6]);
  }

  lemma FieldIs(buffer: seq<Byte>, at: nat, width: nat, n: nat)
    requires at + width <= |buffer| && buffer[at..at + width] == BigEndian(n, width) && n < Pow256(width)
    ensures Field(buffer, at, width) == n
  {
    BigEndianFits(n, width);
  }

  lemma SlicesOfWire(crc: Checksum, f: Frame, rest: seq<Byte>)
    ensures var w := Wire(crc, f) + rest;
            && w[..4] == MAGIC && w[4..6] == BigEndian(VERSION, 2) && w[6] == f.kind && w[7] == f.flags
            && w[8..12] == BigEndian(f.streamId, 4) && w[12..20] == BigEndian(f.frameIndex, 8)
            && w[20..24] == BigEndian(|f.payload|, 4) && w[24..28] == BigEndian(crc(f.payload), 4)
            && w[28..28 + |f.payload|] == f.payload && w[28 + |f.payload|..] == rest
  {
    var p := Prefix(f);
    assert p[..4] == MAGIC && p[4..6] == BigEndian(VERSION, 2) && p[6] == f.kind && p[7] == f.flags
           && p[8..12] == BigEndian(f.streamId, 4) && p[12..20] == BigEndian(f.frameIndex, 8);
    var w := Wire(crc, f) + rest;
    assert w[..20] == p;
    assert w[..4] == p[..4] && w[4..6] == p[4..6] && w[8..12] == p[8..12] && w[12..20] == p[12..20];
  }

  /** Conversely, a buffer with such fields is a frame on the wire. */
  lemma WireOfFields(crc: Checksum, buffer: seq<Byte>, f: Frame)
    requires |buffer| == 28 + |f.payload| && |f.payload| < U32_LIMIT
    requires buffer[..4] == MAGIC && Field(buffer, 4, 2) == VERSION
    requires buffer[6] == f.kind && buffer[7] == f.flags
    requires Field(buffer, 8, 4) == f.streamId && Field(buffer, 12, 8) == f.frameIndex
    requires Field(buffer, 20, 4) == |f.payload| && Field(buffer, 24, 4) == crc(f.payload)
    requires buffer[28..] == f.payload
    ensures Wire(crc, f) == buffer
  {
    BigEndianBytes(buffer[4..6]);
    BigEndianBytes(buffer[8..12]);
    BigEndianBytes(buffer[12..20]);
    BigEndianBytes(buffer[20..24]);
    BigEndianBytes(buffer[24..28]);
    assert buffer == buffer[..4] + buffer[4..6] + [buffer[6], buffer[7]] + buffer[8..12] + buffer[12..20]
                     + buffer[20..24] + buffer[24..28] + buffer[28..];
  }

  /** Frames are self-delimiting: a stream starts with at most one frame. */
  lemma WireIsPrefixFree(crc: Checksum, f: Frame, rest: seq<Byte>, f': Frame, rest': seq<Byte>)
    requires |f.payload| < U32_LIMIT && |f'.payload| < U32_LIMIT
    requires Wire(crc, f) + rest == Wire(crc, f') + rest'
    ensures f == f' && rest == rest'
  {
    FieldsOfWire(crc, f, rest);
    FieldsOfWire(crc, f', rest');
  }

  /** `read_u16`, `read_u32` and `read_u64`: one field, and the cursor moved past it. */
  method ReadField(buffer: seq<Byte>, cursor: nat, width: nat) returns (r: Result<nat>, next: nat)
    ensures r.Success? <==> cursor + width <= |buffer|
    ensures r.Success? ==> r.value == Field(buffer, cursor, width) && r.value < Pow256(width) && next == cursor + width
  {
    if cursor + width > |buffer| {
      return Failure("Frame truncated"), cursor;
    }
    BigEndianBytes(buffer[cursor..cursor + width]);
    return Success(FromBigEndian(buffer[cursor..cursor + width])), cursor + width;
  }

  /** Decoding is the exact inverse of encoding: it succeeds precisely on buffers some frame within the bound encodes to. */
  method DecodeBinaryFrame(crc: Checksum, buffer: seq<Byte>, maxFrameBytes: U32) returns (r: Result<Frame>)
    ensures r.Success? ==> |r.value.payload| <= maxFrameBytes && Wire(crc, r.value) == buffer
    ensures r.Failure? ==> forall f: Frame | |f.payload| <= maxFrameBytes :: Wire(crc, f) != buffer
  {
    forall f: Frame | |f.payload| <= maxFrameBytes && Wire(crc, f) == buffer
      ensures && |buffer| == 28 + |f.payload| && buffer[..4] == MAGIC && Field(buffer, 4, 2) == VERSION
              && Field(buffer, 20, 4) == |f.payload| && Field(buffer, 24, 4) == crc(f.payload) && buffer[28..] == f.payload
    {
      FieldsOfWire(crc, f, []);
      assert Wire(crc, f) + [] == buffer;
    }
    if |buffer| < HEADER_LEN {
      return Failure("binary frame is too short");
    }
    if buffer[..4] != MAGIC {
      return Failure("invalid binary frame magic");
    }
    Pow256Values();
    var cursor := 4;
    var version, streamId, frameIndex, payloadLen, payloadCrc;
    version, cursor := ReadField(buffer, cursor, 2);
    if version.value != VERSION {
      return Failure("unsupported binary frame version");
    }
    var kind := buffer[cursor];
    cursor := cursor + 1;
    var flags := buffer[cursor];
    cursor := cursor + 1;
    streamId, cursor := ReadField(buffer, cursor, 4);
    frameIndex, cursor := ReadField(buffer, cursor, 8);
    payloadLen, cursor := ReadField(buffer, cursor, 4);
    if payloadLen.value > maxFrameBytes {
      return Failure("binary frame payload exceeds configured maximum");
    }
    payloadCrc, cursor := ReadField(buffer, cursor, 4);
    if cursor + payloadLen.value != |buffer| {
      return Failure("binary frame payload length does not match frame size");
    }
    var payload := buffer[cursor..];
    if crc(payload) != payloadCrc.value {
      return Failure("binary frame CRC32 mismatch");
    }
    var f := Frame(kind, flags, streamId.value, frameIndex.value, payload);
    WireOfFields(crc, buffer, f);
    return Success(f);
  }

  /** Bytes that have arrived and not been read. */
  class Reader {
    var pending: seq<Byte>

    constructor (pending: seq<Byte>)
      ensures this.pending == pending
    {
      this.pending := pending;
    }

    /** `read_exact`: all the bytes asked for, or an error at the end of the stream. */
    method ReadExact(n: nat) returns (r: Result<seq<Byte>>)
      modifies this
      ensures r.Success? <==> n <= |old(pending)|
      ensures r.Success? ==> r.value == old(pending)[..n] && pending == old(pending)[n..]
    {
      if n > |pending| {
        pending := [];
        return Failure("unexpected end of stream");
      }
      r := Success(pending[..n]);
      pending := pending[n..];
    }
  }

  /** The stream starts with a frame within the bound. */
  ghost predicate StartsWithFrame(crc: Checksum, stream: seq<Byte>, maxFrameBytes: U32)
  {
    exists f: Frame :: |f.payload| <= maxFrameBytes && Wire(crc, f) <= stream
  }

  lemma StreamFields(crc: Checksum, stream: seq<Byte>, f: Frame)
    requires Wire(crc, f) <= stream && |f.payload| < U32_LIMIT
    ensures |stream| >= 28 + |f.payload| && stream[..4] == MAGIC && Field(stream, 4, 2) == VERSION
    ensures Field(stream, 20, 4) == |f.payload| && stream[..28 + |f.payload|] == Wire(crc, f)
  {
    var rest := stream[|Wire(crc, f)|..];
    assert stream == Wire(crc, f) + rest;
    FieldsOfWire(crc, f, rest);
  }

  /** `recv_binary_frame`: takes exactly one frame off the stream, or fails because the stream does not start with one. */
  method RecvBinaryFrame(crc: Checksum, reader: Reader, maxFrameBytes: U32) returns (r: Result<Frame>)
    modifies reader
    ensures r.Success? <==> StartsWithFrame(crc, old(reader.pending), maxFrameBytes)
    ensures r.Success? ==> |r.value.payload| <= maxFrameBytes && old(reader.pending) == Wire(crc, r.value) + reader.pending
  {
    ghost var stream := reader.pending;
    forall f: Frame | |f.payload| <= maxFrameBytes && Wire(crc, f) <= stream
      ensures && |stream| >= 28 + |f.payload| && stream[..4] == MAGIC && Field(stream, 4, 2) == VERSION
              && Field(stream, 20, 4) == |f.payload| && stream[..28 + |f.payload|] == Wire(crc, f)
    {
      StreamFields(crc, stream, f);
    }
    var header := reader.ReadExact(HEADER_LEN);
    if header.Failure? {
      return Failure("failed to read binary frame header");
    }
    var buffer := header.value;
    assert buffer[..4] == stream[..4] && buffer[4..6] == stream[4..6] && buffer[20..24] == stream[20..24];
    if buffer[..4] != MAGIC {
      return Failure("invalid binary frame magic");
    }
    var version, cursor := ReadField(buffer, 4, 2);
    if version.value != VERSION {
      return Failure("unsupported binary frame version");
    }
    var payloadLen;
    payloadLen, cursor := ReadField(buffer, 20, 4);
    if payloadLen.value > maxFrameBytes {
      return Failure("binary frame payload exceeds configured maximum");
    }
    var payload := reader.ReadExact(payloadLen.value);
    if payload.Failure? {
      return Failure("failed to read binary frame payload");
    }
    buffer := buffer + payload.value;
    assert buffer == stream[..28 + payloadLen.value];
    assert stream == buffer + reader.pending;
    r := DecodeBinaryFrame(crc, buffer, maxFrameBytes);
  }

  /** Frames written one after the other. */
  function Stream(crc: Checksum, frames: seq<Frame>): seq<Byte>
  {
    if frames == [] then [] else Wire(crc, frames[0]) + Stream(crc, frames[1..])
  }

  lemma {:induction false} StreamAppend(crc: Checksum, frames: seq<Frame>, f: Frame)
    ensures Stream(crc, frames + [f]) == Stream(crc, frames) + Wire(crc, f)
  {
    if frames == [] {
      assert Stream(crc, [f]) == Wire(crc, f) + Stream(crc, [f][1..]);
      assert frames + [f] == [f];
    } else {
      assert (frames + [f])[1..] == frames[1..] + [f];
      StreamAppend(crc, frames[1..], f);
    }
  }

  lemma OneFrameMore(crc: Checksum, frames: seq<Frame>, f: Frame, left: seq<Byte>, left': seq<Byte>)
    requires left == Wire(crc, f) + left'
    ensures Stream(crc, frames) + left == Stream(crc, frames + [f]) + left'
    ensures |left'| < |left|
  {
    StreamAppend(crc, frames, f);
  }

  predicate Bounded(frames: seq<Frame>, maxFrameBytes: U32)
  {
    forall i | 0 <= i < |frames| :: |frames[i].payload| <= maxFrameBytes
  }

  /** Reads frames until the stream no longer starts with one. */
  method ReceiveFrames(crc: Checksum, reader: Reader, maxFrameBytes: U32) returns (frames: seq<Frame>, ghost left: seq<Byte>)
    modifies reader
    ensures Bounded(frames, maxFrameBytes)
    ensures old(reader.pending) == Stream(crc, frames) + left
    ensures !StartsWithFrame(crc, left, maxFrameBytes)
  {
    frames, left := [], reader.pending;
    while true
      invariant Bounded(frames, maxFrameBytes)
      invariant old(reader.pending) == Stream(crc, frames) + left && left == reader.pending
      decreases |left|
    {
      var r := RecvBinaryFrame(crc, reader, maxFrameBytes);
      if r.Failure? {
        return;
      }
      OneFrameMore(crc, frames, r.value, left, reader.pending);
      frames, left := frames + [r.value], reader.pending;
    }
  }

  /** What is read off a concatenation of frames is exactly that list of frames, with nothing left over. */
  lemma {:induction false} StreamIsUnique(crc: Checksum, sent: seq<Frame>, got: seq<Frame>, left: seq<Byte>, maxFrameBytes: U32)
    requires Bounded(sent, maxFrameBytes) && Bounded(got, maxFrameBytes)
    requires Stream(crc, sent) == Stream(crc, got) + left && !StartsWithFrame(crc, left, maxFrameBytes)
    ensures got == sent && left == []
    decreases |sent| + |got|
  {
    hide Wire, StartsWithFrame;
    if sent != [] && got != [] {
      var sentRest, gotRest := Stream(crc, sent[1..]), Stream(crc, got[1..]) + left;
      assert Wire(crc, sent[0]) + sentRest == Wire(crc, got[0]) + gotRest;
      WireIsPrefixFree(crc, sent[0], sentRest, got[0], gotRest);
      StreamIsUnique(crc, sent[1..], got[1..], left, maxFrameBytes);
      assert sent == [sent[0]] + sent[1..] && got == [got[0]] + got[1..];
    } else if sent != [] {
      assert [] + left == left;
      StreamStarts(crc, sent, maxFrameBytes);
    } else if got != [] {
      StreamStarts(crc, got, maxFrameBytes);
    }
  }

  /** Frames within the bound, written one after the other and read back: exactly those frames. */
  method ReceiveSent(crc: Checksum, sent: seq<Frame>, maxFrameBytes: U32) returns (frames: seq<Frame>)
    requires Bounded(sent, maxFrameBytes)
    ensures frames == sent
  {
    var bytes := [];
    for i := 0 to |sent|
      invariant bytes == Stream(crc, sent[..i])
    {
      var frame := EncodeBinaryFrame(crc, sent[i], maxFrameBytes);
      assert sent[..i + 1] == sent[..i] + [sent[i]];
      StreamAppend(crc, sent[..i], sent[i]);
      bytes := bytes + frame.value;
    }
    assert sent[..|sent|] == sent;
    var reader := new Reader(bytes);
    ghost var left;
    frames, left := ReceiveFrames(crc, reader, maxFrameBytes);
    StreamIsUnique(crc, sent, frames, left, maxFrameBytes);
  }

  lemma StreamStarts(crc: Checksum, frames: seq<Frame>, maxFrameBytes: U32)
    requires Bounded(frames, maxFrameBytes) && frames != []
    ensures StartsWithFrame(crc, Stream(crc, frames), maxFrameBytes) && |Stream(crc, frames)| > 0
  {
    assert Wire(crc, frames[0]) <= Stream(crc, frames);
  }

  type FrameKey = (U32, U64)

  function KeyOf(f: Frame): FrameKey { (f.streamId, f.frameIndex) }

  class BinaryFrameValidator {
    const maxFrameBytes: U32
    var seen: set<FrameKey>

    constructor (maxFrameBytes: U32)
      ensures this.maxFrameBytes == maxFrameBytes && seen == {}
    {
      this.maxFrameBytes, seen := maxFrameBytes, {};
    }

    method Accept(f: Frame) returns (ok: bool)
      modifies this
      ensures ok <==> |f.payload| <= maxFrameBytes && (f.streamId, f.frameIndex) !in old(seen)
      ensures seen == if ok then old(seen) + {(f.streamId, f.frameIndex)} else old(seen)
    {
      if |f.payload| > maxFrameBytes {
        return false;
      }
      if KeyOf(f) in seen {
        return false;
      }
      seen := seen + {KeyOf(f)};
      return true;
    }
  }

  /** The frames a fresh validator accepts out of a run: those within the bound whose key was not accepted before. */
  function AcceptedOf(frames: seq<Frame>, maxFrameBytes: U32): seq<Frame>
  {
    if frames == [] then []
    else
      var before, last := AcceptedOf(frames[..|frames| - 1], maxFrameBytes), frames[|frames| - 1];
      if |last.payload| <= maxFrameBytes && (forall i | 0 <= i < |before| :: KeyOf(before[i]) != KeyOf(last))
      then before + [last] else before
  }

  /** Over every run no (stream, index) pair is accepted twice, and only frames of the run within the bound are accepted. */
  lemma {:induction false} NoFrameTwice(frames: seq<Frame>, maxFrameBytes: U32)
    ensures var accepted := AcceptedOf(frames, maxFrameBytes);
            && (forall i, j | 0 <= i < j < |accepted| ::
                  accepted[i].streamId != accepted[j].streamId || accepted[i].frameIndex != accepted[j].frameIndex)
            && (forall f <- accepted :: f in frames && |f.payload| <= maxFrameBytes)
  {
    if frames == [] {
    } else {
      NoFrameTwice(frames[..|frames| - 1], maxFrameBytes);
    }
  }

  /** Conversely a frame within the bound is lost only to an accepted frame with the same pair. */
  lemma {:induction false} NoFrameLost(frames: seq<Frame>, maxFrameBytes: U32, k: nat)
    requires k < |frames| && |frames[k].payload| <= maxFrameBytes
    ensures exists i | 0 <= i < |AcceptedOf(frames, maxFrameBytes)| ::
              KeyOf(AcceptedOf(frames, maxFrameBytes)[i]) == KeyOf(frames[k])
  {
    var before := frames[..|frames| - 1];
    var was, now := AcceptedOf(before, maxFrameBytes), AcceptedOf(frames, maxFrameBytes);
    if k < |before| {
      NoFrameLost(before, maxFrameBytes, k);
      var i :| 0 <= i < |was| && KeyOf(was[i]) == KeyOf(frames[k]);
      assert now[i] == was[i];
    } else if now == was {
      var i :| 0 <= i < |was| && KeyOf(was[i]) == KeyOf(frames[k]);
      assert now[i] == was[i];
    } else {
      assert now[|was|] == frames[k];
    }
  }

  /** Runs a fresh validator over a list of frames. */
  method ValidateAll(frames: seq<Frame>, maxFrameBytes: U32) returns (accepted: seq<Frame>)
    ensures accepted == AcceptedOf(frames, maxFrameBytes)
  {
    var validator := new BinaryFrameValidator(maxFrameBytes);
    accepted := [];
    for i := 0 to |frames|
      invariant fresh(validator) && validator.maxFrameBytes == maxFrameBytes
      invariant accepted == AcceptedOf(frames[..i], maxFrameBytes)
      invariant validator.seen == set k | k in Keys(accepted)
    {
      assert frames[..i + 1][..i] == frames[..i];
      ghost var before := accepted;
      assert forall j | 0 <= j < |before| :: Keys(before)[j] == KeyOf(before[j]);
      var ok := validator.Accept(frames[i]);
      if ok {
        accepted := accepted + [frames[i]];
        assert Keys(accepted) == Keys(before) + [KeyOf(frames[i])];
      }
    }
    assert frames[..|frames|] == frames;
  }

  ghost function Keys(frames: seq<Frame>): seq<FrameKey>
  {
    seq(|frames|, i requires 0 <= i < |frames| => KeyOf(frames[i]))
  }
}
