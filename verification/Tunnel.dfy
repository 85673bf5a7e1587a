/**
 The WebSocket tunnel (adapters/production_transport_proxy.py): a byte stream cut into RFC 6455 binary frames,
 masked from the client side, and put together again by the peer.
 */
module Tunnel {
  import opened Common

  const BUFFER_SIZE: nat := 65536

  function Pow2(bits: nat): nat { if bits == 0 then 1 else 2 * Pow2(bits - 1) }

  /** Exclusive or of the low `bits` bits. */
  function Xor(a: nat, b: nat, bits: nat): (c: nat)
    ensures c < Pow2(bits)
  {
    if bits == 0 then 0 else 2 * Xor(a / 2, b / 2, bits - 1) + (a + b) % 2
  }

  lemma {:induction false} XorTwice(a: nat, b: nat, bits: nat)
    requires a < Pow2(bits)
    ensures Xor(Xor(a, b, bits), b, bits) == a
  {
    if bits == 0 {
    } else {
      XorTwice(a / 2, b / 2, bits - 1);
      LowBit(Xor(a / 2, b / 2, bits - 1), a, b);
    }
  }

  lemma LowBit(q: nat, a: nat, b: nat)
    ensures (2 * q + (a + b) % 2) / 2 == q && (2 * q + (a + b) % 2 + b) % 2 == a % 2
  {
  }

  lemma EightBits()
    ensures Pow2(8) == 0x100
  {
    assert Pow2(4) == 16;
    assert Pow2(8) == 2 * (2 * (2 * (2 * Pow2(4))));
  }

  /** A payload masked, or unmasked, with a four-byte key (section 5.3 of RFC 6455). */
  function Masked(payload: seq<Byte>, key: seq<Byte>): (masked: seq<Byte>)
    requires |key| == 4
    ensures |masked| == |payload|
  {
    EightBits();
    seq(|payload|, i requires 0 <= i < |payload| => Xor(payload[i], key[i % 4], 8))
  }

  lemma MaskedTwice(payload: seq<Byte>, key: seq<Byte>)
    requires |key| == 4
    ensures Masked(Masked(payload, key), key) == payload
  {
    EightBits();
    forall i | 0 <= i < |payload|
      ensures Masked(Masked(payload, key), key)[i] == payload[i]
    {
      XorTwice(payload[i], key[i % 4], 8);
    }
  }

  /** Bit `j` of an exclusive or is set exactly when one of the two bits is. */
  lemma {:induction false} XorBit(a: nat, b: nat, bits: nat, j: nat)
    requires j < bits && Pow2(j) > 0
    ensures Xor(a, b, bits) / Pow2(j) % 2 == (a / Pow2(j) + b / Pow2(j)) % 2
    decreases j
  {
    var q, r := Xor(a / 2, b / 2, bits - 1), (a + b) % 2;
    if j == 0 {
      LowBitOf(q, r);
    } else {
      var p := Pow2(j - 1);
      XorBit(a / 2, b / 2, bits - 1, j - 1);
      HalfFirst(2 * q + r, p);
      HalfFirst(a, p);
      HalfFirst(b, p);
      LowBitOf(q, r);
    }
  }

  lemma LowBitOf(q: nat, r: nat)
    requires r < 2
    ensures (2 * q + r) / 2 == q && (2 * q + r) / 1 % 2 == r
  {
  }

  lemma HalfFirst(n: nat, p: nat)
    requires p > 0
    ensures n / (2 * p) == n / 2 / p
  {
    var h, l := n / 2, n % 2;
    var q, r := h / p, h % p;
    assert n == q * (2 * p) + (2 * r + l);
    ModUnique(q, 2 * r + l, 2 * p);
  }

  /** The eight bit values of a byte. */
  lemma BitValues()
    ensures Pow2(0) == 1 && Pow2(1) == 2 && Pow2(2) == 4 && Pow2(3) == 8
    ensures Pow2(4) == 16 && Pow2(5) == 32 && Pow2(6) == 64 && Pow2(7) == 128
  {
  }

  /** Masking flips, in every byte of the payload, exactly the bits set in the key byte at its position modulo four. */
  lemma MaskingFlipsKeyBits(payload: seq<Byte>, key: seq<Byte>, i: nat, w: nat)
    requires |key| == 4 && i < |payload| && w in {1, 2, 4, 8, 16, 32, 64, 128}
    ensures Masked(payload, key)[i] / w % 2 != payload[i] / w % 2 <==> key[i % 4] / w % 2 == 1
  {
    BitValues();
    var j: nat :| j < 8 && Pow2(j) == w;
    XorBit(payload[i], key[i % 4], 8, j);
    OddSum(payload[i] / w, key[i % 4] / w);
  }

  predicate Bit(x: nat, w: nat)
    requires w > 0
  {
    x / w % 2 == 1
  }

  /** One byte is another with the bits of a third flipped. */
  predicate Xored(masked: Byte, plain: Byte, key: Byte)
  {
    forall w: nat | w in {1, 2, 4, 8, 16, 32, 64, 128} :: (Bit(masked, w) != Bit(plain, w)) == Bit(key, w)
  }

  lemma MaskedIsXored(payload: seq<Byte>, key: seq<Byte>, i: nat)
    requires |key| == 4 && i < |payload|
    ensures Xored(Masked(payload, key)[i], payload[i], key[i % 4])
  {
    forall w: nat | w in {1, 2, 4, 8, 16, 32, 64, 128}
      ensures (Bit(Masked(payload, key)[i], w) != Bit(payload[i], w)) == Bit(key[i % 4], w)
    {
      MaskingFlipsKeyBits(payload, key, i, w);
    }
  }

  lemma OddSum(a: int, b: int)
    ensures (a + b) % 2 != a % 2 <==> b % 2 == 1
  {
  }

  predicate ValidKey(key: Option<seq<Byte>>) { key.Some? ==> |key.value| == 4 }

  /** The number of extended length bytes the sender uses. */
  function LengthWidth(n: nat): nat
  {
    if n < 126 then 0 else if n <= 0xFFFF then 2 else 8
  }

  /** The second byte and the extended length. */
  function LengthField(n: nat, masked: bool): (bytes: seq<Byte>)
    ensures |bytes| == 1 + LengthWidth(n)
  {
    var bit := if masked then 0x80 else 0;
    if n < 126 then [bit + n]
    else if n <= 0xFFFF then [bit + 126] + BigEndian(n, 2)
    else [bit + 127] + BigEndian(n, 8)
  }

  function KeyBytes(key: Option<seq<Byte>>): seq<Byte> { if key.Some? then key.value else [] }

  function MaybeMasked(payload: seq<Byte>, key: Option<seq<Byte>>): (bytes: seq<Byte>)
    requires ValidKey(key)
    ensures |bytes| == |payload|
  {
    if key.Some? then Masked(payload, key.value) else payload
  }

  /** A final binary frame. */
  function WsFrame(payload: seq<Byte>, key: Option<seq<Byte>>): (bytes: seq<Byte>)
    requires ValidKey(key)
    ensures |bytes| == 2 + LengthWidth(|payload|) + |KeyBytes(key)| + |payload|
  {
    [0x82] + LengthField(|payload|, key.Some?) + KeyBytes(key) + MaybeMasked(payload, key)
  }

  datatype Received = Payload(bytes: seq<Byte>, rest: seq<Byte>) | Closed | BadOpcode | BadMask

  /** The extended length bytes the receiver reads. */
  function Extended(second: Byte): nat
  {
    if second % 0x80 == 126 then 2 else if second % 0x80 == 127 then 8 else 0
  }

  function PayloadLength(s: seq<Byte>): nat
    requires |s| >= 2 && |s| >= 2 + Extended(s[1])
  {
    if Extended(s[1]) == 0 then s[1] % 0x80 else FromBigEndian(s[2..2 + Extended(s[1])])
  }

  /** What `_recv_ws_frame` makes of the bytes that will arrive. */
  function Parse(s: seq<Byte>, expectMasked: bool): Received
  {
    if |s| < 2 then Closed
    else if s[0] % 0x10 == 0x8 then Closed
    else if s[0] % 0x10 != 0x2 then BadOpcode
    else if (s[1] >= 0x80) != expectMasked then BadMask
    else if |s| < 2 + Extended(s[1]) then Closed
    else ParseBody(s[2 + Extended(s[1])..], PayloadLength(s), expectMasked)
  }

  /** Masking key and payload. */
  function ParseBody(s: seq<Byte>, length: nat, masked: bool): Received
  {
    var k := if masked then 4 else 0;
    if |s| < k + length then Closed
    else Payload(MaybeMasked(s[k..k + length], if masked then Some(s[..4]) else None), s[k + length..])
  }

  /** A frame parses to its payload and leaves the rest of the stream alone, when the mask expectation matches. */
  lemma ParseOfFrame(payload: seq<Byte>, key: Option<seq<Byte>>, rest: seq<Byte>)
    requires ValidKey(key) && |payload| < U64_LIMIT
    ensures Parse(WsFrame(payload, key) + rest, key.Some?) == Payload(payload, rest)
    ensures Parse(WsFrame(payload, key) + rest, !key.Some?) == BadMask
  {
    var s := WsFrame(payload, key) + rest;
    FrameSlices(payload, key, rest);
    LengthReads(|payload|, key.Some?);
    if key.Some? {
      MaskedTwice(payload, key.value);
    }
    ParseFields(s, key, |payload|);
  }

  lemma FrameSlices(payload: seq<Byte>, key: Option<seq<Byte>>, rest: seq<Byte>)
    requires ValidKey(key)
    ensures var s := WsFrame(payload, key) + rest;
            var field := LengthField(|payload|, key.Some?);
            var at := 1 + |field|;
            var k := at + |KeyBytes(key)|;
            && s[0] == 0x82 && s[1] == field[0] && s[2..at] == field[1..]
            && s[at..k] == KeyBytes(key)
            && s[k..k + |payload|] == MaybeMasked(payload, key)
            && s[k + |payload|..] == rest
  {
  }

  /**
   A frame, byte by byte (section 5.2 of RFC 6455): a final binary frame, the mask bit with the shortest length form in
   network order, the key, the masked payload.
   */
  lemma FrameBytes(payload: seq<Byte>, key: Option<seq<Byte>>)
    requires ValidKey(key) && |payload| < U64_LIMIT
    ensures var w, n, bit := WsFrame(payload, key), |payload|, if key.Some? then 128 else 0;
            var at := if n < 126 then 2 else if n < 0x1_0000 then 4 else 10;
            && |w| == at + (if key.Some? then 4 else 0) + n
            && w[0] == 0x82
            && w[1] == bit + (if n < 126 then n else if n < 0x1_0000 then 126 else 127)
            && (at == 4 ==> w[2] as int * 0x100 + w[3] == n)
            && (at == 10 ==>
                  (w[2] as int * 0x100_0000 + w[3] as int * 0x1_0000 + w[4] as int * 0x100 + w[5]) * 0x1_0000_0000
                  + w[6] as int * 0x100_0000 + w[7] as int * 0x1_0000 + w[8] as int * 0x100 + w[9] == n)
            && (key.Some? ==> w[at..at + 4] == key.value && w[at + 4..] == Masked(payload, key.value))
            && (key.None? ==> w[at..] == payload)
  {
    hide Masked;
    Pow256Values();
    var w, n := WsFrame(payload, key), |payload|;
    FrameSlices(payload, key, []);
    assert w + [] == w;
    var field := LengthField(n, key.Some?);
    if 126 <= n < 0x1_0000 {
      assert w[2..4] == field[1..] == BigEndian(n, 2);
      BigEndianFits(n, 2);
      TwoBytes(w[2..4]);
    } else if n >= 0x1_0000 {
      assert w[2..10] == field[1..] == BigEndian(n, 8);
      BigEndianFits(n, 8);
      EightBytes(w[2..10]);
    }
  }

  /** The length a receiver reads: seven bits, or two or eight bytes in network order. */
  lemma LengthExactly(s: seq<Byte>)
    requires |s| >= 2
    ensures Extended(s[1]) == if s[1] % 128 < 126 then 0 else if s[1] % 128 == 126 then 2 else 8
    ensures s[1] % 128 < 126 ==> PayloadLength(s) == s[1] % 128
    ensures s[1] % 128 == 126 && |s| >= 4 ==> PayloadLength(s) == s[2] as int * 0x100 + s[3]
    ensures s[1] % 128 == 127 && |s| >= 10 ==>
              PayloadLength(s) == (s[2] as int * 0x100_0000 + s[3] as int * 0x1_0000 + s[4] as int * 0x100 + s[5]) * 0x1_0000_0000
                                  + s[6] as int * 0x100_0000 + s[7] as int * 0x1_0000 + s[8] as int * 0x100 + s[9]
  {
    if s[1] % 128 == 126 && |s| >= 4 {
      TwoBytes(s[2..4]);
    } else if s[1] % 128 == 127 && |s| >= 10 {
      EightBytes(s[2..10]);
    }
  }

  /** What a receiver makes of any bytes: close frames and short streams end it, other opcodes and masks are refused. */
  lemma ParseExactly(s: seq<Byte>, expectMasked: bool)
    ensures Parse(s, expectMasked) == BadOpcode <==> |s| >= 2 && s[0] % 16 != 8 && s[0] % 16 != 2
    ensures Parse(s, expectMasked) == BadMask <==> |s| >= 2 && s[0] % 16 == 2 && (s[1] >= 128) != expectMasked
    ensures Parse(s, expectMasked).Payload? <==>
              && |s| >= 2 && s[0] % 16 == 2 && (s[1] >= 128) == expectMasked && |s| >= 2 + Extended(s[1])
              && |s| >= 2 + Extended(s[1]) + (if expectMasked then 4 else 0) + PayloadLength(s)
    ensures Parse(s, expectMasked).Payload? ==>
              var at := 2 + Extended(s[1]) + (if expectMasked then 4 else 0);
              var n := PayloadLength(s);
              && |Parse(s, expectMasked).bytes| == n && Parse(s, expectMasked).rest == s[at + n..]
              && (!expectMasked ==> Parse(s, expectMasked).bytes == s[at..at + n])
              && (expectMasked ==> Parse(s, expectMasked).bytes == Masked(s[at..at + n], s[at - 4..at]))
  {
    hide Masked, PayloadLength;
    if Parse(s, expectMasked).Payload? {
      var e := 2 + Extended(s[1]);
      var k := if expectMasked then 4 else 0;
      var n := PayloadLength(s);
      assert s[e..][k..k + n] == s[e + k..e + k + n] && s[e..][k + n..] == s[e + k + n..] && (expectMasked ==> s[e..][..4] == s[e..e + 4]);
    }
  }

  /** Parsing bytes whose length field and mask bit are known. */
  lemma ParseFields(s: seq<Byte>, key: Option<seq<Byte>>, n: nat)
    requires ValidKey(key) && |s| >= 2 && s[0] == 0x82 && (s[1] >= 0x80) == key.Some?
    requires |s| >= 2 + Extended(s[1]) + |KeyBytes(key)| + n && PayloadLength(s) == n
    requires s[2 + Extended(s[1])..2 + Extended(s[1]) + |KeyBytes(key)|] == KeyBytes(key)
    ensures var k := 2 + Extended(s[1]) + |KeyBytes(key)|;
            && Parse(s, key.Some?) == Payload(MaybeMasked(s[k..k + n], key), s[k + n..])
            && Parse(s, !key.Some?) == BadMask
  {
    hide Masked, PayloadLength;
    var at, k := 2 + Extended(s[1]), |KeyBytes(key)|;
    assert s[at..][..k] == KeyBytes(key) && s[at..][k..k + n] == s[at + k..at + k + n] && s[at..][k + n..] == s[at + k + n..];
  }

  lemma LengthReads(n: nat, masked: bool)
    requires n < U64_LIMIT
    ensures var field := LengthField(n, masked);
            && (field[0] >= 0x80) == masked
            && Extended(field[0]) == LengthWidth(n) == |field| - 1
            && n == if LengthWidth(n) == 0 then field[0] % 0x80 else FromBigEndian(field[1..])
  {
    Pow256Values();
    var field := LengthField(n, masked);
    if n >= 126 {
      assert field[1..] == BigEndian(n, LengthWidth(n));
      BigEndianFits(n, LengthWidth(n));
    }
  }

  /** No byte string the receiver takes for this payload is shorter than the frame sent (section 5.2 of RFC 6455). */
  lemma ShortestForm(payload: seq<Byte>, key: Option<seq<Byte>>, s: seq<Byte>, rest: seq<Byte>)
    requires ValidKey(key) && Parse(s, key.Some?) == Payload(payload, rest)
    ensures |s| - |rest| >= |WsFrame(payload, key)|
  {
    Pow256Values();
    if Extended(s[1]) == 2 {
      BigEndianBytes(s[2..2 + Extended(s[1])]);
    }
  }

  /** The last part of a frame: the payload, with the bits of the key before it flipped if there is one. */
  ghost predicate Carries(w: seq<Byte>, payload: seq<Byte>, masked: bool)
  {
    && |w| >= |payload| + (if masked then 6 else 2)
    && var at := |w| - |payload|;
       if masked then forall i | 0 <= i < |payload| :: Xored(w[at + i], payload[i], w[at - 4 + i % 4])
       else w[at..] == payload
  }

  lemma FrameTail(payload: seq<Byte>, key: Option<seq<Byte>>)
    requires ValidKey(key)
    ensures var w := WsFrame(payload, key);
            var at := |w| - |payload|;
            && at >= 2 + |KeyBytes(key)|
            && w[at - |KeyBytes(key)|..at] == KeyBytes(key) && w[at..] == MaybeMasked(payload, key)
  {
  }

  lemma FrameCarries(payload: seq<Byte>, key: Option<seq<Byte>>)
    requires ValidKey(key) && |payload| < U64_LIMIT
    ensures Carries(WsFrame(payload, key), payload, key.Some?)
  {
    var w := WsFrame(payload, key);
    var at := |w| - |payload|;
    FrameTail(payload, key);
    hide WsFrame, Masked, Xored;
    if key.Some? {
      forall i | 0 <= i < |payload|
        ensures Xored(w[at + i], payload[i], w[at - 4 + i % 4])
      {
        assert w[at + i] == w[at..][i] && w[at - 4 + i % 4] == w[at - 4..at][i % 4];
        MaskedIsXored(payload, key.value, i);
      }
    }
  }

  lemma CarriesBehind(before: seq<Byte>, w: seq<Byte>, payload: seq<Byte>, masked: bool)
    requires Carries(w, payload, masked)
    ensures Carries(before + w, payload, masked)
  {
    hide Xored;
    assert (before + w)[|before + w| - |payload|..] == w[|w| - |payload|..];
  }

  /** What a receiver takes from a frame is what the bytes it consumed carry. */
  lemma ReceivedCarries(s: seq<Byte>, expectMasked: bool)
    requires Parse(s, expectMasked).Payload?
    ensures var r := Parse(s, expectMasked);
            && |r.rest| <= |s| && s[|s| - |r.rest|..] == r.rest
            && Carries(s[..|s| - |r.rest|], r.bytes, expectMasked)
  {
    var r := Parse(s, expectMasked);
    ParseExactly(s, expectMasked);
    hide Parse, Masked, PayloadLength, Xored;
    var at, n := |s| - |r.rest| - |r.bytes|, |r.bytes|;
    assert at == 2 + Extended(s[1]) + (if expectMasked then 4 else 0) && n == PayloadLength(s);
    var w := s[..at + n];
    if expectMasked {
      forall i | 0 <= i < n
        ensures Xored(w[at + i], r.bytes[i], w[at - 4 + i % 4])
      {
        assert w[at + i] == s[at..at + n][i] && w[at - 4 + i % 4] == s[at - 4..at][i % 4];
        MaskedIsXored(s[at..at + n], s[at - 4..at], i);
        XoredBack(r.bytes[i], w[at + i], w[at - 4 + i % 4]);
      }
    }
  }

  lemma XoredBack(a: Byte, b: Byte, key: Byte)
    requires Xored(a, b, key)
    ensures Xored(b, a, key)
  {
  }

  /** One end of a connection: bytes still to arrive before the peer closes, and bytes sent. */
  class Socket {
    var inbound: seq<Byte>
    var outbound: seq<Byte>

    constructor (inbound: seq<Byte>)
      ensures this.inbound == inbound && outbound == []
    {
      this.inbound, outbound := inbound, [];
    }

    /** `recv`: any non-empty part of what arrives, up to `limit` bytes; empty only at the end. */
    method Recv(limit: nat) returns (chunk: seq<Byte>)
      requires limit > 0
      modifies this`inbound
      ensures |chunk| <= limit && (chunk == [] <==> old(inbound) == [])
      ensures old(inbound) == chunk + inbound
    {
      if inbound == [] {
        assert [] + inbound == inbound;
        return [];
      }
      assert 1 <= limit && 1 <= |inbound|;
      var k: nat :| 1 <= k && k <= limit && k <= |inbound|;
      chunk := inbound[..k];
      inbound := inbound[k..];
    }

    method SendAll(bytes: seq<Byte>)
      modifies this`outbound
      ensures outbound == old(outbound) + bytes
    {
      outbound := outbound + bytes;
    }

    /** `_recv_exact`: the same bytes however they are fragmented, or an end of file. */
    method RecvExact(size: nat) returns (r: Option<seq<Byte>>)
      modifies this`inbound
      ensures r.Some? <==> size <= |old(inbound)|
      ensures r.Some? ==> r.value == old(inbound)[..size] && inbound == old(inbound)[size..]
    {
      var chunks: seq<Byte>, remaining := [], size;
      while remaining != 0
        invariant remaining >= 0
        invariant |chunks| + remaining == size && old(inbound) == chunks + inbound
      {
        var chunk := Recv(remaining);
        if chunk == [] {
          assert |old(inbound)| == |chunks|;
          return None;
        }
        assert chunks + (chunk + inbound) == chunks + chunk + inbound;
        chunks := chunks + chunk;
        remaining := remaining - |chunk|;
      }
      assert old(inbound)[..size] == chunks && old(inbound)[size..] == inbound;
      r := Some(chunks);
    }

    /** `_send_ws_frame`, with a key from the system's random source. */
    method SendWsFrame(payload: seq<Byte>, mask: bool) returns (key: Option<seq<Byte>>)
      requires |payload| < U64_LIMIT
      modifies this`outbound
      ensures ValidKey(key) && key.Some? == mask
      ensures outbound == old(outbound) + WsFrame(payload, key)
      ensures Carries(outbound, payload, mask)
    {
      hide Masked, Carries, LengthField, BigEndian;
      var header := FrameHeader(|payload|, mask);
      key := None;
      var body := payload;
      if mask {
        var maskingKey := RandomKey();
        header := header + maskingKey;
        body := Masked(payload, maskingKey);
        key := Some(maskingKey);
      }
      SendAll(header + body);
      FrameCarries(payload, key);
      CarriesBehind(old(outbound), WsFrame(payload, key), payload, mask);
    }

    /** `_recv_ws_frame`: one frame off the stream, however the bytes are fragmented. */
    method RecvWsFrame(expectMasked: bool) returns (r: Received)
      modifies this`inbound
      ensures r == Parse(old(inbound), expectMasked)
      ensures r.Payload? ==>
                && inbound == r.rest && |r.rest| <= |old(inbound)| && old(inbound)[|old(inbound)| - |r.rest|..] == r.rest
                && Carries(old(inbound)[..|old(inbound)| - |r.rest|], r.bytes, expectMasked)
    {
      hide Masked, Carries;
      ghost var s := inbound;
      var head := RecvExact(2);
      if head.None? {
        return Closed;
      }
      var first, second := head.value[0], head.value[1];
      if first % 0x10 == 0x8 {
        return Closed;
      }
      if first % 0x10 != 0x2 {
        return BadOpcode;
      }
      if (second >= 0x80) != expectMasked {
        return BadMask;
      }
      var length := second % 0x80;
      if length == 126 || length == 127 {
        var extended := RecvExact(if length == 126 then 2 else 8);
        if extended.None? {
          return Closed;
        }
        assert extended.value == s[2..2 + Extended(second)];
        length := FromBigEndian(extended.value);
      }
      assert length == PayloadLength(s) && inbound == s[2 + Extended(second)..];
      r := RecvBody(length, expectMasked);
      if r.Payload? {
        ReceivedCarries(s, expectMasked);
      }
    }

    /** Masking key and payload. */
    method RecvBody(length: nat, masked: bool) returns (r: Received)
      modifies this`inbound
      ensures r == ParseBody(old(inbound), length, masked)
      ensures r.Payload? ==> inbound == r.rest
    {
      var key: Option<seq<Byte>> := None;
      if masked {
        key := RecvExact(4);
        if key.None? {
          return Closed;
        }
      }
      var payload := RecvExact(length);
      if payload.None? {
        return Closed;
      }
      r := Payload(MaybeMasked(payload.value, key), inbound);
    }
  }

  /** The first bytes of a frame. */
  method FrameHeader(length: nat, mask: bool) returns (header: seq<Byte>)
    requires length < U64_LIMIT
    ensures header == [0x82] + LengthField(length, mask)
  {
    header := [0x82];
    var maskBit := if mask then 0x80 else 0;
    if length < 126 {
      header := header + [maskBit + length];
    } else if length <= 0xFFFF {
      header := header + [maskBit + 126];
      header := header + BigEndian(length, 2);
    } else {
      header := header + [maskBit + 127];
      header := header + BigEndian(length, 8);
    }
  }

  method RandomKey() returns (key: seq<Byte>)
    ensures |key| == 4
  {
    var a: Byte :| true;
    var b: Byte :| true;
    var c: Byte :| true;
    var d: Byte :| true;
    key := [a, b, c, d];
  }

  /** A chunk the sending pipe read, with the key its frame got. */
  datatype Piece = Piece(bytes: seq<Byte>, key: Option<seq<Byte>>)

  predicate ValidPiece(p: Piece, mask: bool)
  {
    0 < |p.bytes| < U64_LIMIT && ValidKey(p.key) && p.key.Some? == mask
  }

  predicate ValidPieces(pieces: seq<Piece>, mask: bool)
  {
    forall i | 0 <= i < |pieces| :: ValidPiece(pieces[i], mask)
  }

  /** The original bytes of the pieces, and their frames. */
  function Plain(pieces: seq<Piece>): seq<Byte>
  {
    if pieces == [] then [] else pieces[0].bytes + Plain(pieces[1..])
  }

  function Framed(pieces: seq<Piece>, mask: bool): seq<Byte>
    requires ValidPieces(pieces, mask)
  {
    if pieces == [] then [] else WsFrame(pieces[0].bytes, pieces[0].key) + Framed(pieces[1..], mask)
  }

  lemma {:induction false} PlainAppend(pieces: seq<Piece>, p: Piece)
    ensures Plain(pieces + [p]) == Plain(pieces) + p.bytes
  {
    if pieces == [] {
      assert Plain([p]) == p.bytes + Plain([p][1..]);
    } else {
      assert (pieces + [p])[1..] == pieces[1..] + [p];
      PlainAppend(pieces[1..], p);
    }
  }

  lemma {:induction false} FramedAppend(pieces: seq<Piece>, p: Piece, mask: bool)
    requires ValidPieces(pieces, mask) && ValidPiece(p, mask)
    ensures ValidPieces(pieces + [p], mask)
    ensures Framed(pieces + [p], mask) == Framed(pieces, mask) + WsFrame(p.bytes, p.key)
  {
    hide WsFrame;
    if pieces == [] {
      assert Framed([p], mask) == WsFrame(p.bytes, p.key) + Framed([p][1..], mask);
    } else {
      assert (pieces + [p])[1..] == pieces[1..] + [p];
      FramedAppend(pieces[1..], p, mask);
    }
  }

  /** The pipe's state after one more piece: what is left to read, and what is on the wire. */
  lemma PieceSent(pieces: seq<Piece>, p: Piece, rest: seq<Byte>, wire: seq<Byte>, mask: bool)
    requires ValidPieces(pieces, mask) && ValidPiece(p, mask)
    ensures ValidPieces(pieces + [p], mask)
    ensures Plain(pieces + [p]) + rest == Plain(pieces) + (p.bytes + rest)
    ensures wire + Framed(pieces + [p], mask) == wire + Framed(pieces, mask) + WsFrame(p.bytes, p.key)
  {
    hide Plain, Framed, WsFrame;
    PlainAppend(pieces, p);
    FramedAppend(pieces, p, mask);
  }

  /** Everything the receiving pipe forwards: the payloads of the frames at the front of the stream. */
  function Forwarded(s: seq<Byte>, expectMasked: bool): seq<Byte>
    decreases |s|
  {
    var r := Parse(s, expectMasked);
    if r.Payload? then r.bytes + Forwarded(r.rest, expectMasked) else []
  }

  /**
   Transparency: however the stream is cut into pieces and whatever the keys, the receiver forwards exactly the
   original bytes, and a receiver with the other mask expectation forwards nothing.
   */
  lemma {:induction false} TunnelIsTransparent(pieces: seq<Piece>, mask: bool)
    requires ValidPieces(pieces, mask)
    ensures Forwarded(Framed(pieces, mask), mask) == Plain(pieces)
    ensures Forwarded(Framed(pieces, mask), !mask) == []
  {
    if pieces == [] {
    } else {
      TunnelIsTransparent(pieces[1..], mask);
      ParseOfFrame(pieces[0].bytes, pieces[0].key, Framed(pieces[1..], mask));
    }
  }

  /** `_pipe_tcp_to_ws`: reads until the source closes and sends a frame for each read. */
  method PipeTcpToWs(source: Socket, websocket: Socket, mask: bool) returns (ghost pieces: seq<Piece>)
    requires source != websocket
    modifies source`inbound, websocket`outbound
    ensures ValidPieces(pieces, mask) && Plain(pieces) == old(source.inbound) && source.inbound == []
    ensures websocket.outbound == old(websocket.outbound) + Framed(pieces, mask)
    ensures forall i | 0 <= i < |pieces| :: |pieces[i].bytes| <= 65536
  {
    pieces := [];
    while true
      invariant ValidPieces(pieces, mask)
      invariant forall i | 0 <= i < |pieces| :: |pieces[i].bytes| <= 65536
      invariant Plain(pieces) + source.inbound == old(source.inbound)
      invariant websocket.outbound == old(websocket.outbound) + Framed(pieces, mask)
      decreases |source.inbound|
    {
      var chunk := source.Recv(BUFFER_SIZE);
      if chunk == [] {
        return;
      }
      var key := websocket.SendWsFrame(chunk, mask);
      PieceSent(pieces, Piece(chunk, key), source.inbound, old(websocket.outbound), mask);
      pieces := pieces + [Piece(chunk, key)];
    }
  }

  lemma ForwardOne(sent: seq<Byte>, r: Received, expectMasked: bool)
    requires r.Payload?
    ensures sent + (r.bytes + Forwarded(r.rest, expectMasked)) == sent + r.bytes + Forwarded(r.rest, expectMasked)
  {
  }

  /** `_pipe_ws_to_tcp`: forwards payloads until a close, an error or the end of the stream. */
  method PipeWsToTcp(websocket: Socket, target: Socket, expectMasked: bool)
    requires websocket != target
    modifies websocket`inbound, target`outbound
    ensures target.outbound == old(target.outbound) + Forwarded(old(websocket.inbound), expectMasked)
  {
    while true
      invariant target.outbound + Forwarded(websocket.inbound, expectMasked)
                == old(target.outbound) + Forwarded(old(websocket.inbound), expectMasked)
      decreases |websocket.inbound|
    {
      var r := websocket.RecvWsFrame(expectMasked);
      if !r.Payload? {
        return;
      }
      ForwardOne(target.outbound, r, expectMasked);
      target.SendAll(r.bytes);
    }
  }

  /**
   One direction of the tunnel between the two proxies: the near one frames with `mask = client_side`, the far one, on
   the other side, expects masks exactly from a client. What the far target is sent is what the near source sent.
   */
  method TunnelDirection(nearIsClient: bool, source: Socket, near: Socket, far: Socket, target: Socket)
      returns (ghost pieces: seq<Piece>)
    requires |{source, near, far, target}| == 4 && near.outbound == []
    modifies source`inbound, near`outbound, far`inbound, target`outbound
    ensures target.outbound == old(target.outbound) + old(source.inbound)
    ensures ValidPieces(pieces, nearIsClient) && near.outbound == Framed(pieces, nearIsClient)
    ensures forall i | 0 <= i < |pieces| :: pieces[i].key.Some? == nearIsClient
  {
    var farIsClient := !nearIsClient;
    assert source != near && far != target && far != near && source != far && target != near && target != source;
    pieces := PipeTcpToWs(source, near, nearIsClient);
    far.inbound := near.outbound;
    TunnelIsTransparent(pieces, nearIsClient);
    assert near.outbound == Framed(pieces, nearIsClient);
    PipeWsToTcp(far, target, !farIsClient);
  }
}
