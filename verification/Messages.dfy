/** Messages of the migration protocol (crates/transport/src/lib.rs), tensor names and the raw payload codec. */
module Messages {
  import opened Common
  import opened Header
  import opened Layout
  import Binding

  /** Metadata a compressed payload carries; a raw payload has none. */
  datatype Codec = Codec(transferCodec: string, storage: string, strategy: Option<string>, rawLen: U64)

  /** `HeaderEnvelope` carries what opening and parsing it gives: a header, or nothing. */
  datatype Message =
    | CapabilityRequest(seqLen: U64)
    | HeaderEnvelope(content: Option<Header>)
    | PayloadChunk(chunk: U32, layer: U32, name: string, codec: Option<Codec>, data: seq<Byte>, crc32: U32)
    | GraphBinding(binding: Binding.Graph)
    | CommitRequest
    | Reply(reply: Reply)

  datatype Reply =
    | CapabilityResponse(accepted: bool)
    | HeaderAck
    | ChunkAck(chunk: U32)
    | GraphBindingAck(accepted: bool)
    | CommitResponse

  /** UTF-8 and JSON, with inverses that may fail. */
  datatype Text = Text(
    utf8: string -> seq<Byte>,
    fromUtf8: seq<Byte> -> Option<string>,
    json: Codec -> seq<Byte>,
    fromJson: seq<Byte> -> Option<Codec>,
    jsonMessage: Message -> seq<Byte>,
    fromJsonMessage: seq<Byte> -> Option<Message>)

  /** Functions of other libraries: checksums, the compressed codecs and text. */
  datatype Foreign = Foreign(
    crc32: seq<Byte> -> U32,
    fp8: seq<Byte> -> seq<Word>,
    qatq: (string, seq<Byte>, nat) -> Option<seq<Word>>,
    text: Text)

  function Decimal(n: nat): (s: string)
    ensures |s| > 0 && (n >= 10 ==> |s| > 1)
  {
    if n < 10 then [(48 + n) as char] else Decimal(n / 10) + [(48 + n % 10) as char]
  }

  lemma {:induction false} DecimalInjective(a: nat, b: nat)
    requires Decimal(a) == Decimal(b)
    ensures a == b
  {
    var s, s' := Decimal(a), Decimal(b);
    assert s[|s| - 1] == s'[|s'| - 1];
    if a < 10 {
    } else {
      assert s[..|s| - 1] == Decimal(a / 10) && s'[..|s'| - 1] == Decimal(b / 10);
      DecimalInjective(a / 10, b / 10);
    }
  }

  /** The number a string of decimal digits denotes. */
  function Denoted(digits: string): int
  {
    if digits == "" then 0 else Denoted(digits[..|digits| - 1]) * 10 + (digits[|digits| - 1] as int - '0' as int)
  }

  /** A number's text is its digits, most significant first, without a leading zero. */
  lemma {:induction false} DecimalExactly(n: nat)
    ensures Denoted(Decimal(n)) == n
    ensures forall i | 0 <= i < |Decimal(n)| :: '0' <= Decimal(n)[i] <= '9'
    ensures n > 0 ==> Decimal(n)[0] != '0'
    ensures n < 10 ==> |Decimal(n)| == 1
  {
    var s := Decimal(n);
    if n < 10 {
      assert Denoted(s[..0]) == 0;
    } else {
      DecimalExactly(n / 10);
      assert s[..|s| - 1] == Decimal(n / 10);
      assert s[0] == Decimal(n / 10)[0];
    }
  }

  lemma {:induction false} DecimalGrows(a: nat, b: nat)
    requires a <= b
    ensures |Decimal(a)| <= |Decimal(b)|
  {
    if a < 10 {
    } else {
      DecimalGrows(a / 10, b / 10);
    }
  }

  predicate Ascii(s: string)
  {
    forall i | 0 <= i < |s| :: s[i] < 128 as char
  }

  lemma {:induction false} DecimalIsAscii(n: nat)
    ensures Ascii(Decimal(n))
  {
    if n < 10 {
    } else {
      DecimalIsAscii(n / 10);
    }
  }

  function Suffix(kind: Kind): string { if kind == Key then ".key" else ".value" }

  /** The name of a layer's key or value tensor. */
  function TensorName(kind: Kind, layer: nat): string
  {
    "layer." + Decimal(layer) + Suffix(kind)
  }

  /** A name determines its layer and kind, and only key names end in ".key". */
  lemma NamesAreDistinct(kind: Kind, layer: nat, kind': Kind, layer': nat)
    ensures TensorName(kind, layer) == TensorName(kind', layer') ==> kind == kind' && layer == layer'
    ensures EndsWith(TensorName(kind, layer), ".key") <==> kind == Key
  {
    var s, s' := TensorName(kind, layer), TensorName(kind', layer');
    assert s[|s| - 1] == if kind == Key then 'y' else 'e';
    assert s'[|s'| - 1] == if kind' == Key then 'y' else 'e';
    if kind == Key {
      assert s[|s| - 4..] == ".key";
    } else {
      assert s[|s| - 4..][3] == 'e';
    }
    if s == s' {
      var n := |Suffix(kind)|;
      assert s[6..|s| - n] == Decimal(layer);
      assert s'[6..|s'| - n] == Decimal(layer');
      DecimalInjective(layer, layer');
    }
  }

  lemma NameIsAscii(kind: Kind, layer: nat)
    ensures Ascii(TensorName(kind, layer))
  {
    DecimalIsAscii(layer);
    assert Ascii("layer.") && Ascii(Suffix(kind));
  }

  /** The last layer's value tensor has the longest name. */
  lemma LongestName(kind: Kind, layer: nat, layers: nat)
    requires layer < layers
    ensures |TensorName(kind, layer)| <= |TensorName(Value, layers - 1)|
  {
    DecimalGrows(layer, layers - 1);
  }

  /** `f32::to_be_bytes` of every element, in order. */
  function RawBytes(words: seq<Word>): (bytes: seq<Byte>)
    ensures |bytes| == 4 * |words|
  {
    seq(4 * |words|, o requires 0 <= o < 4 * |words| => BigEndian(words[o / 4], 4)[o % 4])
  }

  /** `f32::from_be_bytes` of every complete group of four bytes; up to three trailing bytes are ignored. */
  function RawWords(bytes: seq<Byte>): (words: seq<Word>)
    ensures |words| == |bytes| / 4
  {
    seq(|bytes| / 4, i requires 0 <= i < |bytes| / 4 => WordAt(bytes, 4 * i))
  }

  function WordAt(bytes: seq<Byte>, o: nat): Word
    requires o + 4 <= |bytes|
  {
    BigEndianBytes(bytes[o..o + 4]);
    Pow256Values();
    FromBigEndian(bytes[o..o + 4])
  }

  lemma RawRoundTrip(words: seq<Word>)
    ensures RawWords(RawBytes(words)) == words
  {
    hide BigEndian, FromBigEndian, Pow256;
    var bytes := RawBytes(words);
    Pow256Values();
    forall i | 0 <= i < |words|
      ensures WordAt(bytes, 4 * i) == words[i]
    {
      assert bytes[4 * i..4 * i + 4] == BigEndian(words[i], 4);
      BigEndianFits(words[i], 4);
    }
  }

  /** The raw branch of `encode_payload`. */
  method EncodeRaw(words: seq<Word>) returns (bytes: seq<Byte>)
    ensures bytes == RawBytes(words)
    ensures |bytes| == 4 * |words|
    ensures forall i | 0 <= i < |words| ::
              words[i] == bytes[4 * i] as int * 0x100_0000 + bytes[4 * i + 1] as int * 0x1_0000
                          + bytes[4 * i + 2] as int * 0x100 + bytes[4 * i + 3]
  {
    bytes := [];
    for i := 0 to |words|
      invariant bytes == RawBytes(words)[..4 * i]
    {
      assert RawBytes(words)[4 * i..4 * i + 4] == BigEndian(words[i], 4);
      bytes := bytes + BigEndian(words[i], 4);
    }
    RawRoundTrip(words);
    RawWordsExactly(bytes);
  }

  /** Each word is four bytes, the first counting most. */
  lemma RawWordsExactly(bytes: seq<Byte>)
    ensures forall i | 0 <= i < |bytes| / 4 ::
              RawWords(bytes)[i] == bytes[4 * i] as int * 0x100_0000 + bytes[4 * i + 1] as int * 0x1_0000
                                    + bytes[4 * i + 2] as int * 0x100 + bytes[4 * i + 3]
  {
    hide FromBigEndian;
    forall i | 0 <= i < |bytes| / 4
      ensures RawWords(bytes)[i] == bytes[4 * i] as int * 0x100_0000 + bytes[4 * i + 1] as int * 0x1_0000
                                    + bytes[4 * i + 2] as int * 0x100 + bytes[4 * i + 3]
    {
      FourBytes(bytes[4 * i..4 * i + 4]);
    }
  }

  /** The raw branch of the daemon's decoding: one float per complete group of four bytes. */
  method DecodeRaw(data: seq<Byte>) returns (words: seq<Word>)
    ensures words == RawWords(data)
    ensures |words| == |data| / 4
    ensures forall i | 0 <= i < |words| ::
              words[i] == data[4 * i] as int * 0x100_0000 + data[4 * i + 1] as int * 0x1_0000
                          + data[4 * i + 2] as int * 0x100 + data[4 * i + 3]
  {
    RawWordsExactly(data);
    hide WordAt;
    var floats := new Word[|data| / 4](_ => 0);
    for i := 0 to |data| / 4
      invariant forall j | 0 <= j < i :: floats[j] == RawWords(data)[j]
    {
      floats[i] := WordAt(data, 4 * i);
    }
    words := floats[..];
  }
}
