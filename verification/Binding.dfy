/**
 Agent memory graph bindings (crates/cli/src/main.rs): the spans a sender derives from its manifest
 and the checks the daemon runs on them before it lets a migration commit.
 */
module Binding {
  import opened Common
  import opened Header

  datatype Span = Span(
    nodeId: string,
    tokenStart: U64,
    tokenEnd: U64,
    cacheRef: string,
    tokenizerHash: Option<string>,
    blockHashes: seq<string>)

  datatype Artifact = Artifact(path: string, sha256: string)

  /** `AgentGraphManifest` and `AgentGraphBinding` carry the same fields. */
  datatype Graph = Graph(
    manifestPath: string,
    graphPath: string,
    graphHash: string,
    promptByteHash: Option<string>,
    promptTokenHash: Option<string>,
    tokenizerHash: Option<string>,
    kvHash: Option<string>,
    spans: seq<Span>,
    artifacts: seq<Artifact>)

  /** Unicode White_Space, what `str::trim` removes. */
  predicate IsSpace(c: char)
  {
    var n := c as int;
    || 0x9 <= n <= 0xD || n == 0x20 || n == 0x85 || n == 0xA0 || n == 0x1680
    || 0x2000 <= n <= 0x200A || n == 0x2028 || n == 0x2029 || n == 0x202F || n == 0x205F || n == 0x3000
  }

  predicate Blank(s: string)
  {
    forall i | 0 <= i < |s| :: IsSpace(s[i])
  }

  predicate IsHexDigit(c: char)
  {
    '0' <= c <= '9' || 'a' <= c <= 'f' || 'A' <= c <= 'F'
  }

  predicate IsSha256(s: string)
  {
    StartsWith(s, "sha256:") && |s| == 7 + 64 && forall i | 7 <= i < |s| :: IsHexDigit(s[i])
  }

  /** `ensure_sha256_field`: the prefix, then 64 hexadecimal digits. */
  method EnsureSha256(value: string) returns (ok: bool)
    ensures ok <==> IsSha256(value)
    ensures ok <==>
              && |value| == 71 && value[..7] == "sha256:"
              && forall i | 7 <= i < |value| ::
                   '0' <= value[i] <= '9' || 'a' <= value[i] <= 'f' || 'A' <= value[i] <= 'F'
  {
    if !StartsWith(value, "sha256:") {
      return false;
    }
    var digest := value[7..];
    if |digest| != 64 {
      return false;
    }
    for i := 0 to |digest|
      invariant forall j | 0 <= j < i :: IsHexDigit(digest[j])
    {
      if !IsHexDigit(digest[i]) {
        assert value[7 + i] == digest[i];
        return false;
      }
    }
    assert forall i | 7 <= i < |value| :: value[i] == digest[i - 7];
    return true;
  }

  predicate OptionalSha256(s: Option<string>)
  {
    s.Some? ==> IsSha256(s.value)
  }

  /** The block a token is in. */
  function BlockOf(token: nat, blockSize: nat): (b: nat)
    requires blockSize > 0
    ensures b == token / blockSize
  {
    QuotientIsNat(token, blockSize);
    token / blockSize
  }

  /** `block_hashes_for_span`. */
  function HashesForSpan(h: Header, tokenStart: nat, tokenEnd: nat): seq<string>
  {
    if tokenEnd <= tokenStart || tokenStart >= h.seqLen || h.blockSize == 0 then []
    else
      var startBlock := BlockOf(tokenStart, h.blockSize);
      var endBlock := BlockOf(Min(tokenEnd, h.seqLen) - 1, h.blockSize);
      if startBlock <= endBlock + 1 && endBlock < |h.blockHashes| then h.blockHashes[startBlock..endBlock + 1] else []
  }

  /** `to_binding`: the manifest's own block hashes are replaced by those of the migrated header. */
  function ToBinding(manifest: Graph, h: Header): Graph
  {
    manifest.(spans := seq(|manifest.spans|, i requires 0 <= i < |manifest.spans| =>
      var s := manifest.spans[i]; s.(blockHashes := HashesForSpan(h, s.tokenStart, s.tokenEnd))))
  }

  /** What `load_agent_graph_manifest` has checked of a manifest it returns. */
  predicate Loaded(m: Graph)
  {
    && IsSha256(m.graphHash)
    && OptionalSha256(m.promptByteHash) && OptionalSha256(m.promptTokenHash)
    && OptionalSha256(m.tokenizerHash) && OptionalSha256(m.kvHash)
    && (forall i | 0 <= i < |m.spans| :: LoadedSpan(m.spans[i]))
    && (forall i | 0 <= i < |m.artifacts| :: IsSha256(m.artifacts[i].sha256))
  }

  /** `validate_agent_graph_kv_span`. */
  predicate LoadedSpan(s: Span)
  {
    && !Blank(s.nodeId) && !Blank(s.cacheRef)
    && s.tokenStart < s.tokenEnd
    && OptionalSha256(s.tokenizerHash)
    && forall i | 0 <= i < |s.blockHashes| :: IsSha256(s.blockHashes[i])
  }

  /** `validate_agent_graph_binding`. */
  predicate Accepts(b: Graph, h: Header)
  {
    && !Blank(b.manifestPath) && !Blank(b.graphPath)
    && IsSha256(b.graphHash)
    && OptionalSha256(b.promptByteHash) && OptionalSha256(b.promptTokenHash)
    && OptionalSha256(b.tokenizerHash) && OptionalSha256(b.kvHash)
    && b.promptTokenHash.Some? && b.tokenizerHash.Some? && b.kvHash.Some?
    && |b.spans| > 0
    && (forall i | 0 <= i < |b.spans| :: AcceptsSpan(b.spans[i], b.tokenizerHash, h))
    && (forall i | 0 <= i < |b.artifacts| :: !Blank(b.artifacts[i].path) && IsSha256(b.artifacts[i].sha256))
  }

  predicate AcceptsSpan(s: Span, tokenizerHash: Option<string>, h: Header)
  {
    && !Blank(s.nodeId) && !Blank(s.cacheRef)
    && s.tokenStart < s.tokenEnd <= h.seqLen
    && OptionalSha256(s.tokenizerHash)
    && (s.tokenizerHash.Some? && tokenizerHash.Some? ==> s.tokenizerHash == tokenizerHash)
    && |s.blockHashes| > 0
    && forall i | 0 <= i < |s.blockHashes| :: IsSha256(s.blockHashes[i]) && s.blockHashes[i] in h.blockHashes
  }

  /** Whether a list of strings are all hashes. */
  method AllSha256(values: seq<string>) returns (ok: bool)
    ensures ok <==> forall i | 0 <= i < |values| :: IsSha256(values[i])
  {
    hide IsSha256;
    ok := true;
    for i := 0 to |values|
      invariant ok <==> forall j | 0 <= j < i :: IsSha256(values[j])
    {
      var good := EnsureSha256(values[i]);
      ok := ok && good;
    }
  }

  method OptionalIsSha256(value: Option<string>) returns (ok: bool)
    ensures ok <==> OptionalSha256(value)
    ensures ok <==> value == None || IsSha256(value.value)
  {
    hide IsSha256;
    if value.None? {
      return true;
    }
    ok := EnsureSha256(value.value);
  }

  /** What the daemon demands of one span of a binding, from whatever peer. */
  method ValidateSpan(s: Span, tokenizerHash: Option<string>, h: Header) returns (ok: bool)
    ensures ok <==> AcceptsSpan(s, tokenizerHash, h)
    ensures ok <==>
              && !Blank(s.nodeId) && !Blank(s.cacheRef) && s.tokenStart < s.tokenEnd && s.tokenEnd <= h.seqLen
              && (s.tokenizerHash == None || (IsSha256(s.tokenizerHash.value) && (tokenizerHash == None || s.tokenizerHash == tokenizerHash)))
              && s.blockHashes != []
              && (forall i | 0 <= i < |s.blockHashes| :: IsSha256(s.blockHashes[i]) && s.blockHashes[i] in h.blockHashes)
  {
    hide IsSha256;
    if Blank(s.nodeId) || Blank(s.cacheRef) || s.tokenEnd <= s.tokenStart || s.tokenEnd > h.seqLen {
      return false;
    }
    var tokenizer := OptionalIsSha256(s.tokenizerHash);
    if !tokenizer || (s.tokenizerHash.Some? && tokenizerHash.Some? && s.tokenizerHash.value != tokenizerHash.value) {
      return false;
    }
    if |s.blockHashes| == 0 {
      return false;
    }
    ok := AllSha256(s.blockHashes);
    for i := 0 to |s.blockHashes|
      invariant ok <==> (forall j | 0 <= j < |s.blockHashes| :: IsSha256(s.blockHashes[j]))
                        && forall j | 0 <= j < i :: s.blockHashes[j] in h.blockHashes
    {
      ok := ok && s.blockHashes[i] in h.blockHashes;
    }
  }

  /** `validate_agent_graph_binding`: what the daemon demands of a binding, from whatever peer. */
  method ValidateBinding(b: Graph, h: Header) returns (ok: bool)
    ensures ok <==> Accepts(b, h)
    ensures ok <==>
              && !Blank(b.manifestPath) && !Blank(b.graphPath) && IsSha256(b.graphHash)
              && (b.promptByteHash == None || IsSha256(b.promptByteHash.value))
              && b.promptTokenHash.Some? && IsSha256(b.promptTokenHash.value)
              && b.tokenizerHash.Some? && IsSha256(b.tokenizerHash.value)
              && b.kvHash.Some? && IsSha256(b.kvHash.value)
              && b.spans != [] && (forall i | 0 <= i < |b.spans| :: AcceptsSpan(b.spans[i], b.tokenizerHash, h))
              && (forall i | 0 <= i < |b.artifacts| :: !Blank(b.artifacts[i].path) && IsSha256(b.artifacts[i].sha256))
  {
    hide IsSha256, AcceptsSpan;
    if Blank(b.manifestPath) || Blank(b.graphPath) {
      return false;
    }
    var graph := EnsureSha256(b.graphHash);
    var promptByte := OptionalIsSha256(b.promptByteHash);
    var promptToken := OptionalIsSha256(b.promptTokenHash);
    var tokenizer := OptionalIsSha256(b.tokenizerHash);
    var kv := OptionalIsSha256(b.kvHash);
    if !(graph && promptByte && promptToken && tokenizer && kv) {
      return false;
    }
    if b.promptTokenHash.None? || b.tokenizerHash.None? || b.kvHash.None? || |b.spans| == 0 {
      return false;
    }
    for i := 0 to |b.spans|
      invariant forall j | 0 <= j < i :: AcceptsSpan(b.spans[j], b.tokenizerHash, h)
    {
      var span := ValidateSpan(b.spans[i], b.tokenizerHash, h);
      if !span {
        return false;
      }
    }
    for i := 0 to |b.artifacts|
      invariant forall j | 0 <= j < i :: !Blank(b.artifacts[j].path) && IsSha256(b.artifacts[j].sha256)
    {
      var sha := EnsureSha256(b.artifacts[i].sha256);
      if Blank(b.artifacts[i].path) || !sha {
        return false;
      }
    }
    return true;
  }

  /** `load_agent_graph_manifest`, on a manifest that was read and parsed. */
  method ValidateManifest(m: Graph) returns (ok: bool)
    ensures ok <==> Loaded(m)
    ensures ok <==>
              && IsSha256(m.graphHash)
              && (forall hash <- [m.promptByteHash, m.promptTokenHash, m.tokenizerHash, m.kvHash] :: hash == None || IsSha256(hash.value))
              && (forall i | 0 <= i < |m.spans| ::
                    && !Blank(m.spans[i].nodeId) && !Blank(m.spans[i].cacheRef) && m.spans[i].tokenStart < m.spans[i].tokenEnd
                    && (m.spans[i].tokenizerHash == None || IsSha256(m.spans[i].tokenizerHash.value))
                    && forall j | 0 <= j < |m.spans[i].blockHashes| :: IsSha256(m.spans[i].blockHashes[j]))
              && (forall i | 0 <= i < |m.artifacts| :: IsSha256(m.artifacts[i].sha256))
  {
    hide IsSha256;
    var graph := EnsureSha256(m.graphHash);
    var promptByte := OptionalIsSha256(m.promptByteHash);
    var promptToken := OptionalIsSha256(m.promptTokenHash);
    var tokenizer := OptionalIsSha256(m.tokenizerHash);
    var kv := OptionalIsSha256(m.kvHash);
    if !(graph && promptByte && promptToken && tokenizer && kv) {
      return false;
    }
    for i := 0 to |m.spans|
      invariant forall j | 0 <= j < i :: LoadedSpan(m.spans[j])
    {
      var s := m.spans[i];
      var spanTokenizer := OptionalIsSha256(s.tokenizerHash);
      var hashes := AllSha256(s.blockHashes);
      if Blank(s.nodeId) || Blank(s.cacheRef) || s.tokenEnd <= s.tokenStart || !spanTokenizer || !hashes {
        return false;
      }
    }
    for i := 0 to |m.artifacts|
      invariant forall j | 0 <= j < i :: IsSha256(m.artifacts[j].sha256)
    {
      var sha := EnsureSha256(m.artifacts[i].sha256);
      if !sha {
        return false;
      }
    }
    return true;
  }

  /** A text is blank when it has no character but white space. */
  lemma BlankExactly(s: string)
    ensures Blank(s) <==> forall i | 0 <= i < |s| ::
              s[i] as int in {0x9, 0xA, 0xB, 0xC, 0xD, 0x20, 0x85, 0xA0, 0x1680, 0x2028, 0x2029, 0x202F, 0x205F, 0x3000}
              || 0x2000 <= s[i] as int <= 0x200A
  {
  }

  /** Everything of a binding but the spans' block hashes is the manifest's. */
  lemma ToBindingKeeps(m: Graph, h: Header)
    ensures var b := ToBinding(m, h);
            && b.manifestPath == m.manifestPath && b.graphPath == m.graphPath && b.graphHash == m.graphHash
            && b.promptByteHash == m.promptByteHash && b.promptTokenHash == m.promptTokenHash
            && b.tokenizerHash == m.tokenizerHash && b.kvHash == m.kvHash && b.artifacts == m.artifacts
            && |b.spans| == |m.spans|
            && forall i | 0 <= i < |m.spans| ::
                 && b.spans[i].nodeId == m.spans[i].nodeId && b.spans[i].cacheRef == m.spans[i].cacheRef
                 && b.spans[i].tokenStart == m.spans[i].tokenStart && b.spans[i].tokenEnd == m.spans[i].tokenEnd
                 && b.spans[i].tokenizerHash == m.spans[i].tokenizerHash
                 && b.spans[i].blockHashes == HashesForSpan(h, m.spans[i].tokenStart, m.spans[i].tokenEnd)
  {
  }

  /** A span without tokens of the context has no blocks. */
  lemma NoSpanNoHashes(h: Header, tokenStart: nat, tokenEnd: nat)
    requires tokenEnd <= tokenStart || tokenStart >= h.seqLen || h.blockSize == 0
    ensures HashesForSpan(h, tokenStart, tokenEnd) == []
  {
  }

  /** Block `b` holds a token of the span [tokenStart, tokenEnd) that the context has. */
  ghost predicate Overlaps(h: Header, b: nat, tokenStart: nat, tokenEnd: nat)
    requires h.blockSize > 0
  {
    exists t: nat :: tokenStart <= t < tokenEnd && t < h.seqLen && t / h.blockSize == b
  }

  /** The blocks a span overlaps are a non-empty run of the header's blocks, and their hashes are what is sent. */
  lemma SpanHashesExact(h: Header, tokenStart: nat, tokenEnd: nat) returns (lo: nat, hi: nat)
    requires Accepted(h) && tokenStart < tokenEnd && tokenStart < h.seqLen
    ensures lo < hi <= |h.blockHashes|
    ensures HashesForSpan(h, tokenStart, tokenEnd) == h.blockHashes[lo..hi]
    ensures forall b: nat :: lo <= b < hi <==> Overlaps(h, b, tokenStart, tokenEnd)
  {
    var last := Min(tokenEnd, h.seqLen) - 1;
    lo, hi := SpanHashesRun(h, tokenStart, tokenEnd, last);
    forall b: nat
      ensures lo <= b < hi <==> Overlaps(h, b, tokenStart, tokenEnd)
    {
      OverlapIsBetween(h, b, tokenStart, tokenEnd, last);
    }
  }

  lemma SpanHashesRun(h: Header, tokenStart: nat, tokenEnd: nat, last: nat) returns (lo: nat, hi: nat)
    requires Accepted(h) && tokenStart < tokenEnd && tokenStart < h.seqLen && last == Min(tokenEnd, h.seqLen) - 1
    ensures lo == tokenStart / h.blockSize && hi == last / h.blockSize + 1
    ensures lo < hi <= |h.blockHashes|
    ensures HashesForSpan(h, tokenStart, tokenEnd) == h.blockHashes[lo..hi]
  {
    SpanBlocks(tokenStart, last, h.seqLen, h.blockSize);
    lo, hi := tokenStart / h.blockSize, last / h.blockSize + 1;
  }

  lemma SpanBlocks(first: nat, last: nat, n: nat, m: nat)
    requires m > 0 && first <= last < n
    ensures 0 <= first / m <= last / m < DivCeil(n, m)
  {
    DivMonotone(first, last, m);
    BlockBelowCount(last, n, m);
  }

  lemma OverlapIsBetween(h: Header, b: nat, tokenStart: nat, tokenEnd: nat, last: nat)
    requires h.blockSize > 0 && tokenStart < tokenEnd && tokenStart < h.seqLen && last == Min(tokenEnd, h.seqLen) - 1
    ensures tokenStart / h.blockSize <= b <= last / h.blockSize <==> Overlaps(h, b, tokenStart, tokenEnd)
  {
    if tokenStart / h.blockSize <= b <= last / h.blockSize {
      TokenInBlock(tokenStart, last, h.blockSize, b);
      var t: nat := Max(tokenStart, b * h.blockSize);
      assert tokenStart <= t < tokenEnd && t < h.seqLen && t / h.blockSize == b;
    }
    if Overlaps(h, b, tokenStart, tokenEnd) {
      var t: nat :| tokenStart <= t < tokenEnd && t < h.seqLen && t / h.blockSize == b;
      DivMonotone(tokenStart, t, h.blockSize);
      DivMonotone(t, last, h.blockSize);
    }
  }

  lemma TokenInBlock(first: nat, last: nat, m: nat, b: nat)
    requires m > 0 && first <= last && first / m <= b <= last / m
    ensures Max(first, b * m) <= last && Max(first, b * m) / m == b
  {
    ModUnique(b, 0, m);
    FactorMonotone(b, last / m, m);
    assert last / m * m + last % m == last;
    if first >= b * m {
      DivMonotone(b * m, first, m);
    }
  }

  lemma FactorMonotone(a: nat, b: nat, m: nat)
    requires a <= b
    ensures a * m <= b * m
  {
  }

  /** What a sender must still see to, given a manifest that loaded. */
  ghost predicate Ready(m: Graph, h: Header)
    requires Accepted(h)
  {
    && !Blank(m.manifestPath) && !Blank(m.graphPath)
    && m.promptTokenHash.Some? && m.tokenizerHash.Some? && m.kvHash.Some?
    && |m.spans| > 0
    && (forall i | 0 <= i < |m.spans| :: ReadySpan(m.spans[i], m.tokenizerHash, h))
    && (forall i | 0 <= i < |m.artifacts| :: !Blank(m.artifacts[i].path))
  }

  ghost predicate ReadySpan(s: Span, tokenizerHash: Option<string>, h: Header)
    requires Accepted(h)
  {
    && s.tokenEnd <= h.seqLen
    && (s.tokenizerHash.Some? && tokenizerHash.Some? ==> s.tokenizerHash == tokenizerHash)
    && forall b: nat | b < |h.blockHashes| && Overlaps(h, b, s.tokenStart, s.tokenEnd) :: IsSha256(h.blockHashes[b])
  }

  lemma SpanAcceptedExactly(s: Span, tokenizerHash: Option<string>, h: Header)
    requires Accepted(h) && LoadedSpan(s)
    ensures var sent := s.(blockHashes := HashesForSpan(h, s.tokenStart, s.tokenEnd));
            AcceptsSpan(sent, tokenizerHash, h) <==> ReadySpan(s, tokenizerHash, h)
  {
    var sent := HashesForSpan(h, s.tokenStart, s.tokenEnd);
    if s.tokenEnd <= h.seqLen {
      var lo, hi := SpanHashesExact(h, s.tokenStart, s.tokenEnd);
      forall i | 0 <= i < |sent|
        ensures sent[i] == h.blockHashes[lo + i] && Overlaps(h, lo + i, s.tokenStart, s.tokenEnd)
      {
      }
      forall b: nat | b < |h.blockHashes| && Overlaps(h, b, s.tokenStart, s.tokenEnd)
        ensures h.blockHashes[b] == sent[b - lo]
      {
      }
    }
  }

  /** A binding built from a loaded manifest passes the daemon's checks exactly when the sender was ready. */
  lemma BindingAcceptedExactly(m: Graph, h: Header)
    requires Accepted(h) && Loaded(m)
    ensures Accepts(ToBinding(m, h), h) <==> Ready(m, h)
  {
    var b := ToBinding(m, h);
    forall i | 0 <= i < |m.spans|
      ensures AcceptsSpan(b.spans[i], m.tokenizerHash, h) <==> ReadySpan(m.spans[i], m.tokenizerHash, h)
    {
      SpanAcceptedExactly(m.spans[i], m.tokenizerHash, h);
    }
  }
}
