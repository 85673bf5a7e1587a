/** The USXF header (crates/usxf-core): the fields the migration protocol reads, and their validation. */
module Header {
  import opened Common

  datatype AttentionType = Mha | Gqa | Mqa | Mla | Hybrid | Other

  /** `usize` fields are 64-bit. */
  datatype Header = Header(
    version: string,
    batchSize: U32,
    seqLen: U64,
    blockSize: U64,
    blockHashes: seq<string>,
    layers: U64,
    kvHeads: U64,
    headDim: U64,
    attention: AttentionType,
    hasMlaSpec: bool,
    configHash: string,
    checksum: string,
    transferScheme: Option<string>)

  predicate StartsWith(s: string, prefix: string)
  {
    |s| >= |prefix| && s[..|prefix|] == prefix
  }

  predicate EndsWith(s: string, suffix: string)
  {
    |s| >= |suffix| && s[|s| - |suffix|..] == suffix
  }

  /** `validate_header`. */
  predicate Accepted(h: Header)
  {
    && h.version == "1.1"
    && h.batchSize == 1
    && h.seqLen > 0
    && h.blockSize > 0
    && |h.blockHashes| == DivCeil(h.seqLen, h.blockSize)
    && (h.attention == Mla ==> h.hasMlaSpec)
    && StartsWith(h.configHash, "sha256:")
    && StartsWith(h.checksum, "sha256:")
  }

  /** `validate_header`: the first check that fails ends it. */
  method ValidateHeader(h: Header) returns (ok: bool)
    ensures ok <==> Accepted(h)
    ensures ok <==>
              && h.version == "1.1" && h.batchSize == 1 && h.seqLen > 0 && h.blockSize > 0
              && (|h.blockHashes| - 1) * h.blockSize < h.seqLen <= |h.blockHashes| * h.blockSize
              && !(h.attention == Mla && !h.hasMlaSpec)
              && |h.configHash| >= 7 && h.configHash[..7] == "sha256:"
              && |h.checksum| >= 7 && h.checksum[..7] == "sha256:"
  {
    if h.version != "1.1" || h.batchSize != 1 || h.seqLen == 0 || h.blockSize == 0 {
      return false;
    }
    HashCountExactly(h);
    var expectedBlocks := DivCeil(h.seqLen, h.blockSize);
    hide DivCeil;
    if |h.blockHashes| != expectedBlocks {
      return false;
    }
    if h.attention == Mla && !h.hasMlaSpec {
      return false;
    }
    if !StartsWith(h.configHash, "sha256:") {
      return false;
    }
    return StartsWith(h.checksum, "sha256:");
  }

  lemma HashCountExactly(h: Header)
    requires h.blockSize > 0
    ensures h.seqLen > 0 ==>
              (|h.blockHashes| == DivCeil(h.seqLen, h.blockSize)
               <==> (|h.blockHashes| - 1) * h.blockSize < h.seqLen <= |h.blockHashes| * h.blockSize)
  {
    var n := |h.blockHashes|;
    DivCeilExactly(h.seqLen, h.blockSize, n);
    if n > 0 {
      DivCeilExactly(h.seqLen, h.blockSize, n - 1);
    }
    hide DivCeil;
  }

  /** `compute_token_block_hashes`: one hash per run of `blockSize` tokens, the last run possibly shorter. */
  function TokenBlockHashes(sha: seq<U32> -> string, tokens: seq<U32>, blockSize: nat): (hashes: seq<string>)
    requires blockSize > 0
    ensures |hashes| == DivCeil(|tokens|, blockSize)
    decreases |tokens|
  {
    if |tokens| == 0 then []
    else if |tokens| <= blockSize then
      ModUnique(1, |tokens| - 1, blockSize);
      [sha(tokens)]
    else
      DivCeilStep(|tokens|, blockSize);
      [sha(tokens[..blockSize])] + TokenBlockHashes(sha, tokens[blockSize..], blockSize)
  }

  lemma DivCeilStep(n: nat, m: nat)
    requires 0 < m <= n
    ensures DivCeil(n, m) == 1 + DivCeil(n - m, m)
  {
    var k := n - 1;
    assert k / m * m + k % m == k;
    assert (k / m + 1) * m == k / m * m + m;
    ModUnique(k / m + 1, k % m, m);
  }

  /** Hash `b` is the hash of exactly the tokens of block `b`. */
  lemma {:induction false} BlockHashMeaning(sha: seq<U32> -> string, tokens: seq<U32>, blockSize: nat, b: nat)
    requires blockSize > 0 && b * blockSize < |tokens|
    ensures b < |TokenBlockHashes(sha, tokens, blockSize)|
    ensures TokenBlockHashes(sha, tokens, blockSize)[b] == sha(tokens[b * blockSize..Min(b * blockSize + blockSize, |tokens|)])
    decreases b
  {
    if b == 0 {
      assert tokens[0..Min(blockSize, |tokens|)] == if |tokens| <= blockSize then tokens else tokens[..blockSize];
    } else {
      NextBlock(tokens, blockSize, b);
      BlockHashMeaning(sha, tokens[blockSize..], blockSize, b - 1);
    }
  }

  lemma NextBlock(tokens: seq<U32>, blockSize: nat, b: nat)
    requires blockSize > 0 && b > 0 && b * blockSize < |tokens|
    ensures |tokens| > blockSize && (b - 1) * blockSize < |tokens[blockSize..]|
    ensures var from, rest := (b - 1) * blockSize, tokens[blockSize..];
            rest[from..Min(from + blockSize, |rest|)] == tokens[b * blockSize..Min(b * blockSize + blockSize, |tokens|)]
  {
    assert b * blockSize == (b - 1) * blockSize + blockSize;
    assert (b - 1) * blockSize >= 0;
  }

  /** All block hashes of a header name different blocks. */
  predicate DistinctHashes(hashes: seq<string>)
  {
    forall i, j :: 0 <= i < j < |hashes| ==> hashes[i] != hashes[j]
  }

  /** A run of the simulator's constant token. */
  function Constant(token: U32, n: nat): (tokens: seq<U32>)
    ensures |tokens| == n && forall i | 0 <= i < n :: tokens[i] == token
  {
    seq(n, _ => token)
  }

  /** The hash of block `b` of a constant context: that of a full run, or of the shorter run at the end. */
  lemma ConstantBlockHash(sha: seq<U32> -> string, token: U32, seqLen: nat, blockSize: nat, b: nat)
    requires blockSize > 0 && b * blockSize < seqLen
    ensures b < |TokenBlockHashes(sha, Constant(token, seqLen), blockSize)|
    ensures TokenBlockHashes(sha, Constant(token, seqLen), blockSize)[b]
            == sha(Constant(token, Min(blockSize, seqLen - b * blockSize)))
  {
    var tokens := Constant(token, seqLen);
    BlockHashMeaning(sha, tokens, blockSize, b);
    assert tokens[b * blockSize..Min(b * blockSize + blockSize, seqLen)] == Constant(token, Min(blockSize, seqLen - b * blockSize));
  }

  /**
   The simulator sends a constant token. Whatever the hash function, two full blocks collide, so its block hashes are
   distinct exactly for a context of one block, or of one full block and a shorter one with another hash.
   */
  lemma ConstantTokensCollide(sha: seq<U32> -> string, token: U32, seqLen: nat, blockSize: nat)
    requires blockSize > 0
    ensures DistinctHashes(TokenBlockHashes(sha, Constant(token, seqLen), blockSize))
            <==> seqLen <= blockSize
                 || (seqLen < 2 * blockSize && sha(Constant(token, blockSize)) != sha(Constant(token, seqLen - blockSize)))
  {
    var hashes := TokenBlockHashes(sha, Constant(token, seqLen), blockSize);
    if seqLen > blockSize {
      ConstantBlockHash(sha, token, seqLen, blockSize, 0);
      ConstantBlockHash(sha, token, seqLen, blockSize, 1);
      if seqLen < 2 * blockSize {
        ModUnique(2, seqLen - blockSize - 1, blockSize);
      }
    } else if seqLen > 0 {
      ModUnique(1, seqLen - 1, blockSize);
    }
  }
}
