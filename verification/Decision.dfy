/** The warm-start decision (crates/orchestrator/src/decision.rs), over exact reals and 64-bit wrapping byte counts. */
module Decision {
  import opened Common

  datatype Model = Model(layers: U64, kvHeads: U64, headDim: U64)

  /** Without a bandwidth there is no finite transfer time. */
  datatype Decision = Decision(shouldMigrate: bool, transferSecs: Option<real>, prefillSecs: real, kvBytes: U64)

  function BytesPerElement(scheme: Option<string>): nat
  {
    if scheme == Some("fp8") || scheme == Some("int8") then 1 else 2
  }

  /** Elements per token of context. */
  function Elements(m: Model): nat
  {
    m.layers * 2 * m.kvHeads * m.headDim
  }

  /** The KV cache size before any wrap-around. */
  function KvBytes(m: Model, scheme: Option<string>, seqLen: nat): nat
  {
    Elements(m) * seqLen * BytesPerElement(scheme)
  }

  function PrefillSecs(seqLen: nat): real
  {
    seqLen as real * 0.00001 + seqLen as real * seqLen as real * 0.0000000006
  }

  function TransferSecs(bits: nat, bandwidth: real): Option<real>
  {
    if bandwidth == 0.0 then None else Some(bits as real / bandwidth + 0.15)
  }

  /** The decision rule on a given number of bits to transfer. */
  predicate Worthwhile(bits: nat, seqLen: nat, bandwidth: real)
  {
    var transfer := TransferSecs(bits, bandwidth);
    transfer.Some? && transfer.value <= PrefillSecs(seqLen) * 0.7
  }

  /** The number of bits the code computes: both products wrap at 64 bits in a release build. */
  function Bits(m: Model, scheme: Option<string>, seqLen: nat): (bits: nat)
    ensures bits <= KvBytes(m, scheme, seqLen) * 8
    ensures KvBytes(m, scheme, seqLen) * 8 < U64_LIMIT ==> bits == KvBytes(m, scheme, seqLen) * 8
    ensures bits < U64_LIMIT
  {
    WrappedEightfold(KvBytes(m, scheme, seqLen));
    KvBytes(m, scheme, seqLen) % U64_LIMIT * 8 % U64_LIMIT
  }

  lemma WrappedEightfold(bytes: nat)
    ensures 0 <= bytes % U64_LIMIT * 8 % U64_LIMIT < U64_LIMIT
    ensures bytes % U64_LIMIT * 8 % U64_LIMIT <= bytes * 8
    ensures bytes * 8 < U64_LIMIT ==> bytes % U64_LIMIT * 8 % U64_LIMIT == bytes * 8
  {
    ModBelow(bytes, U64_LIMIT);
    ModBelow(bytes % U64_LIMIT * 8, U64_LIMIT);
  }

  lemma ModBelow(n: nat, m: nat)
    requires m > 0
    ensures 0 <= n % m < m && n % m <= n && (n < m ==> n % m == n)
  {
    if n < m {
      ModUnique(0, n, m);
    }
  }

  /** `evaluate_migration`. */
  function Evaluate(m: Model, scheme: Option<string>, seqLen: U64, bandwidth: real): (d: Decision)
    ensures d.kvBytes == KvBytes(m, scheme, seqLen) % 0x1_0000_0000_0000_0000
    ensures KvBytes(m, scheme, seqLen) * 8 < U64_LIMIT ==>
              (d.shouldMigrate <==> Worthwhile(KvBytes(m, scheme, seqLen) * 8, seqLen, bandwidth))
  {
    var bits := Bits(m, scheme, seqLen);
    Decision(Worthwhile(bits, seqLen, bandwidth), TransferSecs(bits, bandwidth), PrefillSecs(seqLen),
             KvBytes(m, scheme, seqLen) % U64_LIMIT)
  }

  /** The sizes and the seconds behind an answer, from the model's own dimensions. */
  lemma EvaluateExactly(m: Model, scheme: Option<string>, n: U64, bandwidth: real)
    ensures KvBytes(m, scheme, n)
            == m.layers * 2 * m.kvHeads * m.headDim * n * (if scheme in {Some("fp8"), Some("int8")} then 1 else 2)
    ensures var d := Evaluate(m, scheme, n, bandwidth);
            var bits := d.kvBytes * 8 % 0x1_0000_0000_0000_0000;
            && d.prefillSecs == n as real * 0.00001 + n as real * n as real * 0.0000000006
            && (bandwidth == 0.0 ==> d.transferSecs == None && !d.shouldMigrate)
            && (bandwidth != 0.0 ==>
                  && d.transferSecs == Some(bits as real / bandwidth + 0.15)
                  && (d.shouldMigrate <==> bits as real / bandwidth + 0.15 <= 0.7 * d.prefillSecs))
  {
    hide Elements;
    SizeExactly(m, scheme, n);
  }

  lemma SizeExactly(m: Model, scheme: Option<string>, n: nat)
    ensures KvBytes(m, scheme, n)
            == m.layers * 2 * m.kvHeads * m.headDim * n * (if scheme in {Some("fp8"), Some("int8")} then 1 else 2)
  {
  }

  /** Whether migration is recommended when no product wraps. */
  predicate Recommended(m: Model, scheme: Option<string>, seqLen: nat, bandwidth: real)
  {
    Worthwhile(KvBytes(m, scheme, seqLen) * 8, seqLen, bandwidth)
  }

  /** Bits per token of context. */
  function BitsPerToken(m: Model, scheme: Option<string>): nat
  {
    Elements(m) * BytesPerElement(scheme) * 8
  }

  lemma BitsAreLinear(m: Model, scheme: Option<string>, seqLen: nat)
    ensures KvBytes(m, scheme, seqLen) * 8 == BitsPerToken(m, scheme) * seqLen
  {
    hide Elements;
    SwapFactors(Elements(m), seqLen, BytesPerElement(scheme));
  }

  lemma SwapFactors(a: nat, n: nat, b: nat)
    ensures a * n * b * 8 == a * b * 8 * n
  {
    assert a * n * b == a * b * n;
  }

  /** The rule as a quadratic in the token count, with `c` transfer seconds per token. */
  predicate Pays(c: real, n: nat)
  {
    n as real * (n as real * 0.00000000042 + 0.000007 - c) >= 0.15
  }

  lemma RecommendedAsQuadratic(m: Model, scheme: Option<string>, n: nat, bandwidth: real)
    requires bandwidth > 0.0
    ensures Recommended(m, scheme, n, bandwidth) <==> Pays(BitsPerToken(m, scheme) as real / bandwidth, n)
  {
    BitsAreLinear(m, scheme, n);
    var k := BitsPerToken(m, scheme);
    assert (k * n) as real == k as real * n as real;
    var c := k as real / bandwidth;
    assert k as real * n as real / bandwidth == c * n as real;
    var x := n as real;
    assert PrefillSecs(n) * 0.7 == x * 0.000007 + x * x * 0.00000000042;
    assert x * (x * 0.00000000042 + 0.000007 - c) == x * x * 0.00000000042 + x * 0.000007 - c * x;
  }

  lemma PaysUpward(c: real, n: nat, n': nat)
    requires n <= n' && Pays(c, n)
    ensures Pays(c, n')
  {
    var x, x' := n as real, n' as real;
    var s, s' := x * 0.00000000042 + 0.000007 - c, x' * 0.00000000042 + 0.000007 - c;
    assert s <= 0.0 ==> x * s <= 0.0;
    assert x * s <= x' * s;
    assert x' * s <= x' * s';
  }

  lemma PaysEventually(c: real) returns (n: nat)
    requires c >= 0.0
    ensures Pays(c, n)
  {
    var wanted := (c + 1.0) * 2400000000.0;
    n := wanted.Floor + 1;
    assert n as real >= wanted;
    var s := n as real * 0.00000000042 + 0.000007 - c;
    assert s >= 0.000007;
    assert n as real * s >= n as real * 0.000007;
  }

  /** There is exactly one crossover: from some positive length on, and only from there, migration is recommended. */
  lemma SingleCrossover(m: Model, scheme: Option<string>, bandwidth: real) returns (threshold: nat)
    requires bandwidth > 0.0
    ensures threshold > 0
    ensures forall n: nat :: Recommended(m, scheme, n, bandwidth) <==> threshold <= n
  {
    var c := BitsPerToken(m, scheme) as real / bandwidth;
    threshold := PaysEventually(c);
    while Pays(c, threshold - 1)
      invariant threshold > 0 && Pays(c, threshold)
      decreases threshold
    {
      threshold := threshold - 1;
    }
    forall n: nat
      ensures Recommended(m, scheme, n, bandwidth) <==> threshold <= n
    {
      RecommendedAsQuadratic(m, scheme, n, bandwidth);
      if threshold <= n {
        PaysUpward(c, threshold, n);
      } else if Pays(c, n) {
        PaysUpward(c, n, threshold - 1);
      }
    }
  }

  // ---- What the code answers ----

  /** Seconds left for the transfer itself. */
  function Budget(n: nat): real { PrefillSecs(n) * 0.7 - 0.15 }

  /** The shortest context for which any transfer pays. */
  const SHORTEST: nat := 12321

  lemma BudgetSign(n: nat)
    ensures n >= SHORTEST ==> Budget(n) > 0.0
    ensures n < SHORTEST ==> Budget(n) < 0.0
  {
    var x := n as real;
    assert Budget(n) == x * (0.000007 + x * 0.00000000042) - 0.15;
    if n >= SHORTEST {
      ProductGrows(12321.0, 0.000007 + 12321.0 * 0.00000000042, x, 0.000007 + x * 0.00000000042);
    } else {
      ProductGrows(x, 0.000007 + x * 0.00000000042, 12320.0, 0.000007 + 12320.0 * 0.00000000042);
    }
  }

  lemma ProductGrows(a: real, b: real, c: real, d: real)
    requires 0.0 <= a <= c && 0.0 <= b <= d
    ensures a * b <= c * d
  {
    assert a * b <= c * b <= c * d;
  }

  /** The rule without a division. */
  lemma WithinBudget(bits: nat, n: nat, bandwidth: real)
    requires bandwidth > 0.0
    ensures Worthwhile(bits, n, bandwidth) <==> bits as real <= Budget(n) * bandwidth
  {
    var t, b := bits as real / bandwidth, Budget(n);
    assert t * bandwidth == bits as real;
    assert t <= b ==> t * bandwidth <= b * bandwidth;
    assert t > b ==> t * bandwidth > b * bandwidth;
  }

  /** Transferring no more bits over a link no slower never turns a yes into a no. */
  lemma FewerBitsFasterLink(bits: nat, bits': nat, n: nat, bandwidth: real, bandwidth': real)
    requires 0.0 < bandwidth <= bandwidth' && bits' <= bits && Worthwhile(bits, n, bandwidth)
    ensures Worthwhile(bits', n, bandwidth')
  {
    hide Worthwhile, Budget;
    WithinBudget(bits, n, bandwidth);
    WithinBudget(bits', n, bandwidth');
    var b := Budget(n);
    assert b < 0.0 ==> b * bandwidth < 0.0;
    assert b * bandwidth <= b * bandwidth';
  }

  /** From the shortest context on, some link takes the smaller transfer but not the larger. */
  lemma LinkBetween(few: nat, many: nat, n: nat) returns (bandwidth: real)
    requires few < many && n >= SHORTEST
    ensures bandwidth > 0.0 && Worthwhile(few, n, bandwidth) && !Worthwhile(many, n, bandwidth)
  {
    hide Worthwhile, Budget;
    BudgetSign(n);
    var between := (few as real + many as real) / 2.0;
    bandwidth := between / Budget(n);
    assert Budget(n) * bandwidth == between;
    assert bandwidth > 0.0;
    WithinBudget(few, n, bandwidth);
    WithinBudget(many, n, bandwidth);
  }

  lemma NoLinkTooShort(bits: nat, n: nat, bandwidth: real)
    requires n < SHORTEST && bandwidth > 0.0
    ensures !Worthwhile(bits, n, bandwidth)
  {
    hide Worthwhile, Budget;
    BudgetSign(n);
    WithinBudget(bits, n, bandwidth);
    assert Budget(n) * bandwidth < 0.0;
  }

  /** Two byte counts give the same or a more willing answer on every link. */
  ghost predicate NoLessWilling(bits: nat, bits': nat, n: nat)
  {
    forall bandwidth: real | bandwidth > 0.0 && Worthwhile(bits, n, bandwidth) :: Worthwhile(bits', n, bandwidth)
  }

  lemma WillingExactly(bits: nat, bits': nat, n: nat)
    ensures NoLessWilling(bits, bits', n) <==> n < SHORTEST || bits' <= bits
  {
    hide Worthwhile;
    if n < SHORTEST {
      forall bandwidth: real | bandwidth > 0.0
        ensures !Worthwhile(bits, n, bandwidth)
      {
        NoLinkTooShort(bits, n, bandwidth);
      }
    } else if bits' <= bits {
      forall bandwidth: real | bandwidth > 0.0 && Worthwhile(bits, n, bandwidth)
        ensures Worthwhile(bits', n, bandwidth)
      {
        FewerBitsFasterLink(bits, bits', n, bandwidth, bandwidth);
      }
    } else {
      var bandwidth := LinkBetween(bits, bits', n);
    }
  }

  /** The code never misses a recommendation: what wraps is fewer bits, so it can only say yes too often. */
  lemma NeverMissed(m: Model, scheme: Option<string>, n: U64, bandwidth: real)
    requires bandwidth > 0.0 && Recommended(m, scheme, n, bandwidth)
    ensures Evaluate(m, scheme, n, bandwidth).shouldMigrate
  {
    hide KvBytes, Bits, Worthwhile;
    FewerBitsFasterLink(KvBytes(m, scheme, n) * 8, Bits(m, scheme, n), n, bandwidth, bandwidth);
  }

  /** On every link the code answers by the rule exactly when the context is too short to pay at all or its bits fit 64 bits. */
  lemma AnswersExactly(m: Model, scheme: Option<string>, n: U64)
    ensures (forall bandwidth: real | bandwidth > 0.0 ::
               Evaluate(m, scheme, n, bandwidth).shouldMigrate <==> Recommended(m, scheme, n, bandwidth))
            <==> n < SHORTEST || KvBytes(m, scheme, n) * 8 < U64_LIMIT
  {
    hide KvBytes, Bits, Worthwhile;
    var exact, wrapped := KvBytes(m, scheme, n) * 8, Bits(m, scheme, n);
    if n < SHORTEST {
      forall bandwidth: real | bandwidth > 0.0
        ensures Evaluate(m, scheme, n, bandwidth).shouldMigrate <==> Recommended(m, scheme, n, bandwidth)
      {
        NoLinkTooShort(exact, n, bandwidth);
        NoLinkTooShort(wrapped, n, bandwidth);
      }
    } else if exact >= U64_LIMIT {
      var bandwidth := LinkBetween(wrapped, exact, n);
      assert Evaluate(m, scheme, n, bandwidth).shouldMigrate && !Recommended(m, scheme, n, bandwidth);
    }
  }

  /** Raising the bandwidth never turns a yes of the code into a no. */
  lemma MonotoneInLink(m: Model, scheme: Option<string>, n: U64, bandwidth: real, bandwidth': real)
    requires 0.0 < bandwidth <= bandwidth' && Evaluate(m, scheme, n, bandwidth).shouldMigrate
    ensures Evaluate(m, scheme, n, bandwidth').shouldMigrate
  {
    hide Bits, Worthwhile;
    FewerBitsFasterLink(Bits(m, scheme, n), Bits(m, scheme, n), n, bandwidth, bandwidth');
  }

  predicate OneByte(scheme: Option<string>) { scheme == Some("fp8") || scheme == Some("int8") }

  /**
   Choosing a one-byte codec never turns a yes of the code into a no, on any link, exactly when the context is too short
   to pay at all or its wrapped bit count is no larger; below the 64-bit limit it never is.
   */
  lemma MonotoneInCodecExactly(m: Model, scheme: Option<string>, scheme': Option<string>, n: U64)
    requires OneByte(scheme')
    ensures (forall bandwidth: real | bandwidth > 0.0 && Evaluate(m, scheme, n, bandwidth).shouldMigrate ::
               Evaluate(m, scheme', n, bandwidth).shouldMigrate)
            <==> n < SHORTEST || Bits(m, scheme', n) <= Bits(m, scheme, n)
    ensures KvBytes(m, scheme, n) * 8 < U64_LIMIT ==> Bits(m, scheme', n) <= Bits(m, scheme, n)
  {
    FewerBytes(m, scheme, scheme', n);
    hide Bits, KvBytes, Worthwhile, NoLessWilling;
    WillingExactly(Bits(m, scheme, n), Bits(m, scheme', n), n);
    AsEvaluated(m, scheme, scheme', n);
  }

  lemma AsEvaluated(m: Model, scheme: Option<string>, scheme': Option<string>, n: U64)
    ensures NoLessWilling(Bits(m, scheme, n), Bits(m, scheme', n), n)
            <==> forall bandwidth: real | bandwidth > 0.0 && Evaluate(m, scheme, n, bandwidth).shouldMigrate ::
                   Evaluate(m, scheme', n, bandwidth).shouldMigrate
  {
    hide Bits, KvBytes, Worthwhile;
    forall bandwidth: real
      ensures Evaluate(m, scheme, n, bandwidth).shouldMigrate == Worthwhile(Bits(m, scheme, n), n, bandwidth)
      ensures Evaluate(m, scheme', n, bandwidth).shouldMigrate == Worthwhile(Bits(m, scheme', n), n, bandwidth)
    {
    }
  }

  lemma FewerBytes(m: Model, scheme: Option<string>, scheme': Option<string>, n: nat)
    requires OneByte(scheme')
    ensures KvBytes(m, scheme', n) <= KvBytes(m, scheme, n)
  {
    hide Elements;
    var a := Elements(m) * n;
    assert a * BytesPerElement(scheme') <= a * BytesPerElement(scheme);
  }

  /**
   Where the 64-bit limit is passed, both closures fail: at 2^50 bits per token, 16384 tokens wrap to no bits at all and
   are recommended; one token more is not, and neither are 16384 tokens of half the size.
   */
  lemma WrapAroundBreaksClosure()
    ensures var m := Model(0x10_0000, 0x10_0000, 0x20);
            && Evaluate(m, None, 16384, 1000000000.0).shouldMigrate
            && !Evaluate(m, None, 16385, 1000000000.0).shouldMigrate
            && !Evaluate(m, Some("fp8"), 16384, 1000000000.0).shouldMigrate
  {
    var m := Model(0x10_0000, 0x10_0000, 0x20);
    assert Elements(m) == 0x4000_0000_0000;
    assert KvBytes(m, None, 16384) == 0x2000_0000_0000_0000;
    assert KvBytes(m, None, 16385) == 0x2000_0000_0000_0000 + 0x8000_0000_0000;
    assert KvBytes(m, Some("fp8"), 16384) == 0x1000_0000_0000_0000;
  }

  lemma Divided(a: real, b: real, x: real)
    requires b > 0.0
    ensures a <= b * x <==> a / b <= x
  {
    var q := a / b;
    assert q * b == a;
    assert q <= x ==> q * b <= x * b;
    assert q > x ==> q * b > x * b;
  }

  lemma CrossMultiplied(a: real, b: real, c: real, d: real)
    requires b > 0.0 && d > 0.0
    ensures c / d <= a / b <==> c * b <= a * d
  {
    var p, q := a / b, c / d;
    assert p * b == a && q * d == c;
    assert c * b == q * (b * d) && a * d == p * (b * d);
    assert b * d > 0.0;
    assert q <= p ==> q * (b * d) <= p * (b * d);
    assert q > p ==> q * (b * d) > p * (b * d);
  }

  /** A longer context keeps the code's yes. */
  predicate Keeps(m: Model, scheme: Option<string>, n: U64, n': U64, bandwidth: real)
  {
    Evaluate(m, scheme, n, bandwidth).shouldMigrate ==> Evaluate(m, scheme, n', bandwidth).shouldMigrate
  }

  function Weighed(bits: nat, n: nat): real { bits as real * Budget(n) }

  /** The slowest link the code says yes on. */
  function Slowest(m: Model, scheme: Option<string>, n: nat): (bandwidth: real)
    requires n >= SHORTEST
  {
    BudgetSign(n);
    Bits(m, scheme, n) as real / Budget(n)
  }

  lemma YesFromSlowest(m: Model, scheme: Option<string>, n: U64, bandwidth: real)
    requires n >= SHORTEST && bandwidth > 0.0
    ensures Slowest(m, scheme, n) >= 0.0
    ensures Evaluate(m, scheme, n, bandwidth).shouldMigrate <==> Slowest(m, scheme, n) <= bandwidth
  {
    hide Bits, Worthwhile, Budget, KvBytes;
    BudgetSign(n);
    WithinBudget(Bits(m, scheme, n), n, bandwidth);
    Divided(Bits(m, scheme, n) as real, Budget(n), bandwidth);
  }

  /**
   On every link a longer context keeps the code's yes exactly when the shorter one is too short to pay at all, or its
   wrapped bits per second of budget are no fewer: the crossover is single precisely where this holds of all pairs.
   */
  lemma ClosedExactly(m: Model, scheme: Option<string>, n: U64, n': U64)
    requires n <= n'
    ensures (forall bandwidth: real | bandwidth > 0.0 :: Keeps(m, scheme, n, n', bandwidth))
            <==> n < SHORTEST || Weighed(Bits(m, scheme, n'), n) <= Weighed(Bits(m, scheme, n), n')
  {
    if n < SHORTEST {
      hide Worthwhile;
      forall bandwidth: real | bandwidth > 0.0
        ensures Keeps(m, scheme, n, n', bandwidth)
      {
        NoLinkTooShort(Bits(m, scheme, n), n, bandwidth);
      }
    } else {
      LongContextsExactly(m, scheme, n, n');
    }
  }

  lemma LongContextsExactly(m: Model, scheme: Option<string>, n: U64, n': U64)
    requires SHORTEST <= n <= n'
    ensures (forall bandwidth: real | bandwidth > 0.0 :: Keeps(m, scheme, n, n', bandwidth))
            <==> Weighed(Bits(m, scheme, n'), n) <= Weighed(Bits(m, scheme, n), n')
  {
    hide Bits, Evaluate, Slowest, Weighed;
    SlowestCompared(m, scheme, n, n');
    SlowestDecides(m, scheme, n, n');
  }

  lemma SlowestCompared(m: Model, scheme: Option<string>, n: nat, n': nat)
    requires SHORTEST <= n <= n'
    ensures Slowest(m, scheme, n') <= Slowest(m, scheme, n)
            <==> Weighed(Bits(m, scheme, n'), n) <= Weighed(Bits(m, scheme, n), n')
  {
    hide Bits, Budget;
    BudgetSign(n);
    BudgetSign(n');
    CrossMultiplied(Bits(m, scheme, n) as real, Budget(n), Bits(m, scheme, n') as real, Budget(n'));
  }

  lemma SlowestDecides(m: Model, scheme: Option<string>, n: U64, n': U64)
    requires SHORTEST <= n <= n'
    ensures (forall bandwidth: real | bandwidth > 0.0 :: Keeps(m, scheme, n, n', bandwidth))
            <==> Slowest(m, scheme, n') <= Slowest(m, scheme, n)
  {
    hide Evaluate, Slowest;
    forall bandwidth: real | bandwidth > 0.0
      ensures Keeps(m, scheme, n, n', bandwidth)
              <==> (Slowest(m, scheme, n) <= bandwidth ==> Slowest(m, scheme, n') <= bandwidth)
    {
      YesFromSlowest(m, scheme, n, bandwidth);
      YesFromSlowest(m, scheme, n', bandwidth);
    }
    YesFromSlowest(m, scheme, n, 1.0);
    if Slowest(m, scheme, n') > Slowest(m, scheme, n) {
      var between := (Slowest(m, scheme, n) + Slowest(m, scheme, n')) / 2.0;
      assert !Keeps(m, scheme, n, n', between);
    }
  }

  /** Below the limit the code's answers have the single crossover. */
  lemma CodeHasSingleCrossover(m: Model, scheme: Option<string>, bandwidth: real, limit: U64) returns (threshold: nat)
    requires bandwidth > 0.0 && KvBytes(m, scheme, limit) * 8 < U64_LIMIT
    ensures threshold > 0
    ensures forall n: U64 | n <= limit :: Evaluate(m, scheme, n, bandwidth).shouldMigrate <==> threshold <= n
  {
    hide KvBytes, BitsPerToken, Worthwhile;
    threshold := SingleCrossover(m, scheme, bandwidth);
    forall n: U64 | n <= limit
      ensures Evaluate(m, scheme, n, bandwidth).shouldMigrate <==> threshold <= n
    {
      FitsBelow(m, scheme, n, limit);
      assert Recommended(m, scheme, n, bandwidth) <==> threshold <= n;
    }
  }

  lemma FitsBelow(m: Model, scheme: Option<string>, n: nat, limit: nat)
    requires n <= limit
    ensures KvBytes(m, scheme, n) * 8 <= KvBytes(m, scheme, limit) * 8
  {
    hide KvBytes, BitsPerToken;
    BitsAreLinear(m, scheme, n);
    BitsAreLinear(m, scheme, limit);
    assert BitsPerToken(m, scheme) * n <= BitsPerToken(m, scheme) * limit;
  }
}
