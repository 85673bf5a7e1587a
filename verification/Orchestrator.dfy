/** Admission control (crates/orchestrator/src/lib.rs and policy.rs): concurrency limit, memory quota, circuit breaker. */
module Orchestrator {
  import opened Common
  import Decision

  datatype Policy = Policy(maxConcurrent: U64, maxMemory: U64, breakerThreshold: U32)

  /** The orchestrator's counters. */
  datatype Book = Book(active: U64, failures: U32)

  /** The size the quota check sees: what the decision computes, modulo 2^64. */
  function Checked(bytes: nat): nat { bytes % U64_LIMIT }

  /**
   All three checks of `initiate_migration` pass. The quota is checked against this request alone.
   */
  predicate Admits(p: Policy, b: Book, bytes: nat)
  {
    b.failures < p.breakerThreshold && b.active < p.maxConcurrent && Checked(bytes) <= p.maxMemory
  }

  function Finished(b: Book): Book
  {
    if b.active > 0 then b.(active := b.active - 1) else b
  }

  /** `record_failure`: the failure counter is a u32 and wraps. */
  function AfterFailure(b: Book): Book { Finished(b).(failures := (b.failures + 1) % U32_LIMIT) }

  function AfterSuccess(b: Book): Book { Finished(b).(failures := 0) }

  function Recorded(b: Book, success: bool): Book { if success then AfterSuccess(b) else AfterFailure(b) }

  class MigrationOrchestrator {
    const policy: Policy
    var active: U64
    var failures: U32

    function Counters(): Book
      reads this
    {
      Book(active, failures)
    }

    constructor (policy: Policy)
      ensures this.policy == policy && Counters() == Book(0, 0)
    {
      this.policy, active, failures := policy, 0, 0;
    }

    /** Counts the migration in exactly when every check passes; whether it is worthwhile is only reported. */
    method InitiateMigration(m: Decision.Model, scheme: Option<string>, seqLen: U64, bandwidth: real)
        returns (r: Result<Decision.Decision>)
      modifies this
      ensures var d := Decision.Evaluate(m, scheme, seqLen, bandwidth);
              if Admits(policy, old(Counters()), Decision.KvBytes(m, scheme, seqLen))
              then r == Success(d) && Counters() == old(Counters()).(active := old(active) + 1)
              else r.Failure? && Counters() == old(Counters())
      ensures r.Success? <==>
                && old(failures) < policy.breakerThreshold && old(active) < policy.maxConcurrent
                && m.layers * 2 * m.kvHeads * m.headDim * seqLen * (if scheme in {Some("fp8"), Some("int8")} then 1 else 2)
                   % 0x1_0000_0000_0000_0000 <= policy.maxMemory
    {
      if failures >= policy.breakerThreshold {
        return Failure("Circuit breaker active");
      }
      if active >= policy.maxConcurrent {
        return Failure("Max concurrent migrations");
      }
      var decision := Decision.Evaluate(m, scheme, seqLen, bandwidth);
      if decision.kvBytes > policy.maxMemory {
        return Failure("Memory quota exceeded");
      }
      active := active + 1;
      return Success(decision);
    }

    method RecordFailure()
      modifies this
      ensures Counters() == AfterFailure(old(Counters()))
      ensures failures == (old(failures) + 1) % 0x1_0000_0000 && active == if old(active) == 0 then 0 else old(active) - 1
    {
      failures := (failures + 1) % U32_LIMIT;
      if active > 0 {
        active := active - 1;
      }
    }

    method RecordSuccess()
      modifies this
      ensures Counters() == AfterSuccess(old(Counters()))
      ensures failures == 0 && active == if old(active) == 0 then 0 else old(active) - 1
    {
      failures := 0;
      if active > 0 {
        active := active - 1;
      }
    }
  }

  /**
   What happens to an orchestrator: a request, the end of a live migration, or an outcome recorded for a
   migration it never admitted (the daemon records outcomes without asking for admission).
   */
  datatype Event = Start(bytes: nat) | Finish(which: nat, success: bool) | Stray(success: bool)

  /** The counters beside the migrations really in flight, with the true size of each. */
  datatype World = World(book: Book, live: seq<nat>)

  const FRESH := World(Book(0, 0), [])

  function Remove(live: seq<nat>, i: nat): seq<nat>
    requires i < |live|
  {
    live[..i] + live[i + 1..]
  }

  function Step(p: Policy, w: World, e: Event): World
  {
    match e
    case Start(bytes) =>
      if Admits(p, w.book, bytes) then World(w.book.(active := w.book.active + 1), w.live + [bytes]) else w
    case Finish(i, success) =>
      if i < |w.live| then World(Recorded(w.book, success), Remove(w.live, i)) else w
    case Stray(success) => w.(book := Recorded(w.book, success))
  }

  function Run(p: Policy, w: World, events: seq<Event>): World
  {
    if events == [] then w else Step(p, Run(p, w, events[..|events| - 1]), events[|events| - 1])
  }

  function Strays(events: seq<Event>): nat
  {
    if events == [] then 0
    else Strays(events[..|events| - 1]) + (if events[|events| - 1].Stray? then 1 else 0)
  }

  function Sum(live: seq<nat>): nat
  {
    if live == [] then 0 else Sum(live[..|live| - 1]) + live[|live| - 1]
  }

  lemma {:induction false} SumBound(live: seq<nat>, quota: nat)
    requires forall i | 0 <= i < |live| :: live[i] <= quota
    ensures Sum(live) <= |live| * quota
  {
    if live == [] {
    } else {
      SumBound(live[..|live| - 1], quota);
    }
  }

  /** The counter never passes the limit, and lags behind the live migrations by at most the number of strays. */
  lemma {:induction false} CountersTrackLive(p: Policy, events: seq<Event>)
    ensures var w := Run(p, FRESH, events);
            && w.book.active <= p.maxConcurrent
            && w.book.active <= |w.live| <= w.book.active + Strays(events)
            && forall i | 0 <= i < |w.live| :: Checked(w.live[i]) <= p.maxMemory
  {
    if events == [] {
    } else {
      CountersTrackLive(p, events[..|events| - 1]);
    }
  }

  /**
   Over every run the live migrations number at most the limit plus the strays. Each is within the quota exactly when its
   true size is below 2^64, and if all are, together they hold at most that many quotas. Without strays that is the
   configured limit, and the counter is exact.
   */
  lemma AdmissionBounds(p: Policy, events: seq<Event>)
    ensures var w := Run(p, FRESH, events);
            && |w.live| <= p.maxConcurrent + Strays(events)
            && (forall i | 0 <= i < |w.live| :: w.live[i] <= p.maxMemory <==> w.live[i] < U64_LIMIT)
            && ((forall i | 0 <= i < |w.live| :: w.live[i] < U64_LIMIT) ==>
                  Sum(w.live) <= (p.maxConcurrent + Strays(events)) * p.maxMemory)
            && (Strays(events) == 0 ==> w.book.active == |w.live|)
  {
    hide Checked, Run;
    var w := Run(p, FRESH, events);
    CountersTrackLive(p, events);
    forall i | 0 <= i < |w.live|
      ensures w.live[i] <= p.maxMemory <==> w.live[i] < U64_LIMIT
    {
      WithinQuota(w.live[i], p.maxMemory);
    }
    if forall i | 0 <= i < |w.live| :: w.live[i] < U64_LIMIT {
      SumBound(w.live, p.maxMemory);
      TimesMonotone(|w.live|, p.maxConcurrent + Strays(events), p.maxMemory);
    }
  }

  lemma WithinQuota(bytes: nat, quota: U64)
    requires Checked(bytes) <= quota
    ensures bytes <= quota <==> bytes < U64_LIMIT
  {
    if bytes < U64_LIMIT {
      ModUnique(0, bytes, U64_LIMIT);
    }
  }

  /** A request of 2^64 bytes, or any multiple, passes every quota. */
  lemma WrappedSizePasses(p: Policy, k: nat)
    requires p.maxConcurrent > 0 && p.breakerThreshold > 0
    ensures Run(p, FRESH, [Start(k * U64_LIMIT)]).live == [k * U64_LIMIT]
  {
    ModUnique(k, 0, U64_LIMIT);
    var e := [Start(k * U64_LIMIT)];
    assert Run(p, FRESH, e) == Step(p, Run(p, FRESH, e[..0]), e[0]);
  }

  lemma TimesMonotone(a: nat, b: nat, m: nat)
    requires a <= b
    ensures a * m <= b * m
  {
  }

  /** The bound is met: each stray success lets one migration too many in, each for a whole quota. */
  lemma {:induction false} StraysBreakTheLimit(p: Policy, strays: nat) returns (events: seq<Event>)
    requires p.maxConcurrent > 0 && p.breakerThreshold > 0
    ensures Strays(events) == strays
    ensures var w := Run(p, FRESH, events);
            && w.book == Book(p.maxConcurrent, 0)
            && |w.live| == p.maxConcurrent + strays
            && forall i | 0 <= i < |w.live| :: w.live[i] == p.maxMemory
    decreases strays
  {
    if strays == 0 {
      events := FillUp(p, p.maxConcurrent);
    } else {
      var before := StraysBreakTheLimit(p, strays - 1);
      var middle := before + [Stray(true)];
      events := middle + [Start(p.maxMemory)];
      assert middle[..|middle| - 1] == before;
      assert events[..|events| - 1] == middle;
    }
  }

  lemma {:induction false} FillUp(p: Policy, n: nat) returns (events: seq<Event>)
    requires n <= p.maxConcurrent && p.breakerThreshold > 0
    ensures Strays(events) == 0
    ensures var w := Run(p, FRESH, events);
            w.book == Book(n, 0) && |w.live| == n && forall i | 0 <= i < |w.live| :: w.live[i] == p.maxMemory
  {
    if n == 0 {
      events := [];
    } else {
      var before := FillUp(p, n - 1);
      events := before + [Start(p.maxMemory)];
      assert events[..|events| - 1] == before;
    }
  }

  // ---- The circuit breaker ----

  /** Whether an event records an outcome, and which. */
  function Outcome(w: World, e: Event): Option<bool>
  {
    match e
    case Start(_) => None
    case Finish(i, success) => if i < |w.live| then Some(success) else None
    case Stray(success) => Some(success)
  }

  /** Failures recorded since the last success, on top of those at the start if there was none. */
  function Since(p: Policy, w: World, events: seq<Event>): nat
  {
    if events == [] then w.book.failures
    else
      var before := events[..|events| - 1];
      match Outcome(Run(p, w, before), events[|events| - 1])
      case None => Since(p, w, before)
      case Some(success) => if success then 0 else Since(p, w, before) + 1
  }

  predicate Tripped(p: Policy, b: Book) { p.breakerThreshold <= b.failures }

  /** Over every run the breaker is tripped exactly when the failures since the last success, modulo 2^32, are at the threshold. */
  lemma {:induction false} BreakerExactly(p: Policy, w: World, events: seq<Event>)
    ensures Run(p, w, events).book.failures == Since(p, w, events) % U32_LIMIT
    ensures Tripped(p, Run(p, w, events).book) <==> p.breakerThreshold <= Since(p, w, events) % U32_LIMIT
  {
    hide Step;
    if events == [] {
      ModUnique(0, w.book.failures, U32_LIMIT);
    } else {
      var before := events[..|events| - 1];
      BreakerExactly(p, w, before);
      CounterStep(Since(p, w, before));
      FailuresAfter(p, Run(p, w, before), events[|events| - 1]);
    }
  }

  lemma FailuresAfter(p: Policy, w: World, e: Event)
    ensures Step(p, w, e).book.failures ==
              match Outcome(w, e)
              case None => w.book.failures
              case Some(success) => if success then 0 else (w.book.failures + 1) % U32_LIMIT
    ensures Tripped(p, w.book) ==> |Step(p, w, e).live| <= |w.live|
  {
  }

  lemma CounterStep(n: nat)
    ensures (n % U32_LIMIT + 1) % U32_LIMIT == (n + 1) % U32_LIMIT
  {
    var q, r := n / U32_LIMIT, n % U32_LIMIT;
    if r + 1 < U32_LIMIT {
      ModUnique(q, r + 1, U32_LIMIT);
    } else {
      ModUnique(q + 1, 0, U32_LIMIT);
    }
  }

  /** No event of this run records a success. */
  predicate NoSuccess(p: Policy, w: World, events: seq<Event>)
  {
    events == []
    || (NoSuccess(p, w, events[..|events| - 1])
        && Outcome(Run(p, w, events[..|events| - 1]), events[|events| - 1]) != Some(true))
  }

  /** A tripped breaker stays shut until a success is recorded or the u32 counter wraps: nothing is admitted meanwhile. */
  lemma {:induction false} BreakerStaysShut(p: Policy, w: World, events: seq<Event>, bytes: nat)
    requires Tripped(p, w.book) && NoSuccess(p, w, events) && Since(p, w, events) < U32_LIMIT
    ensures w.book.failures <= Since(p, w, events)
    ensures !Admits(p, Run(p, w, events).book, bytes) && |Run(p, w, events).live| <= |w.live|
  {
    hide Step;
    BreakerExactly(p, w, events);
    ModUnique(0, Since(p, w, events), U32_LIMIT);
    if events == [] {
    } else {
      var before := events[..|events| - 1];
      BreakerStaysShut(p, w, before, bytes);
      FailuresAfter(p, Run(p, w, before), events[|events| - 1]);
    }
  }

  /** Stray failures count up and free slots. */
  lemma {:induction false} StrayFailures(p: Policy, w: World, k: nat) returns (events: seq<Event>)
    ensures |events| == k && NoSuccess(p, w, events) && Since(p, w, events) == w.book.failures + k
    ensures Run(p, w, events).book.active == Max(0, w.book.active - k) && Run(p, w, events).live == w.live
  {
    if k == 0 {
      events := [];
    } else {
      var before := StrayFailures(p, w, k - 1);
      events := before + [Stray(false)];
      assert events[..|events| - 1] == before;
    }
  }

  /** The wrap: enough failures after a trip, and no success, leave a breaker that admits again. */
  lemma FailuresReopenBreaker(p: Policy, w: World) returns (events: seq<Event>)
    requires Tripped(p, w.book) && p.breakerThreshold > 0 && w.book.active <= p.maxConcurrent && p.maxConcurrent > 0
    ensures |events| == U32_LIMIT - w.book.failures && NoSuccess(p, w, events)
    ensures Run(p, w, events).book.failures == 0 && Admits(p, Run(p, w, events).book, p.maxMemory)
  {
    events := StrayFailures(p, w, U32_LIMIT - w.book.failures);
    BreakerExactly(p, w, events);
    ModUnique(1, 0, U32_LIMIT);
    ModUnique(0, p.maxMemory, U64_LIMIT);
  }
}
