/** Transport negotiation (crates/transport/src/lib.rs, `negotiate_transport`). */
module Negotiation {
  import opened Common

  datatype Mode = WebSocketMtls | QuicMtls | RdmaUcx | Nixl | FramedTcpMtls

  datatype Profile = Profile(
    mode: Mode,
    binaryFraming: bool,
    mutualTls: bool,
    maxFrameBytes: U32,
    idleTimeoutMs: U64,
    keepaliveMs: U64,
    replayWindow: U32)

  datatype Candidate = Candidate(profile: Profile, priority: U16, reason: string)

  datatype Offer = Offer(priority: U16, selected: Profile, reason: string)

  datatype Negotiated = Negotiated(selected: Profile, reason: string, considered: seq<Mode>)

  /** The same mode, binary framing and mutual TLS on both sides. */
  predicate Compatible(s: Candidate, t: Candidate)
  {
    && s.profile.mode == t.profile.mode
    && s.profile.binaryFraming && t.profile.binaryFraming
    && s.profile.mutualTls && t.profile.mutualTls
  }

  function Effective(s: Candidate, t: Candidate): U16 { Min(s.priority, t.priority) }

  function Merge(s: Profile, t: Profile): Profile
  {
    s.(maxFrameBytes := Min(s.maxFrameBytes, t.maxFrameBytes),
       idleTimeoutMs := Min(s.idleTimeoutMs, t.idleTimeoutMs),
       keepaliveMs := Min(s.keepaliveMs, t.keepaliveMs),
       replayWindow := Min(s.replayWindow, t.replayWindow))
  }

  function OfferOf(s: Candidate, t: Candidate): Offer
  {
    Offer(Effective(s, t), Merge(s.profile, t.profile), s.reason + "; target: " + t.reason)
  }

  /** Insertion after every offer of at least the same priority. */
  function Insert(x: Offer, sorted: seq<Offer>): seq<Offer>
  {
    if sorted == [] then [x]
    else if sorted[0].priority < x.priority then [x] + sorted
    else [sorted[0]] + Insert(x, sorted[1..])
  }

  /** The stable sort by descending priority. */
  function SortDescending(offers: seq<Offer>): seq<Offer>
  {
    if offers == [] then [] else Insert(offers[|offers| - 1], SortDescending(offers[..|offers| - 1]))
  }

  predicate Descending(s: seq<Offer>)
  {
    forall i, j | 0 <= i < j < |s| :: s[i].priority >= s[j].priority
  }

  lemma {:induction false} InsertAdds(x: Offer, s: seq<Offer>)
    ensures multiset(Insert(x, s)) == multiset(s) + multiset{x}
  {
    if s == [] {
    } else {
      assert s == [s[0]] + s[1..];
      if s[0].priority >= x.priority {
        InsertAdds(x, s[1..]);
      }
    }
  }

  lemma {:induction false} InsertSorts(x: Offer, s: seq<Offer>)
    requires Descending(s)
    ensures Descending(Insert(x, s))
  {
    if s != [] && s[0].priority >= x.priority {
      InsertSorts(x, s[1..]);
      InsertBelow(x, s[1..], s[0].priority);
    }
  }

  lemma {:induction false} InsertBelow(x: Offer, s: seq<Offer>, top: U16)
    requires x.priority <= top && forall k | 0 <= k < |s| :: s[k].priority <= top
    ensures forall k | 0 <= k < |Insert(x, s)| :: Insert(x, s)[k].priority <= top
  {
    if s != [] && s[0].priority >= x.priority {
      InsertBelow(x, s[1..], top);
    }
  }

  /** It is a sort: the same offers, in descending priority. */
  lemma {:induction false} SortSorts(s: seq<Offer>)
    ensures Descending(SortDescending(s)) && multiset(SortDescending(s)) == multiset(s)
  {
    if s == [] {
    } else {
      SortSorts(s[..|s| - 1]);
      InsertSorts(s[|s| - 1], SortDescending(s[..|s| - 1]));
      InsertAdds(s[|s| - 1], SortDescending(s[..|s| - 1]));
      assert s == s[..|s| - 1] + [s[|s| - 1]];
    }
  }

  /** Stability, at the front: the first of the offers with the highest priority comes first. */
  lemma {:induction false} FirstOfSorted(s: seq<Offer>) returns (k: nat)
    requires s != []
    ensures k < |s| && SortDescending(s) != [] && SortDescending(s)[0] == s[k]
    ensures forall i | 0 <= i < |s| :: s[i].priority <= s[k].priority
    ensures forall i | 0 <= i < k :: s[i].priority < s[k].priority
  {
    var front, last := s[..|s| - 1], s[|s| - 1];
    assert SortDescending(s) == Insert(last, SortDescending(front));
    if front == [] {
      k := 0;
    } else {
      k := FirstOfSorted(front);
      assert forall i | 0 <= i < |front| :: s[i] == front[i];
      if s[k].priority < last.priority {
        k := |s| - 1;
      }
    }
  }

  /** Pair (i, j) comes no later than (i', j') in the order the loops try them. */
  predicate NoLater(i: nat, j: nat, i': nat, j': nat) { i < i' || (i == i' && j <= j') }

  /** The first compatible pair, in source then target order, of the highest effective priority. */
  ghost predicate Best(source: seq<Candidate>, target: seq<Candidate>, i: nat, j: nat)
  {
    && i < |source| && j < |target| && Compatible(source[i], target[j])
    && forall i': nat, j': nat | i' < |source| && j' < |target| && Compatible(source[i'], target[j']) ::
         || Effective(source[i'], target[j']) < Effective(source[i], target[j])
         || (Effective(source[i'], target[j']) == Effective(source[i], target[j]) && NoLater(i, j, i', j'))
  }

  ghost predicate SomeCompatible(source: seq<Candidate>, target: seq<Candidate>)
  {
    exists i: nat, j: nat :: i < |source| && j < |target| && Compatible(source[i], target[j])
  }

  /** The offers found, and the pairs they come from, before pair (i, j) is tried. */
  ghost predicate Collected(source: seq<Candidate>, target: seq<Candidate>, offers: seq<Offer>, pairs: seq<(nat, nat)>, i: nat, j: nat)
  {
    && |offers| == |pairs|
    && (forall k | 0 <= k < |pairs| ::
          && pairs[k].0 < |source| && pairs[k].1 < |target| && Compatible(source[pairs[k].0], target[pairs[k].1])
          && offers[k] == OfferOf(source[pairs[k].0], target[pairs[k].1])
          && (pairs[k].0 < i || (pairs[k].0 == i && pairs[k].1 < j)))
    && (forall k, l | 0 <= k < l < |pairs| :: NoLater(pairs[k].0, pairs[k].1, pairs[l].0, pairs[l].1))
    && (forall a: nat, b: nat | a < |source| && b < |target| && Compatible(source[a], target[b])
          && (a < i || (a == i && b < j)) :: (a, b) in pairs)
  }

  lemma BestIsFirst(source: seq<Candidate>, target: seq<Candidate>, offers: seq<Offer>, pairs: seq<(nat, nat)>, k: nat)
    requires Collected(source, target, offers, pairs, |source|, 0) && k < |offers|
    requires forall i | 0 <= i < |offers| :: offers[i].priority <= offers[k].priority
    requires forall i | 0 <= i < k :: offers[i].priority < offers[k].priority
    ensures Best(source, target, pairs[k].0, pairs[k].1)
  {
    forall a: nat, b: nat | a < |source| && b < |target| && Compatible(source[a], target[b])
      ensures var (i, j) := pairs[k];
              || Effective(source[a], target[b]) < Effective(source[i], target[j])
              || (Effective(source[a], target[b]) == Effective(source[i], target[j]) && NoLater(i, j, a, b))
    {
      assert (a, b) in pairs;
      var l :| 0 <= l < |pairs| && pairs[l] == (a, b);
    }
  }

  /** A pair is compatible exactly when both sides secure the same mode. */
  lemma CompatibleExactly(s: Candidate, t: Candidate)
    ensures Compatible(s, t) <==>
              && s.profile.mode == t.profile.mode
              && s.profile.binaryFraming == s.profile.mutualTls == true && t.profile.binaryFraming == t.profile.mutualTls == true
  {
  }

  /** What makes a pair the best, in the candidates' own priorities: its weaker side is the strongest such, and it comes first. */
  lemma BestExactly(source: seq<Candidate>, target: seq<Candidate>, i: nat, j: nat, i': nat, j': nat)
    requires Best(source, target, i, j) && i' < |source| && j' < |target| && Compatible(source[i'], target[j'])
    ensures i < |source| && j < |target| && Compatible(source[i], target[j])
    ensures var s, t, s', t' := source[i].priority, target[j].priority, source[i'].priority, target[j'].priority;
            || (s' < s && s' < t) || (t' < s && t' < t)
            || (((s' <= s && s' <= t) || (t' <= s && t' <= t)) && (i < i' || (i == i' && j <= j')))
  {
  }

  /** Every agreed limit is one side's and no larger than the other's; the rest of the profile is the source's. */
  lemma AgreedExactly(s: Profile, t: Profile)
    ensures var p := Merge(s, t);
            && p.mode == s.mode && p.binaryFraming == s.binaryFraming && p.mutualTls == s.mutualTls
            && p.maxFrameBytes in {s.maxFrameBytes, t.maxFrameBytes}
            && p.maxFrameBytes <= s.maxFrameBytes && p.maxFrameBytes <= t.maxFrameBytes
            && p.idleTimeoutMs in {s.idleTimeoutMs, t.idleTimeoutMs}
            && p.idleTimeoutMs <= s.idleTimeoutMs && p.idleTimeoutMs <= t.idleTimeoutMs
            && p.keepaliveMs in {s.keepaliveMs, t.keepaliveMs}
            && p.keepaliveMs <= s.keepaliveMs && p.keepaliveMs <= t.keepaliveMs
            && p.replayWindow in {s.replayWindow, t.replayWindow}
            && p.replayWindow <= s.replayWindow && p.replayWindow <= t.replayWindow
  {
  }

  /** Fails exactly when no pair is compatible; otherwise agrees on the best pair and reports every source mode. */
  method NegotiateTransport(source: seq<Candidate>, target: seq<Candidate>) returns (r: Result<Negotiated>)
    ensures r.Success? <==> SomeCompatible(source, target)
    ensures r.Success? ==>
              exists i: nat, j: nat ::
                && Best(source, target, i, j)
                && r.value.selected == Merge(source[i].profile, target[j].profile)
                && r.value.reason == source[i].reason + "; target: " + target[j].reason
    ensures r.Success? ==> r.value.considered == seq(|source|, i requires 0 <= i < |source| => source[i].profile.mode)
  {
    hide SortDescending, Best, Compatible, Merge, Effective;
    var considered, compatible := [], [];
    ghost var pairs: seq<(nat, nat)> := [];
    for i := 0 to |source|
      invariant considered == seq(i, k requires 0 <= k < i => source[k].profile.mode)
      invariant Collected(source, target, compatible, pairs, i, 0)
    {
      considered := considered + [source[i].profile.mode];
      for j := 0 to |target|
        invariant Collected(source, target, compatible, pairs, i, j)
      {
        if Compatible(source[i], target[j]) {
          ghost var before := pairs;
          compatible := compatible + [OfferOf(source[i], target[j])];
          pairs := pairs + [(i, j)];
          assert forall p :: p in pairs <==> p in before || p == (i, j);
        }
      }
    }
    var sorted := SortDescending(compatible);
    SortSorts(compatible);
    assert |multiset(sorted)| == |multiset(compatible)|;
    if |sorted| > 0 {
      ghost var k := FirstOfSorted(compatible);
      BestIsFirst(source, target, compatible, pairs, k);
      ghost var (i, j) := pairs[k];
      assert sorted[0] == OfferOf(source[i], target[j]) && Best(source, target, i, j);
      return Success(Negotiated(sorted[0].selected, sorted[0].reason, considered));
    }
    return Failure("no mutually supported production transport candidate");
  }

  /** The agreed keepalive is below the idle timeout if both sides' are. */
  lemma AgreedKeepsAlive(s: Profile, t: Profile)
    requires s.keepaliveMs < s.idleTimeoutMs && t.keepaliveMs < t.idleTimeoutMs
    ensures Merge(s, t).keepaliveMs < Merge(s, t).idleTimeoutMs
  {
  }

  /** Swapping the sides changes neither whether they agree nor the effective priority they agree on. */
  lemma NegotiationIsSymmetric(source: seq<Candidate>, target: seq<Candidate>, i: nat, j: nat, i': nat, j': nat)
    requires Best(source, target, i, j) && Best(target, source, j', i')
    ensures Min(source[i].priority, target[j].priority) == Min(source[i'].priority, target[j'].priority)
  {
    assert Compatible(target[j], source[i]) && Compatible(source[i'], target[j']);
  }

  lemma AgreementIsSymmetric(source: seq<Candidate>, target: seq<Candidate>)
    ensures SomeCompatible(source, target) <==> SomeCompatible(target, source)
  {
    if SomeCompatible(source, target) {
      var i: nat, j: nat :| i < |source| && j < |target| && Compatible(source[i], target[j]);
      assert Compatible(target[j], source[i]);
    }
    if SomeCompatible(target, source) {
      var i: nat, j: nat :| i < |target| && j < |source| && Compatible(target[i], source[j]);
      assert Compatible(source[j], target[i]);
    }
  }
}
