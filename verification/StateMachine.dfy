/** The phases of one migration (crates/orchestrator/src/state.rs). */
module StateMachine {

  datatype State = Idle | Extracting | Streaming | Injecting | Validating | Committed | RolledBack

  type Instant = nat

  /** The happy path. */
  const FORWARD: seq<State> := [Idle, Extracting, Streaming, Injecting, Validating, Committed]

  /** The transition table. */
  predicate Allowed(from: State, to: State)
  {
    match (from, to)
    case (Idle, Extracting) => true
    case (Idle, RolledBack) => true
    case (Extracting, Streaming) => true
    case (Extracting, RolledBack) => true
    case (Streaming, Injecting) => true
    case (Streaming, RolledBack) => true
    case (Injecting, Validating) => true
    case (Injecting, RolledBack) => true
    case (Validating, Committed) => true
    case (Validating, RolledBack) => true
    case (Committed, _) => false
    case (RolledBack, _) => false
    case _ => from == to
  }

  /** A proper prefix of the happy path that was rolled back, or a prefix that was not. */
  predicate Journey(states: seq<State>)
  {
    || (1 <= |states| <= 6 && states == FORWARD[..|states|])
    || (2 <= |states| <= 6 && states == FORWARD[..|states| - 1] + [RolledBack])
  }

  /** The states after a request: unchanged when refused or when already there. */
  function After(states: seq<State>, next: State): seq<State>
    requires |states| > 0
  {
    var current := states[|states| - 1];
    if Allowed(current, next) && current != next then states + [next] else states
  }

  function Run(requests: seq<State>): (states: seq<State>)
    ensures |states| > 0
  {
    if requests == [] then [Idle]
    else After(Run(requests[..|requests| - 1]), requests[|requests| - 1])
  }

  lemma AfterKeepsJourney(states: seq<State>, next: State)
    requires Journey(states)
    ensures Journey(After(states, next))
  {
    var n := |states|;
    if After(states, next) != states {
      assert states == FORWARD[..n];
      assert states[n - 1] == FORWARD[n - 1];
      if next == RolledBack {
        assert After(states, next) == FORWARD[..n] + [RolledBack];
      } else {
        assert next == FORWARD[n];
        assert After(states, next) == FORWARD[..n + 1];
      }
    }
  }

  lemma Initial()
    ensures Journey([Idle])
  {
    assert [Idle] == FORWARD[..1];
  }

  /** Every run of requests, valid or not, leaves a journey: no repeats and at most six entries. */
  lemma {:induction false} RunsAreJourneys(requests: seq<State>)
    ensures Journey(Run(requests))
    ensures 1 <= |Run(requests)| <= 6
    ensures var path, n := [Idle, Extracting, Streaming, Injecting, Validating, Committed], |Run(requests)|;
            Run(requests) == path[..n] || (n > 1 && Run(requests) == path[..n - 1] + [RolledBack])
    ensures forall i, j :: 0 <= i < j < |Run(requests)| ==> Run(requests)[i] != Run(requests)[j]
  {
    hide Journey, After;
    if requests == [] {
      Initial();
    } else {
      RunsAreJourneys(requests[..|requests| - 1]);
      AfterKeepsJourney(Run(requests[..|requests| - 1]), requests[|requests| - 1]);
    }
    NoRepeats(Run(requests));
    JourneyExactly(Run(requests));
  }

  /** A journey, spelled out. */
  lemma JourneyExactly(states: seq<State>)
    ensures var path, n := [Idle, Extracting, Streaming, Injecting, Validating, Committed], |states|;
            Journey(states) <==> 1 <= n <= 6 && (states == path[..n] || (n > 1 && states == path[..n - 1] + [RolledBack]))
  {
  }

  lemma NoRepeats(states: seq<State>)
    requires Journey(states)
    ensures |states| <= 6 && forall i, j :: 0 <= i < j < |states| ==> states[i] != states[j]
  {
    forall i, j | 0 <= i < j < |states|
      ensures states[i] != states[j]
    {
      assert states[i] == FORWARD[i] && (states[j] == FORWARD[j] || states[j] == RolledBack);
    }
  }

  /** ... and every journey is the history of a run: the one that asks for exactly those states. */
  lemma {:induction false} JourneysAreRuns(states: seq<State>)
    requires Journey(states)
    ensures Run(states[1..]) == states
  {
    hide After;
    var n := |states|;
    if n == 1 {
      assert states == [Idle];
    } else {
      var before := states[..n - 1];
      JourneyStep(states);
      JourneysAreRuns(before);
      assert states[1..][..n - 2] == before[1..];
    }
  }

  lemma JourneyStep(states: seq<State>)
    requires Journey(states) && |states| > 1
    ensures var before := states[..|states| - 1];
            Journey(before) && After(before, states[|states| - 1]) == states
  {
    var n := |states|;
    var before := states[..n - 1];
    assert before == FORWARD[..n - 1];
    assert before[n - 2] == FORWARD[n - 2];
    assert Allowed(before[n - 2], states[n - 1]);
    assert states == before + [states[n - 1]];
  }

  function States(history: seq<(State, Instant)>): seq<State>
  {
    seq(|history|, i requires 0 <= i < |history| => history[i].0)
  }

  class MigrationStateMachine {
    var current: State
    var updatedAt: Instant
    var history: seq<(State, Instant)>

    ghost predicate Valid()
      reads this
    {
      && Journey(States(history))
      && history[|history| - 1] == (current, updatedAt)
    }

    constructor (now: Instant)
      ensures Valid() && States(history) == [Idle] && current == Idle && history == [(Idle, now)]
    {
      current, updatedAt, history := Idle, now, [(Idle, now)];
      new;
      assert States(history) == FORWARD[..1];
    }

    /** Appends exactly one timed entry on a real transition, and otherwise changes nothing. */
    method TransitionTo(next: State, now: Instant) returns (ok: bool)
      requires Valid()
      modifies this
      ensures Valid()
      ensures ok <==> Allowed(old(current), next)
      ensures ok <==>
                && old(current) != Committed && old(current) != RolledBack
                && (next == old(current) || next == RolledBack
                    || (old(current), next) in {(Idle, Extracting), (Extracting, Streaming), (Streaming, Injecting),
                                                (Injecting, Validating), (Validating, Committed)})
      ensures updatedAt == if ok && old(current) != next then now else old(updatedAt)
      ensures States(history) == After(old(States(history)), next)
      ensures history == if ok && old(current) != next then old(history) + [(next, now)] else old(history)
      ensures current == if ok then next else old(current)
    {
      AfterKeepsJourney(States(history), next);
      ok := Allowed(current, next);
      if ok && current != next {
        current, updatedAt, history := next, now, history + [(next, now)];
      }
      assert States(history) == After(old(States(history)), next);
    }
  }
}
