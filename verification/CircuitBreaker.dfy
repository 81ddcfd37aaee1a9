/** The per-source circuit breaker (`silk_circuit.py`). */
module CircuitBreaker {
  import opened Wrappers

  datatype Event = Failed(key: string, at: real) | Succeeded(key: string) | ResetKey(key: string) | ResetAll

  /** Consecutive failures, and the time the circuit was last stamped open. */
  datatype Cell = Cell(failures: nat, openedAt: real)

  type State = map<string, Cell>

  function CellOf(st: State, key: string): Cell {
    if key in st then st[key] else Cell(0, 0.0)
  }

  function Apply(st: State, e: Event, threshold: nat): State {
    match e
    case Failed(key, at) =>
      var n := CellOf(st, key).failures + 1;
      st[key := Cell(n, if n >= threshold then at else CellOf(st, key).openedAt)]
    case Succeeded(key) => st[key := Cell(0, 0.0)]
    case ResetKey(key) => st - {key}
    case ResetAll => map[]
  }

  function Replay(history: seq<Event>, threshold: nat): State {
    if history == [] then map[]
    else Apply(Replay(history[..|history| - 1], threshold), history[|history| - 1], threshold)
  }

  // ------------------------------------------- what a history says by itself

  predicate Clears(e: Event, key: string) {
    e == Succeeded(key) || e == ResetKey(key) || e == ResetAll
  }

  /** Failures of `key` since its last success or reset. */
  function Streak(history: seq<Event>, key: string): nat {
    if history == [] then 0
    else
      var last, front := history[|history| - 1], history[..|history| - 1];
      if Clears(last, key) then 0
      else Streak(front, key) + if last.Failed? && last.key == key then 1 else 0
  }

  /** When `key` last failed; zero if it never has. */
  function LastFailure(history: seq<Event>, key: string): real {
    if history == [] then 0.0
    else
      var last := history[|history| - 1];
      if last.Failed? && last.key == key then last.at else LastFailure(history[..|history| - 1], key)
  }

  predicate OpenBy(history: seq<Event>, key: string, now: real, threshold: nat, cooldown: real) {
    Streak(history, key) >= threshold && now - LastFailure(history, key) < cooldown
  }

  predicate IsOpenIn(st: State, key: string, now: real, threshold: nat, cooldown: real) {
    CellOf(st, key).failures >= threshold && now - CellOf(st, key).openedAt < cooldown
  }

  lemma {:induction false} CellsRefineHistory(history: seq<Event>, key: string, threshold: nat)
    requires threshold >= 1
    ensures CellOf(Replay(history, threshold), key).failures == Streak(history, key)
    ensures Streak(history, key) >= threshold ==>
      CellOf(Replay(history, threshold), key).openedAt == LastFailure(history, key)
  {
    if history != [] {
      CellsRefineHistory(history[..|history| - 1], key, threshold);
    }
  }

  /** The stored pair answers exactly what the history says: open when the
      failures since the last success or reset reach the threshold and the last
      of them is younger than the cooldown. */
  lemma {:induction false} OpenExactly(history: seq<Event>, key: string, now: real, threshold: nat, cooldown: real)
    requires threshold >= 1
    ensures IsOpenIn(Replay(history, threshold), key, now, threshold, cooldown)
            <==> OpenBy(history, key, now, threshold, cooldown)
  {
    CellsRefineHistory(history, key, threshold);
  }

  lemma {:induction false} Snoc(history: seq<Event>, e: Event, threshold: nat)
    ensures Replay(history + [e], threshold) == Apply(Replay(history, threshold), e, threshold)
  {
    assert (history + [e])[..|history|] == history;
  }

  class Breaker {
    const threshold: nat
    const cooldown: real
    var state: State
    ghost var history: seq<Event>

    ghost predicate Valid()
      reads this
    {
      threshold >= 1 && cooldown >= 1.0 && state == Replay(history, threshold)
    }

    constructor (threshold: int, cooldown: real)
      ensures Valid() && history == []
      ensures this.threshold == if threshold > 1 then threshold else 1
      ensures this.cooldown == if cooldown > 1.0 then cooldown else 1.0
    {
      this.threshold := if threshold > 1 then threshold else 1;
      this.cooldown := if cooldown > 1.0 then cooldown else 1.0;
      state, history := map[], [];
    }

    method IsOpen(key: string, now: real) returns (open: bool)
      requires Valid()
      ensures open <==> OpenBy(history, key, now, threshold, cooldown)
    {
      OpenExactly(history, key, now, threshold, cooldown);
      if key !in state || state[key].failures < threshold {
        open := false;
      } else {
        open := now - state[key].openedAt < cooldown;
      }
    }

    method RecordFailure(key: string, now: real)
      requires Valid()
      modifies this
      ensures Valid() && history == old(history) + [Failed(key, now)]
    {
      Snoc(history, Failed(key, now), threshold);
      var cell := CellOf(state, key);
      var n := cell.failures + 1;
      state := state[key := Cell(n, if n >= threshold then now else cell.openedAt)];
      history := history + [Failed(key, now)];
    }

    method RecordSuccess(key: string)
      requires Valid()
      modifies this
      ensures Valid() && history == old(history) + [Succeeded(key)]
    {
      Snoc(history, Succeeded(key), threshold);
      state := state[key := Cell(0, 0.0)];
      history := history + [Succeeded(key)];
    }

    method Failures(key: string) returns (n: nat)
      requires Valid()
      ensures n == Streak(history, key)
    {
      CellsRefineHistory(history, key, threshold);
      n := if key in state then state[key].failures else 0;
    }

    method Reset(key: Option<string>)
      requires Valid()
      modifies this
      ensures Valid()
      ensures history == old(history) + [if key.None? then ResetAll else ResetKey(key.value)]
    {
      if key.None? {
        Snoc(history, ResetAll, threshold);
        state := map[];
        history := history + [ResetAll];
      } else {
        Snoc(history, ResetKey(key.value), threshold);
        state := state - {key.value};
        history := history + [ResetKey(key.value)];
      }
    }
  }

  // --------------------------------------------------------------- half open

  predicate Concerns(e: Event, key: string) {
    e == ResetAll || e.key == key
  }

  /** `key` failed at least once in this stretch of history. */
  ghost predicate FailsIn(events: seq<Event>, key: string) {
    exists i | 0 <= i < |events| :: events[i].Failed? && events[i].key == key
  }

  ghost predicate ClearedIn(events: seq<Event>, key: string) {
    exists i | 0 <= i < |events| :: Clears(events[i], key)
  }

  lemma {:induction false} HappensSnoc(front: seq<Event>, e: Event, key: string)
    ensures FailsIn(front + [e], key) <==> FailsIn(front, key) || (e.Failed? && e.key == key)
    ensures ClearedIn(front + [e], key) <==> ClearedIn(front, key) || Clears(e, key)
  {
    var all := front + [e];
    assert all[|front|] == e;
    assert forall i | 0 <= i < |front| :: all[i] == front[i];
  }

  /** What a later stretch of history adds to an earlier one. */
  lemma {:induction false} JoinedStreak(history: seq<Event>, others: seq<Event>, key: string)
    ensures Streak(history + others, key)
         == if ClearedIn(others, key) then Streak(others, key) else Streak(history, key) + Streak(others, key)
    ensures Streak(others, key) > 0 ==> FailsIn(others, key)
  {
    if others == [] {
      assert history + others == history;
    } else {
      var front, last := others[..|others| - 1], others[|others| - 1];
      JoinedStreak(history, front, key);
      assert (history + others)[..|history + others| - 1] == history + front;
      assert others == front + [last];
      HappensSnoc(front, last, key);
    }
  }

  lemma {:induction false} JoinedFailure(history: seq<Event>, others: seq<Event>, key: string)
    ensures LastFailure(history + others, key)
         == LastFailure(if FailsIn(others, key) then others else history, key)
  {
    if others == [] {
      assert history + others == history;
    } else {
      var front, last := others[..|others| - 1], others[|others| - 1];
      JoinedFailure(history, front, key);
      assert (history + others)[..|history + others| - 1] == history + front;
      assert others == front + [last];
      HappensSnoc(front, last, key);
    }
  }

  /** Half open, exactly. Of a key whose failures reached the threshold and whose
      cooldown is over, a caller at any later time is refused if and only if the
      key failed again within the cooldown, and, where it was cleared meanwhile,
      reached the threshold anew. Asking itself refuses nobody. */
  lemma {:induction false} HalfOpenExactly(history: seq<Event>, others: seq<Event>, key: string,
                                           expired: real, now: real, threshold: nat, cooldown: real)
    requires threshold >= 1 && Streak(history, key) >= threshold
    requires expired - LastFailure(history, key) >= cooldown && expired <= now
    ensures OpenBy(history + others, key, now, threshold, cooldown)
            <==> && FailsIn(others, key) && now - LastFailure(others, key) < cooldown
                 && (ClearedIn(others, key) ==> Streak(others, key) >= threshold)
  {
    JoinedStreak(history, others, key);
    JoinedFailure(history, others, key);
  }

  /** Callers who take turns, each recording its outcome before the next one asks,
      are let in one per cooldown while the probes fail, and all after one succeeds. */
  lemma {:induction false} TurnsGiveOneProbe(history: seq<Event>, key: string, probe: real, now: real,
                                             threshold: nat, cooldown: real)
    requires threshold >= 1 && Streak(history, key) >= threshold
    requires probe - LastFailure(history, key) >= cooldown && probe <= now
    ensures OpenBy(history + [Failed(key, probe)], key, now, threshold, cooldown) <==> now - probe < cooldown
    ensures !OpenBy(history + [Succeeded(key)], key, now, threshold, cooldown)
  {
    AfterOne(history, Failed(key, probe), key);
    AfterOne(history, Succeeded(key), key);
  }

  lemma {:induction false} AfterOne(history: seq<Event>, e: Event, key: string)
    ensures Streak(history + [e], key)
         == if Clears(e, key) then 0 else Streak(history, key) + if e.Failed? && e.key == key then 1 else 0
    ensures LastFailure(history + [e], key)
         == if e.Failed? && e.key == key then e.at else LastFailure(history, key)
  {
    assert (history + [e])[..|history|] == history;
  }

  function FailuresAt(key: string, at: real, n: nat): seq<Event> {
    if n == 0 then [] else FailuresAt(key, at, n - 1) + [Failed(key, at)]
  }

  lemma {:induction false} FailuresAtAre(key: string, at: real, n: nat)
    ensures Streak(FailuresAt(key, at, n), key) == n
    ensures n > 0 ==> LastFailure(FailuresAt(key, at, n), key) == at
  {
    if n > 0 { FailuresAtAre(key, at, n - 1); }
  }

  /** With the default settings five failures at time 0 open the circuit; at 60 and
      again at 61 a caller is let in, and only the failure of one shuts out the next. */
  lemma {:induction false} TwoProbesAtOnce()
    ensures var history := FailuresAt("host", 0.0, 5);
            && OpenBy(history, "host", 59.0, 5, 60.0)
            && !OpenBy(history, "host", 60.0, 5, 60.0) && !OpenBy(history, "host", 61.0, 5, 60.0)
            && OpenBy(history + [Failed("host", 62.0)], "host", 63.0, 5, 60.0)
  {
    FailuresAtAre("host", 0.0, 5);
    TurnsGiveOneProbe(FailuresAt("host", 0.0, 5), "host", 62.0, 63.0, 5, 60.0);
  }

  /** A caller that is let in would be let in at any later time, until something
      is recorded for its key. */
  lemma {:induction false} HalfOpenAdmitsEveryCaller(history: seq<Event>, others: seq<Event>, key: string,
                                                     expired: real, now: real, threshold: nat, cooldown: real)
    requires !OpenBy(history, key, expired, threshold, cooldown) && expired <= now
    requires forall e | e in others :: !Concerns(e, key)
    ensures !OpenBy(history + others, key, now, threshold, cooldown)
    ensures Streak(history + others, key) == Streak(history, key)
    ensures LastFailure(history + others, key) == LastFailure(history, key)
  {
    JoinedStreak(history, others, key);
    JoinedFailure(history, others, key);
    assert forall i | 0 <= i < |others| :: others[i] in others;
  }
}
