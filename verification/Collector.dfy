/** Budgeted collection with a daily ledger (`silk_collectors.py`). */
module Collector {
  import opened Wrappers

  /** Whether attempt `a` (0, 1 or 2) for target `t` brings any record. */
  type Answers = (nat, nat) -> bool

  datatype Tally = Tally(calls: nat, fetched: nat, failedTargets: nat)

  /** Calls for one target from attempt `a` on, with `left` calls in the budget,
      and whether a record came. */
  function Target(answers: Answers, t: nat, a: nat, left: nat): (r: (nat, bool))
    requires a < 3 && a < left
    ensures a < r.0 <= 3 && r.0 <= left
    decreases 3 - a
  {
    if answers(t, a) then (a + 1, true)
    else if a + 1 >= left || a == 2 then (a + 1, false)
    else Target(answers, t, a + 1, left)
  }

  function Add(p: Tally, r: (nat, bool)): Tally {
    Tally(p.calls + r.0, p.fetched + (if r.1 then 1 else 0), p.failedTargets + (if r.1 then 0 else 1))
  }

  /** The tally after the first `n` targets. */
  function Run(n: nat, budget: nat, answers: Answers): Tally {
    if n == 0 then Tally(0, 0, 0)
    else
      var p := Run(n - 1, budget, answers);
      if p.calls >= budget then p else Add(p, Target(answers, n - 1, 0, budget - p.calls))
  }

  /** What `collect_comtrade` returns, but for the budget left. */
  datatype Report = Report(requested: nat, fetched: nat, failed: int, skipped: int)

  function ReportOf(targets: nat, t: Tally): Report {
    Report(targets, t.fetched, t.calls - t.fetched, targets - t.fetched - t.failedTargets)
  }

  lemma {:induction false} Tallied(n: nat, budget: nat, answers: Answers)
    ensures var r := Run(n, budget, answers);
            && r.calls <= budget && r.calls <= 3 * n
            && r.fetched + r.failedTargets <= n
            && r.fetched + r.failedTargets <= r.calls
            && (r.calls < budget ==> r.fetched + r.failedTargets == n)
  {
    if n > 0 { Tallied(n - 1, budget, answers); }
  }

  // --------------------------------------- what a run reaches and what it finds

  /** The first attempt that brings a record, if any does. */
  predicate FirstRecord(answers: Answers, t: nat, a: nat) {
    a < 3 && answers(t, a) && forall b: nat | b < a :: !answers(t, b)
  }

  /** The calls that target `t` takes when the budget allows them: up to the first
      that brings a record, and three when none does. */
  function CallsFor(answers: Answers, t: nat): (calls: nat)
    ensures 1 <= calls <= 3
  {
    if answers(t, 0) then 1 else if answers(t, 1) then 2 else 3
  }

  lemma {:induction false} CallsForIs(answers: Answers, t: nat)
    ensures (exists a: nat :: FirstRecord(answers, t, a)) ==> FirstRecord(answers, t, CallsFor(answers, t) - 1)
    ensures (forall a: nat :: !FirstRecord(answers, t, a)) ==> CallsFor(answers, t) == 3
  {}

  /** The calls that the first `n` targets take when the budget allows them. */
  function Needed(answers: Answers, n: nat): nat {
    if n == 0 then 0 else Needed(answers, n - 1) + CallsFor(answers, n - 1)
  }

  /** Target `t` brings a record with a call that the budget still covers. */
  ghost predicate Found(answers: Answers, budget: nat, t: nat) {
    exists a: nat :: FirstRecord(answers, t, a) && Needed(answers, t) + a < budget
  }

  ghost function AllFound(answers: Answers, budget: nat, n: nat): set<nat> {
    set t: nat | t < n && Found(answers, budget, t)
  }

  /** The targets whose first call the budget covers. */
  ghost function Reached(answers: Answers, budget: nat, n: nat): set<nat> {
    set t: nat | t < n && Needed(answers, t) < budget
  }

  lemma {:induction false} NoRecordBefore(answers: Answers, t: nat, a: nat)
    requires a < 3 && a < CallsFor(answers, t)
    ensures FirstRecord(answers, t, a) <==> answers(t, a)
    ensures answers(t, a) ==> a + 1 == CallsFor(answers, t)
  {}

  /** From attempt `a` on, none before it having brought a record. */
  lemma {:induction false} TargetFrom(answers: Answers, t: nat, a: nat, left: nat)
    requires a < left && a < CallsFor(answers, t)
    ensures var r := Target(answers, t, a, left);
            && r.0 == (if CallsFor(answers, t) <= left then CallsFor(answers, t) else left)
            && (r.1 <==> CallsFor(answers, t) <= left && FirstRecord(answers, t, CallsFor(answers, t) - 1))
    decreases 3 - a
  {
    NoRecordBefore(answers, t, a);
    if !answers(t, a) && a + 1 < left && a < 2 { TargetFrom(answers, t, a + 1, left); }
  }

  lemma {:induction false} FoundIs(answers: Answers, budget: nat, t: nat)
    ensures Found(answers, budget, t)
            <==> && FirstRecord(answers, t, CallsFor(answers, t) - 1)
                 && Needed(answers, t) + CallsFor(answers, t) <= budget
  {
    if a: nat :| FirstRecord(answers, t, a) && Needed(answers, t) + a < budget {
      CallsForIs(answers, t);
      assert a == CallsFor(answers, t) - 1;
    }
  }

  lemma {:induction false} FoundStep(answers: Answers, budget: nat, n: nat)
    ensures |AllFound(answers, budget, n + 1)|
         == |AllFound(answers, budget, n)| + if Found(answers, budget, n) then 1 else 0
    ensures |Reached(answers, budget, n + 1)|
         == |Reached(answers, budget, n)| + if Needed(answers, n) < budget then 1 else 0
  {
    var found, reached := AllFound(answers, budget, n), Reached(answers, budget, n);
    assert AllFound(answers, budget, n + 1) == if Found(answers, budget, n) then found + {n} else found;
    assert Reached(answers, budget, n + 1) == if Needed(answers, n) < budget then reached + {n} else reached;
  }

  /** The tally of `n` targets in those terms. */
  ghost predicate TalliesFound(r: Tally, answers: Answers, budget: nat, n: nat) {
    && r.calls == (if Needed(answers, n) <= budget then Needed(answers, n) else budget)
    && r.fetched == |AllFound(answers, budget, n)|
    && r.fetched + r.failedTargets == |Reached(answers, budget, n)|
  }

  lemma {:induction false} OneMoreTarget(answers: Answers, budget: nat, n: nat, p: Tally)
    requires TalliesFound(p, answers, budget, n)
    ensures TalliesFound(if p.calls >= budget then p else Add(p, Target(answers, n, 0, budget - p.calls)),
                         answers, budget, n + 1)
  {
    FoundStep(answers, budget, n);
    FoundIs(answers, budget, n);
    if p.calls < budget { TargetFrom(answers, n, 0, budget - p.calls); }
  }

  /** What a run of the loop comes to, whatever the budget and the answers: it makes
      the calls that the targets need, as far as the budget goes; it reaches the targets
      whose first call the budget covers; and it counts as fetched those whose first
      record comes with a call that the budget covers. */
  lemma {:induction false} RunIs(answers: Answers, budget: nat, n: nat)
    ensures TalliesFound(Run(n, budget, answers), answers, budget, n)
  {
    if n == 0 {
      assert AllFound(answers, budget, 0) == {} && Reached(answers, budget, 0) == {};
    } else {
      RunIs(answers, budget, n - 1);
      OneMoreTarget(answers, budget, n - 1, Run(n - 1, budget, answers));
    }
  }

  lemma {:induction false} NeededBefore(answers: Answers, t: nat, n: nat)
    requires t <= n
    ensures Needed(answers, t) + (n - t) <= Needed(answers, n) <= Needed(answers, t) + 3 * (n - t)
    ensures t < n ==> Needed(answers, t) + CallsFor(answers, t) <= Needed(answers, n)
  {
    if t + 1 < n { NeededBefore(answers, t, n - 1); }
  }

  lemma {:induction false} AllReached(answers: Answers, budget: nat, n: nat)
    requires Needed(answers, n) <= budget
    ensures |Reached(answers, budget, n)| == n
  {
    if n == 0 {
      assert Reached(answers, budget, 0) == {};
    } else {
      AllReached(answers, budget, n - 1);
      FoundStep(answers, budget, n - 1);
    }
  }

  ghost predicate Answering(answers: Answers, t: nat) {
    exists a: nat :: FirstRecord(answers, t, a)
  }

  /** The targets that answer within three attempts. */
  ghost function AllAnswering(answers: Answers, n: nat): set<nat> {
    set t: nat | t < n && Answering(answers, t)
  }

  lemma {:induction false} FoundWhenCovered(answers: Answers, budget: nat, t: nat)
    requires Needed(answers, t) + CallsFor(answers, t) <= budget
    ensures Found(answers, budget, t) <==> Answering(answers, t)
  {
    FoundIs(answers, budget, t);
  }

  lemma {:induction false} AllFoundWhenCovered(answers: Answers, budget: nat, n: nat)
    requires Needed(answers, n) <= budget
    ensures AllFound(answers, budget, n) == AllAnswering(answers, n)
  {
    forall t: nat | t < n ensures Found(answers, budget, t) <==> Answering(answers, t) {
      NeededBefore(answers, t, n);
      FoundWhenCovered(answers, budget, t);
    }
  }

  lemma {:induction false} NeededAtMost(answers: Answers, n: nat)
    ensures Needed(answers, n) <= 3 * n
  {
    if n > 0 { NeededAtMost(answers, n - 1); }
  }

  lemma {:induction false} AmpleTally(answers: Answers, budget: nat, n: nat, r: Tally)
    requires Needed(answers, n) <= budget && TalliesFound(r, answers, budget, n)
    ensures r.calls == Needed(answers, n) && r.fetched == |AllAnswering(answers, n)|
    ensures r.fetched + r.failedTargets == n
  {
    AllReached(answers, budget, n);
    AllFoundWhenCovered(answers, budget, n);
  }

  /** With three calls to spare for every target, the run fetches the targets that
      answer within three attempts, makes the calls that all of them need, and skips
      none. */
  lemma {:induction false} AmpleBudgetFetchesAll(answers: Answers, budget: nat, n: nat)
    requires budget >= 3 * n
    ensures var fetched := |AllAnswering(answers, n)|;
            ReportOf(n, Run(n, budget, answers)) == Report(n, fetched, Needed(answers, n) - fetched, 0)
  {
    NeededAtMost(answers, n);
    RunIs(answers, budget, n);
    AmpleTally(answers, budget, n, Run(n, budget, answers));
  }

  /** The retry loop for one target, with `left` calls in the budget. */
  method FetchTarget(answers: Answers, t: nat, left: nat) returns (calls: nat, ok: bool)
    requires left > 0
    ensures (calls, ok) == Target(answers, t, 0, left)
  {
    calls, ok := 0, false;
    for attempt := 0 to 3
      invariant calls == attempt && !ok && (attempt < 3 ==> attempt < left)
      invariant attempt < 3 ==> Target(answers, t, 0, left) == Target(answers, t, attempt, left)
      invariant attempt == 3 ==> Target(answers, t, 0, left) == (3, false)
    {
      calls := calls + 1;
      if answers(t, attempt) { return calls, true; }
      if calls >= left { return calls, false; }
    }
  }

  lemma {:induction false} RunStep(t: nat, budget: nat, answers: Answers, p: Tally)
    requires p == Run(t, budget, answers) && p.calls < budget
    ensures Run(t + 1, budget, answers) == Add(p, Target(answers, t, 0, budget - p.calls))
  {}

  /** The collection loop as the source runs it; `calls` counts what was sent. */
  method CollectComtrade(targets: nat, budget: nat, answers: Answers) returns (r: Report, calls: nat)
    ensures calls == Run(targets, budget, answers).calls
    ensures r == ReportOf(targets, Run(targets, budget, answers))
  {
    var fetched: nat, failedTargets: nat, skipped: int := 0, 0, 0;
    calls := 0;
    for t := 0 to targets
      invariant skipped == 0 && fetched + failedTargets == t
      invariant Run(t, budget, answers) == Tally(calls, fetched, failedTargets)
    {
      if calls >= budget {
        skipped := targets - fetched - failedTargets;
        Exhausted(t, targets, budget, answers);
        break;
      }
      RunStep(t, budget, answers, Tally(calls, fetched, failedTargets));
      var used, ok := FetchTarget(answers, t, budget - calls);
      calls := calls + used;
      if ok { fetched := fetched + 1; } else { failedTargets := failedTargets + 1; }
    }
    r := Report(targets, fetched, calls - fetched, skipped);
  }

  /** The report of a run adds up: fetched and failed are exactly the calls made,
      never more than the budget or three a target, and every target was
      fetched, failed, or skipped for want of budget. */
  lemma {:induction false} ReportAddsUp(targets: nat, budget: nat, answers: Answers)
    ensures var t := Run(targets, budget, answers);
            var r := ReportOf(targets, t);
            && r.fetched + r.failed == t.calls <= budget && t.calls <= 3 * targets
            && r.fetched + t.failedTargets + r.skipped == r.requested
            && 0 <= t.failedTargets <= r.failed && 0 <= r.skipped
            && (r.skipped > 0 ==> t.calls == budget)
  {
    Tallied(targets, budget, answers);
  }

  lemma {:induction false} Exhausted(m: nat, n: nat, budget: nat, answers: Answers)
    requires m <= n && Run(m, budget, answers).calls >= budget
    ensures Run(n, budget, answers) == Run(m, budget, answers)
    decreases n - m
  {
    if m < n {
      assert Run(m + 1, budget, answers) == Run(m, budget, answers);
      Exhausted(m + 1, n, budget, answers);
    }
  }

  // ----------------------------------------------------------- the ledger

  function Max0(x: int): nat {
    if x < 0 then 0 else x
  }

  /** What the ledger says was spent, what was really called, and the budgets that
      runs still under way have read. */
  datatype Day = Day(spent: nat, called: nat, underWay: seq<nat>)

  datatype Step = Begin | Finish(run: nat, calls: nat) | Crash(run: nat, calls: nat)

  /** A run reads the budget once when it begins and writes its row when it ends;
      one that is cut off by an exception writes nothing. */
  predicate Legal(d: Day, s: Step) {
    !s.Begin? ==> s.run < |d.underWay| && s.calls <= d.underWay[s.run]
  }

  function Without(s: seq<nat>, i: nat): seq<nat>
    requires i < |s|
  {
    s[..i] + s[i + 1..]
  }

  function Next(d: Day, s: Step, cap: nat): Day
    requires Legal(d, s)
  {
    match s
    case Begin => d.(underWay := d.underWay + [Max0(cap - d.spent)])
    case Finish(run, calls) => Day(d.spent + calls, d.called + calls, Without(d.underWay, run))
    case Crash(run, calls) => Day(d.spent, d.called + calls, Without(d.underWay, run))
  }

  /** The schedule is possible and never has more than `k` runs under way. */
  ghost predicate Schedule(d: Day, steps: seq<Step>, cap: nat, k: nat)
    decreases |steps|
  {
    |d.underWay| <= k && (steps == [] || (Legal(d, steps[0]) && Schedule(Next(d, steps[0], cap), steps[1..], cap, k)))
  }

  function After(d: Day, steps: seq<Step>, cap: nat): Day
    decreases |steps|
  {
    if steps == [] || !Legal(d, steps[0]) then d else After(Next(d, steps[0], cap), steps[1..], cap)
  }

  function Sum(s: seq<nat>): nat {
    if s == [] then 0 else s[0] + Sum(s[1..])
  }

  lemma {:induction false} SumAppend(a: seq<nat>, b: seq<nat>)
    ensures Sum(a + b) == Sum(a) + Sum(b)
  {
    if a == [] {
      assert a + b == b;
    } else {
      SumAppend(a[1..], b);
      assert (a + b)[1..] == a[1..] + b;
    }
  }

  lemma {:induction false} SumWithout(s: seq<nat>, i: nat)
    requires i < |s|
    ensures Sum(s) == Sum(Without(s, i)) + s[i]
  {
    SumAppend(s[..i], s[i + 1..]);
    SumAppend([s[i]], s[i + 1..]);
    SumAppend(s[..i], [s[i]] + s[i + 1..]);
    assert s == s[..i] + ([s[i]] + s[i + 1..]);
  }

  ghost predicate AtMostEach(s: seq<nat>, cap: nat) {
    forall i | 0 <= i < |s| :: s[i] <= cap
  }

  lemma {:induction false} SumAtMost(s: seq<nat>, cap: nat)
    requires AtMostEach(s, cap)
    ensures Sum(s) <= |s| * cap
  {
    if s != [] { SumAtMost(s[1..], cap); }
  }

  /** What is spent and what may still be spent stays within `k` caps. */
  ghost predicate Within(d: Day, cap: nat, k: nat) {
    AtMostEach(d.underWay, cap) && d.spent + Sum(d.underWay) <= k * cap
  }

  lemma {:induction false} ProductGrows(a: nat, b: nat, c: nat)
    requires a <= b
    ensures a * c <= b * c
    ensures (a + 1) * c == a * c + c
  {}

  lemma {:induction false} BeginWithin(d: Day, cap: nat, k: nat)
    requires Within(d, cap, k) && |d.underWay| < k
    ensures Within(Next(d, Begin, cap), cap, k)
  {
    var b := Max0(cap - d.spent);
    SumAppend(d.underWay, [b]);
    assert Sum([b]) == b;
    SumAtMost(d.underWay, cap);
    ProductGrows(|d.underWay|, k - 1, cap);
    ProductGrows(k - 1, k - 1, cap);
  }

  lemma {:induction false} NextWithin(d: Day, s: Step, cap: nat, k: nat)
    requires Within(d, cap, k) && Legal(d, s) && |Next(d, s, cap).underWay| <= k
    ensures Within(Next(d, s, cap), cap, k)
  {
    if s.Begin? {
      BeginWithin(d, cap, k);
    } else {
      SumWithout(d.underWay, s.run);
      var rest := Without(d.underWay, s.run);
      forall i | 0 <= i < |rest| ensures rest[i] <= cap {
        assert rest[i] == d.underWay[if i < s.run then i else i + 1];
      }
    }
  }

  /** With at most `k` runs under way at once, in any interleaving and with any
      runs cut off, the ledger of a day never passes `k` times the cap. One run
      at a time keeps it within the cap itself. */
  lemma {:induction false} LedgerBound(d: Day, steps: seq<Step>, cap: nat, k: nat)
    requires Schedule(d, steps, cap, k) && Within(d, cap, k)
    ensures After(d, steps, cap).spent <= k * cap
    decreases |steps|
  {
    if steps != [] {
      NextWithin(d, steps[0], cap, k);
      LedgerBound(Next(d, steps[0], cap), steps[1..], cap, k);
    }
  }

  lemma {:induction false} SequentialRunsKeepTheCap(steps: seq<Step>, cap: nat)
    requires Schedule(Day(0, 0, []), steps, cap, 1)
    ensures After(Day(0, 0, []), steps, cap).spent <= cap
  {
    LedgerBound(Day(0, 0, []), steps, cap, 1);
  }

  function Repeat(s: Step, n: nat): seq<Step> {
    if n == 0 then [] else [s] + Repeat(s, n - 1)
  }

  lemma {:induction false} BeginTogether(d: Day, rest: seq<Step>, cap: nat, n: nat, k: nat)
    requires d.spent == 0 && |d.underWay| + n <= k && forall i | 0 <= i < |d.underWay| :: d.underWay[i] == cap
    ensures exists d': Day ::
      && d'.spent == 0 && |d'.underWay| == |d.underWay| + n
      && (forall i | 0 <= i < |d'.underWay| :: d'.underWay[i] == cap)
      && (Schedule(d', rest, cap, k) ==> Schedule(d, Repeat(Begin, n) + rest, cap, k))
      && After(d, Repeat(Begin, n) + rest, cap) == After(d', rest, cap)
    decreases n
  {
    var steps := Repeat(Begin, n) + rest;
    if n == 0 {
      assert steps == rest;
    } else {
      var next := Next(d, Begin, cap);
      BeginTogether(next, rest, cap, n - 1, k);
      assert steps[0] == Begin && steps[1..] == Repeat(Begin, n - 1) + rest;
    }
  }

  lemma {:induction false} FinishAll(d: Day, cap: nat, k: nat)
    requires |d.underWay| <= k && forall i | 0 <= i < |d.underWay| :: d.underWay[i] == cap
    ensures Schedule(d, Repeat(Finish(0, cap), |d.underWay|), cap, k)
    ensures After(d, Repeat(Finish(0, cap), |d.underWay|), cap).spent == d.spent + |d.underWay| * cap
    decreases |d.underWay|
  {
    var n := |d.underWay|;
    if n > 0 {
      var next := Next(d, Finish(0, cap), cap);
      FinishAll(next, cap, k);
      assert Repeat(Finish(0, cap), n)[1..] == Repeat(Finish(0, cap), n - 1);
      ProductGrows(n - 1, n - 1, cap);
    }
  }

  /** The bound is reached: `k` runs that begin together each read the full budget. */
  lemma {:induction false} LedgerBoundReached(cap: nat, k: nat)
    ensures exists steps ::
      Schedule(Day(0, 0, []), steps, cap, k) && After(Day(0, 0, []), steps, cap).spent == k * cap
  {
    var rest := Repeat(Finish(0, cap), k);
    BeginTogether(Day(0, 0, []), rest, cap, k, k);
    var d: Day :|
      && d.spent == 0 && |d.underWay| == k
      && (forall i | 0 <= i < |d.underWay| :: d.underWay[i] == cap)
      && (Schedule(d, rest, cap, k) ==> Schedule(Day(0, 0, []), Repeat(Begin, k) + rest, cap, k))
      && After(Day(0, 0, []), Repeat(Begin, k) + rest, cap) == After(d, rest, cap);
    FinishAll(d, cap, k);
  }

  lemma {:induction false} TimesCap(k: nat, cap: nat)
    ensures k * cap <= cap <==> k <= 1 || cap == 0
  {
    if k >= 2 { ProductGrows(2, k, cap); }
  }

  /** The cap is hard for up to `k` runs under way at once exactly when `k` is at
      most one: for runs that take turns. */
  lemma {:induction false} CapIsHardExactly(cap: nat, k: nat)
    ensures (forall steps | Schedule(Day(0, 0, []), steps, cap, k) :: After(Day(0, 0, []), steps, cap).spent <= cap)
            <==> k <= 1 || cap == 0
  {
    TimesCap(k, cap);
    if k <= 1 || cap == 0 {
      forall steps | Schedule(Day(0, 0, []), steps, cap, k)
        ensures After(Day(0, 0, []), steps, cap).spent <= cap
      {
        LedgerBound(Day(0, 0, []), steps, cap, k);
      }
    } else {
      LedgerBoundReached(cap, k);
    }
  }

  /** The ledger is honest exactly when no call was made by a run that was cut off. */
  function LostCalls(steps: seq<Step>): nat {
    if steps == [] then 0 else (if steps[0].Crash? then steps[0].calls else 0) + LostCalls(steps[1..])
  }

  lemma {:induction false} LedgerGap(d: Day, steps: seq<Step>, cap: nat, k: nat)
    requires Schedule(d, steps, cap, k)
    ensures After(d, steps, cap).called - After(d, steps, cap).spent == d.called - d.spent + LostCalls(steps)
    decreases |steps|
  {
    if steps != [] { LedgerGap(Next(d, steps[0], cap), steps[1..], cap, k); }
  }

  // ------------------------------------------------------------- midnight

  /** A run under way: whether it began today, its budget, and its calls so far. */
  datatype Going = Going(today: bool, budget: nat, made: nat)

  /** One run at a time, across days: what today's rows say, what was really sent
      today, and the run under way. A row counts for the day its run began. */
  datatype Calendar = Calendar(spent: nat, sent: nat, run: Option<Going>)

  datatype Event = Start | Send | Stop | Midnight

  predicate Possible(c: Calendar, e: Event) {
    match e
    case Start => c.run == None
    case Send => c.run.Some? && c.run.value.made < c.run.value.budget
    case Stop => c.run.Some?
    case Midnight => true
  }

  function Passed(c: Calendar, e: Event, cap: nat): Calendar
    requires Possible(c, e)
  {
    match e
    case Start => c.(run := Some(Going(true, Max0(cap - c.spent), 0)))
    case Send =>
      var r := c.run.value;
      c.(sent := c.sent + 1, run := Some(r.(made := r.made + 1)))
    case Stop =>
      c.(spent := c.spent + (if c.run.value.today then c.run.value.made else 0), run := None)
    case Midnight =>
      Calendar(0, 0, if c.run.Some? then Some(c.run.value.(today := false)) else None)
  }

  ghost predicate Timeline(c: Calendar, events: seq<Event>, cap: nat)
    decreases |events|
  {
    events == [] || (Possible(c, events[0]) && Timeline(Passed(c, events[0], cap), events[1..], cap))
  }

  function Then(c: Calendar, events: seq<Event>, cap: nat): Calendar
    requires Timeline(c, events, cap)
    decreases |events|
  {
    if events == [] then c else Then(Passed(c, events[0], cap), events[1..], cap)
  }

  /** Besides what today's runs record, at most one run from the day before sends. */
  predicate Carried(c: Calendar, cap: nat) {
    && c.spent <= cap
    && match c.run
       case None => c.sent <= cap + c.spent
       case Some(r) =>
         && r.made <= r.budget <= cap
         && if r.today then c.spent + r.budget <= cap && c.sent <= cap + c.spent + r.made
            else c.spent == 0 && c.sent <= r.made
  }

  lemma {:induction false} CarriedAlways(c: Calendar, events: seq<Event>, cap: nat)
    requires Carried(c, cap) && Timeline(c, events, cap)
    ensures Carried(Then(c, events, cap), cap)
    decreases |events|
  {
    if events != [] { CarriedAlways(Passed(c, events[0], cap), events[1..], cap); }
  }

  function Sends(n: nat): seq<Event> {
    if n == 0 then [] else [Send] + Sends(n - 1)
  }

  lemma {:induction false} SendsThen(c: Calendar, n: nat, rest: seq<Event>, cap: nat)
    requires c.run.Some? && c.run.value.made + n <= c.run.value.budget
    ensures var after := c.(sent := c.sent + n, run := Some(c.run.value.(made := c.run.value.made + n)));
            Timeline(after, rest, cap) ==>
              Timeline(c, Sends(n) + rest, cap) && Then(c, Sends(n) + rest, cap) == Then(after, rest, cap)
    decreases n
  {
    if n == 0 {
      assert Sends(0) + rest == rest;
    } else {
      assert (Sends(n) + rest)[0] == Send && (Sends(n) + rest)[1..] == Sends(n - 1) + rest;
      SendsThen(Passed(c, Send, cap), n - 1, rest, cap);
    }
  }

  lemma {:induction false} OneThen(c: Calendar, e: Event, rest: seq<Event>, cap: nat)
    requires Possible(c, e)
    ensures Timeline(Passed(c, e, cap), rest, cap) ==>
              Timeline(c, [e] + rest, cap) && Then(c, [e] + rest, cap) == Then(Passed(c, e, cap), rest, cap)
  {
    assert ([e] + rest)[0] == e && ([e] + rest)[1..] == rest;
  }

  /** A run of full length begun before midnight and sent after it, then another. */
  function AroundMidnight(cap: nat): seq<Event> {
    [Start] + ([Midnight] + (Sends(cap) + SecondRun(cap)))
  }

  function SecondRun(cap: nat): seq<Event> {
    [Stop] + ([Start] + (Sends(cap) + []))
  }

  lemma {:induction false} SecondRunSends(cap: nat)
    ensures var ended := Calendar(0, cap, Some(Going(false, cap, cap)));
            Timeline(ended, SecondRun(cap), cap) && Then(ended, SecondRun(cap), cap).sent == 2 * cap
  {
    var ended := Calendar(0, cap, Some(Going(false, cap, cap)));
    var second := Calendar(0, cap, Some(Going(true, cap, 0)));
    SendsThen(second, cap, [], cap);
    OneThen(Calendar(0, cap, None), Start, Sends(cap) + [], cap);
    OneThen(ended, Stop, [Start] + (Sends(cap) + []), cap);
  }

  lemma {:induction false} TwiceTheCap(cap: nat)
    ensures var start, events := Calendar(0, 0, None), AroundMidnight(cap);
            Timeline(start, events, cap) && Then(start, events, cap).sent == 2 * cap
  {
    SecondRunSends(cap);
    SendsThen(Calendar(0, 0, Some(Going(false, cap, 0))), cap, SecondRun(cap), cap);
    OneThen(Calendar(0, 0, Some(Going(true, cap, 0))), Midnight, Sends(cap) + SecondRun(cap), cap);
    OneThen(Calendar(0, 0, None), Start, [Midnight] + (Sends(cap) + SecondRun(cap)), cap);
  }

  /** Even runs that take turns can send twice the cap in one day, and never more: a
      number bounds the calls of every day exactly when it is at least that. */
  lemma {:induction false} SentInADayExactly(cap: nat, bound: nat)
    ensures (forall events | Timeline(Calendar(0, 0, None), events, cap) ::
               Then(Calendar(0, 0, None), events, cap).sent <= bound)
            <==> bound >= 2 * cap
  {
    if bound >= 2 * cap {
      forall events | Timeline(Calendar(0, 0, None), events, cap)
        ensures Then(Calendar(0, 0, None), events, cap).sent <= bound
      {
        CarriedAlways(Calendar(0, 0, None), events, cap);
      }
    } else {
      TwiceTheCap(cap);
    }
  }

  // ------------------------------------------------------ the day's rows

  /** What is left of the day's budget, given the calls its rows record. */
  function BudgetLeft(cap: nat, rows: seq<nat>): nat {
    Max0(cap - Sum(rows))
  }

  /** Today's rows of `collection_runs`: fetched plus failed, one row a run. */
  class Ledger {
    const cap: nat
    var rows: seq<nat>

    ghost predicate Valid()
      reads this
    {
      Sum(rows) <= cap
    }

    constructor (cap: nat)
      ensures Valid() && this.cap == cap && rows == []
    {
      this.cap := cap;
      rows := [];
    }

    /** One uninterrupted run: the budget is read, spent, reported, and only then
        is the run's row filled in. */
    method Collect(targets: nat, answers: Answers) returns (r: Report, budgetLeft: nat)
      modifies this
      ensures var budget := BudgetLeft(cap, old(rows));
              && r == ReportOf(targets, Run(targets, budget, answers))
              && budgetLeft == budget
              && rows == old(rows) + [Run(targets, budget, answers).calls]
      ensures old(Valid()) ==> Valid()
    {
      var budget := BudgetLeft(cap, rows);
      var calls;
      r, calls := CollectComtrade(targets, budget, answers);
      budgetLeft := BudgetLeft(cap, rows);
      RunKeepsTheCap(cap, rows, targets, answers);
      rows := rows + [calls];
    }
  }

  /** A run that spends what the rows leave keeps the rows within the cap. */
  lemma {:induction false} RunKeepsTheCap(cap: nat, rows: seq<nat>, targets: nat, answers: Answers)
    ensures var calls := Run(targets, BudgetLeft(cap, rows), answers).calls;
            Sum(rows) <= cap ==> Sum(rows + [calls]) <= cap
  {
    var calls := Run(targets, BudgetLeft(cap, rows), answers).calls;
    Tallied(targets, BudgetLeft(cap, rows), answers);
    SumAppend(rows, [calls]);
    assert Sum([calls]) == calls;
  }

  datatype Order = Order(targets: nat, answers: Answers)

  /** The rows of a day whose runs follow one another, each the collecting loop. */
  function DayRows(cap: nat, orders: seq<Order>): seq<nat> {
    if orders == [] then []
    else
      var rows, last := DayRows(cap, orders[..|orders| - 1]), orders[|orders| - 1];
      rows + [Run(last.targets, BudgetLeft(cap, rows), last.answers).calls]
  }

  /** Whatever is collected in runs that follow one another, and whatever the source
      answers, the day's ledger stays within the cap. */
  lemma {:induction false} CollectedDayKeepsTheCap(cap: nat, orders: seq<Order>)
    ensures Sum(DayRows(cap, orders)) <= cap
  {
    if orders != [] {
      var front, last := orders[..|orders| - 1], orders[|orders| - 1];
      CollectedDayKeepsTheCap(cap, front);
      RunKeepsTheCap(cap, DayRows(cap, front), last.targets, last.answers);
    }
  }

  /** A run skips targets only once the day's cap is spent: before that, none. */
  lemma {:induction false} SkipsOnlyWhenSpent(cap: nat, orders: seq<Order>, last: Order)
    ensures var rows := DayRows(cap, orders);
            var run := Run(last.targets, BudgetLeft(cap, rows), last.answers);
            ReportOf(last.targets, run).skipped > 0 ==> Sum(DayRows(cap, orders + [last])) == cap
  {
    var rows := DayRows(cap, orders);
    var run := Run(last.targets, BudgetLeft(cap, rows), last.answers);
    assert (orders + [last])[..|orders|] == orders;
    CollectedDayKeepsTheCap(cap, orders);
    Tallied(last.targets, BudgetLeft(cap, rows), last.answers);
    SumAppend(rows, [run.calls]);
    assert Sum([run.calls]) == run.calls;
  }

  lemma {:induction false} NoCallsExactly(targets: nat, budget: nat, answers: Answers)
    ensures Run(targets, budget, answers).calls == 0 <==> targets == 0 || budget == 0
  {
    Tallied(targets, budget, answers);
    if targets > 0 && budget > 0 {
      NoCallsExactly(targets - 1, budget, answers);
    }
  }

  /** The `budget_left` a run reports is what its own row leaves exactly when it
      had nothing to fetch or nothing to spend: otherwise it is too high, by the
      calls of the run. */
  lemma {:induction false} ReportedBudgetExactly(cap: nat, rows: seq<nat>, targets: nat, answers: Answers)
    ensures var budget := BudgetLeft(cap, rows);
            var calls := Run(targets, budget, answers).calls;
            && budget - BudgetLeft(cap, rows + [calls]) == calls
            && (budget == BudgetLeft(cap, rows + [calls]) <==> targets == 0 || budget == 0)
  {
    var budget := BudgetLeft(cap, rows);
    var calls := Run(targets, budget, answers).calls;
    Tallied(targets, budget, answers);
    NoCallsExactly(targets, budget, answers);
    SumAppend(rows, [calls]);
    assert Sum([calls]) == calls;
  }

  // ---------------------------------------------------------- the pre-warm

  /** What is left of the budget after pre-warming one code after another. */
  function RefreshLeft(left: nat, reserve: int, targets: nat, scripts: seq<Answers>): nat {
    if scripts == [] || left <= reserve then left
    else
      Tallied(targets, left, scripts[0]);
      RefreshLeft(left - Run(targets, left, scripts[0]).calls, reserve, targets, scripts[1..])
  }

  lemma {:induction false} RefreshStep(left: nat, reserve: int, targets: nat, first: Answers, rest: seq<Answers>)
    requires left > reserve
    ensures Run(targets, left, first).calls <= left
    ensures RefreshLeft(left, reserve, targets, [first] + rest)
         == RefreshLeft(left - Run(targets, left, first).calls, reserve, targets, rest)
  {
    Tallied(targets, left, first);
    assert ([first] + rest)[1..] == rest;
  }

  lemma {:induction false} SpentAt(left: nat, reserve: int, targets: nat, scripts: seq<Answers>, i: nat)
    requires left > reserve && i < |scripts|
    ensures var report := ReportOf(targets, Run(targets, left, scripts[i]));
            && report.fetched + report.failed <= left
            && RefreshLeft(left, reserve, targets, scripts[i..])
               == RefreshLeft(left - (report.fetched + report.failed), reserve, targets, scripts[i + 1..])
  {
    assert scripts[i..] == [scripts[i]] + scripts[i + 1..];
    RefreshStep(left, reserve, targets, scripts[i], scripts[i + 1..]);
  }

  method Refresh(start: nat, reserve: int, targets: nat, scripts: seq<Answers>) returns (left: nat)
    ensures left == RefreshLeft(start, reserve, targets, scripts)
  {
    left := start;
    for i := 0 to |scripts|
      invariant RefreshLeft(left, reserve, targets, scripts[i..]) == RefreshLeft(start, reserve, targets, scripts)
    {
      if left <= reserve { break; }
      var report, calls := CollectComtrade(targets, left, scripts[i]);
      SpentAt(left, reserve, targets, scripts, i);
      left := left - (report.fetched + report.failed);
    }
  }

  /** A refresh that starts above the reserve may eat into it, but by less than
      one code's worth of calls. */
  lemma {:induction false} RefreshFloor(left: nat, reserve: int, targets: nat, scripts: seq<Answers>)
    requires left > reserve
    ensures RefreshLeft(left, reserve, targets, scripts) >= Max0(reserve + 1 - 3 * targets)
    decreases |scripts|
  {
    if scripts != [] {
      Tallied(targets, left, scripts[0]);
      var next := left - Run(targets, left, scripts[0]).calls;
      if next > reserve { RefreshFloor(next, reserve, targets, scripts[1..]); }
    }
  }

  function NoAnswer(): Answers {
    (t: nat, a: nat) => false
  }

  /** Only the first target answers, on its second attempt. */
  function LateAnswer(): Answers {
    (t: nat, a: nat) => t == 0 && a == 1
  }

  lemma {:induction false} NoAnswerCost(n: nat, budget: nat)
    ensures Run(n, budget, NoAnswer()).calls == if 3 * n < budget then 3 * n else budget
  {
    if n > 0 {
      NoAnswerCost(n - 1, budget);
      var p := Run(n - 1, budget, NoAnswer());
      if p.calls < budget { NoAnswerTarget(n - 1, 0, budget - p.calls); }
    }
  }

  lemma {:induction false} NoAnswerTarget(t: nat, a: nat, left: nat)
    requires a < 3 && a < left
    ensures Target(NoAnswer(), t, a, left).0 == if left < 3 then left else 3
    decreases 3 - a
  {
    if a + 1 < left && a < 2 { NoAnswerTarget(t, a + 1, left); }
  }

  lemma {:induction false} LateTarget(t: nat, a: nat, left: nat)
    requires t > 0 && a < 3 <= left
    ensures Target(LateAnswer(), t, a, left).0 == 3
    decreases 3 - a
  {
    if a < 2 { LateTarget(t, a + 1, left); }
  }

  lemma {:induction false} LateAnswerCost(n: nat, budget: nat)
    requires n >= 1 && 3 * n <= budget
    ensures Run(n, budget, LateAnswer()).calls == 3 * n - 1
  {
    if n == 1 {
      assert Run(0, budget, LateAnswer()) == Tally(0, 0, 0);
      assert Target(LateAnswer(), 0, 0, budget) == Target(LateAnswer(), 0, 1, budget) == (2, true);
    } else {
      LateAnswerCost(n - 1, budget);
      LateTarget(n - 1, 0, budget - Run(n - 1, budget, LateAnswer()).calls);
    }
  }

  /** The calls that `codes` codes cost when no source ever answers. */
  function WorstCase(targets: nat, codes: nat): nat {
    if codes == 0 then 0 else 3 * targets + WorstCase(targets, codes - 1)
  }

  lemma {:induction false} WorstCaseIs(targets: nat, codes: nat)
    ensures WorstCase(targets, codes) == 3 * targets * codes
  {
    if codes > 0 { WorstCaseIs(targets, codes - 1); }
  }

  lemma {:induction false} SpendFirst(left: nat, reserve: int, targets: nat, first: Answers, rest: seq<Answers>,
                                      cost: nat)
    requires left > reserve && cost == Run(targets, left, first).calls
    ensures cost <= left
    ensures RefreshLeft(left, reserve, targets, [first] + rest) == RefreshLeft(left - cost, reserve, targets, rest)
  {
    RefreshStep(left, reserve, targets, first, rest);
  }

  /** The first code's answers: the most calls that leave more than the reserve, or
      drop below it at once. */
  lemma {:induction false} FirstAnswers(left: nat, reserve: int, targets: nat, codes: nat)
    returns (first: Answers, cost: nat)
    requires codes >= 1 && reserve >= 1 && left > reserve && WorstCase(targets, codes) > left - reserve
    ensures cost == Run(targets, left, first).calls && cost <= left
    ensures left - cost < reserve
            || (left - cost > reserve && WorstCase(targets, codes - 1) > left - cost - reserve)
  {
    Tallied(targets, left, NoAnswer());
    NoAnswerCost(targets, left);
    if left - 3 * targets != reserve {
      first, cost := NoAnswer(), Run(targets, left, NoAnswer()).calls;
    } else {
      LateAnswerCost(targets, left);
      first, cost := LateAnswer(), 3 * targets - 1;
      assert WorstCase(targets, codes) == 3 * targets + WorstCase(targets, codes - 1);
      WorstCaseGrows(targets, codes - 1);
    }
  }

  lemma {:induction false} WorstCaseGrows(targets: nat, codes: nat)
    ensures WorstCase(targets, codes) > 0 ==> WorstCase(targets, codes) >= 3 * targets
  {}

  /** Answers of the sources that drive a refresh below its reserve. */
  lemma {:induction false} EatIntoReserve(left: nat, reserve: int, targets: nat, codes: nat)
    returns (scripts: seq<Answers>)
    requires reserve >= 1 && left > reserve && WorstCase(targets, codes) > left - reserve
    ensures |scripts| == codes && RefreshLeft(left, reserve, targets, scripts) < reserve
    decreases codes
  {
    var first, cost := FirstAnswers(left, reserve, targets, codes);
    var rest: seq<Answers>;
    if left - cost < reserve {
      rest := seq(codes - 1, i => NoAnswer());
    } else {
      rest := EatIntoReserve(left - cost, reserve, targets, codes - 1);
    }
    SpendFirst(left, reserve, targets, first, rest, cost);
    scripts := [first] + rest;
  }

  lemma {:induction false} ReserveKept(left: nat, reserve: int, targets: nat, scripts: seq<Answers>)
    requires left >= reserve && WorstCase(targets, |scripts|) <= left - reserve
    ensures RefreshLeft(left, reserve, targets, scripts) >= reserve
    decreases |scripts|
  {
    if scripts != [] && left > reserve {
      Tallied(targets, left, scripts[0]);
      ReserveKept(left - Run(targets, left, scripts[0]).calls, reserve, targets, scripts[1..]);
    }
  }

  /** The reserve for live requests survives whatever the source answers exactly
      when every code's worst case fits above it. */
  lemma {:induction false} ReserveKeptExactly(left: nat, reserve: int, targets: nat, codes: nat)
    requires reserve >= 1 && left > reserve
    ensures (forall scripts: seq<Answers> | |scripts| == codes ::
               RefreshLeft(left, reserve, targets, scripts) >= reserve)
            <==> 3 * targets * codes <= left - reserve
  {
    WorstCaseIs(targets, codes);
    if 3 * targets * codes <= left - reserve {
      forall scripts: seq<Answers> | |scripts| == codes
        ensures RefreshLeft(left, reserve, targets, scripts) >= reserve
      {
        ReserveKept(left, reserve, targets, scripts);
      }
    } else {
      var scripts := EatIntoReserve(left, reserve, targets, codes);
    }
  }
}
