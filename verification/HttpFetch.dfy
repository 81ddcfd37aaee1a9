/** The retrying fetch that consults the breaker (`silk_data_layer.py`). */
module HttpFetch {
  import opened CircuitBreaker
  import opened Common
  import opened Wrappers

  /** What one attempt gives: an HTTP status, an exception of the HTTP library, or
      any other exception, such as a task's time limit. */
  datatype Reply = Status(code: int) | TransportError | OtherException

  /** The reply of an attempt and the time at which it is known; throttling and
      sleeping only move that time. */
  datatype Try = Try(reply: Reply, at: real)

  predicate Retryable(r: Reply) {
    r.Status? && r.code in {429, 500, 502, 503, 504}
  }

  /** The attempt that ends the call, from attempt `k` on, with `allowed` retries. */
  function EndFrom(script: nat -> Try, allowed: nat, k: nat): (end: nat)
    requires k <= allowed
    ensures k <= end <= allowed
    decreases allowed - k
  {
    if !Retryable(script(k).reply) || k == allowed then k else EndFrom(script, allowed, k + 1)
  }

  predicate Fails(t: Try) {
    t.reply == TransportError || Retryable(t.reply)
  }

  /** What the breaker is told of a call that ends so: nothing, when an exception
      passes through that the call does not catch. */
  function Recorded(host: string, t: Try): seq<Event> {
    if Fails(t) then [Failed(host, t.at)]
    else if t.reply == OtherException then []
    else [Succeeded(host)]
  }

  /** Retries granted: none while the circuit is open. */
  function Granted(open: bool, retries: int): int {
    if open then 0 else retries
  }

  lemma {:induction false} RecordedStreak(h: seq<Event>, host: string, t: Try)
    ensures Answers(t.reply) ==> Streak(h + Recorded(host, t), host) == 0
    ensures !Answers(t.reply) && t.reply != OtherException ==>
              Streak(h + Recorded(host, t), host) == Streak(h, host) + 1
  {
    AfterOne(h, Failed(host, t.at), host);
    AfterOne(h, Succeeded(host), host);
  }

  /** The fetch as the source runs it; `OtherException` and `TransportError` stand
      for the exception that is raised. A negative retry setting leaves nothing to
      attempt and nothing to record. */
  method HttpGet(breaker: Breaker, host: string, now: real, retries: int, script: nat -> Try)
    returns (reply: Option<Reply>, attempts: nat)
    requires breaker.Valid()
    modifies breaker
    ensures breaker.Valid()
    ensures var open := old(OpenBy(breaker.history, host, now, breaker.threshold, breaker.cooldown));
            var granted := Granted(open, retries);
            if granted < 0 then
              attempts == 0 && reply == None && breaker.history == old(breaker.history)
            else
              var end := EndFrom(script, granted, 0);
              && attempts == end + 1
              && reply == Some(script(end).reply)
              && breaker.history == old(breaker.history) + Recorded(host, script(end))
    ensures reply.Some? && Answers(reply.value) ==> Streak(breaker.history, host) == 0
    ensures reply.Some? && !Answers(reply.value) && reply.value != OtherException ==>
              Streak(breaker.history, host) == old(Streak(breaker.history, host)) + 1
  {
    ghost var before := breaker.history;
    var open := breaker.IsOpen(host, now);
    var granted := if open then 0 else retries;
    reply, attempts := None, 0;
    while attempts <= granted
      invariant breaker.Valid() && breaker.history == old(breaker.history)
      invariant granted < 0 ==> attempts == 0 && reply == None
      invariant granted >= 0 ==> attempts <= granted
      invariant granted >= 0 ==> EndFrom(script, granted, 0) == EndFrom(script, granted, attempts)
    {
      var t := script(attempts);
      reply := Some(t.reply);
      attempts := attempts + 1;
      RecordedStreak(before, host, t);
      if t.reply == TransportError {
        breaker.RecordFailure(host, t.at);
        return;
      }
      if t.reply == OtherException {
        return;
      }
      if !Retryable(t.reply) {
        breaker.RecordSuccess(host);
        return;
      }
      if attempts > granted {
        breaker.RecordFailure(host, t.at);
        return;
      }
    }
  }

  // ------------------------------------------------------- a run of fetches

  datatype Call = Call(host: string, start: real, script: nat -> Try)

  datatype Setting = Setting(threshold: nat, cooldown: real, retries: nat)

  function CallEnd(h: seq<Event>, c: Call, s: Setting): nat {
    EndFrom(c.script, Granted(OpenBy(h, c.host, c.start, s.threshold, s.cooldown), s.retries), 0)
  }

  function AfterCall(h: seq<Event>, c: Call, s: Setting): seq<Event> {
    h + Recorded(c.host, c.script(CallEnd(h, c, s)))
  }

  /** Attempts that a run of calls, to any hosts in any order, makes at one host. */
  function Attempts(h: seq<Event>, calls: seq<Call>, host: string, s: Setting): nat
    decreases |calls|
  {
    if calls == [] then 0
    else (if calls[0].host == host then CallEnd(h, calls[0], s) + 1 else 0)
         + Attempts(AfterCall(h, calls[0], s), calls[1..], host, s)
  }

  function CallsTo(calls: seq<Call>, host: string): nat {
    if calls == [] then 0 else (if calls[0].host == host then 1 else 0) + CallsTo(calls[1..], host)
  }

  /** Every call to the host fails, and none waits out a cooldown. */
  ghost predicate Storm(h: seq<Event>, calls: seq<Call>, host: string, s: Setting)
    decreases |calls|
  {
    calls == [] ||
    (&& (calls[0].host == host ==>
           && Fails(calls[0].script(CallEnd(h, calls[0], s)))
           && (Streak(h, host) >= s.threshold ==> calls[0].start - LastFailure(h, host) < s.cooldown))
     && Storm(AfterCall(h, calls[0], s), calls[1..], host, s))
  }

  /** Calls that still find the circuit closed after `streak` failures. */
  function ClosedCalls(streak: nat, calls: nat, threshold: nat): nat {
    if streak >= threshold then 0 else if calls < threshold - streak then calls else threshold - streak
  }

  lemma {:induction false} AfterStreak(h: seq<Event>, c: Call, host: string, s: Setting)
    ensures c.host != host ==> Streak(AfterCall(h, c, s), host) == Streak(h, host)
    ensures c.host == host && Fails(c.script(CallEnd(h, c, s))) ==>
      Streak(AfterCall(h, c, s), host) == Streak(h, host) + 1
  {
    var recorded := Recorded(c.host, c.script(CallEnd(h, c, s)));
    if recorded == [] {
      assert h + recorded == h;
    } else {
      AfterOne(h, recorded[0], host);
    }
  }

  /** One call: a single attempt once the streak stands, at most all retries before. */
  lemma {:induction false} CallCost(h: seq<Event>, c: Call, s: Setting)
    requires Streak(h, c.host) >= s.threshold ==> c.start - LastFailure(h, c.host) < s.cooldown
    ensures CallEnd(h, c, s) + 1 <= if Streak(h, c.host) < s.threshold then s.retries + 1 else 1
  {}

  lemma {:induction false} ClosedStep(streak: nat, rest: nat, s: Setting)
    ensures ClosedCalls(streak, rest + 1, s.threshold) * s.retries + (rest + 1)
         == (if streak < s.threshold then s.retries + 1 else 1)
            + ClosedCalls(streak + 1, rest, s.threshold) * s.retries + rest
  {
    var after := ClosedCalls(streak + 1, rest, s.threshold);
    assert ClosedCalls(streak, rest + 1, s.threshold) == if streak < s.threshold then after + 1 else 0;
    assert (after + 1) * s.retries == after * s.retries + s.retries;
  }

  lemma {:induction false} StormCost(h: seq<Event>, calls: seq<Call>, host: string, s: Setting)
    requires Storm(h, calls, host, s)
    ensures var closed := ClosedCalls(Streak(h, host), CallsTo(calls, host), s.threshold);
            Attempts(h, calls, host, s) <= closed * s.retries + CallsTo(calls, host)
    decreases |calls|
  {
    if calls != [] {
      var c := calls[0];
      AfterStreak(h, c, host, s);
      StormCost(AfterCall(h, c, s), calls[1..], host, s);
      if c.host == host {
        CallCost(h, c, s);
        ClosedStep(Streak(h, host), CallsTo(calls[1..], host), s);
      }
    }
  }

  /** From a clean slate, m failing calls to one host, among any calls to others,
      none of them waiting out a cooldown, cost at most T(r+1) + (m-T) attempts. */
  lemma {:induction false} StormBound(h: seq<Event>, calls: seq<Call>, host: string, s: Setting)
    requires Storm(h, calls, host, s) && Streak(h, host) == 0
    requires CallsTo(calls, host) >= s.threshold
    ensures Attempts(h, calls, host, s) <= s.threshold * (s.retries + 1) + (CallsTo(calls, host) - s.threshold)
  {
    StormCost(h, calls, host, s);
    assert s.threshold * (s.retries + 1) == s.threshold * s.retries + s.threshold;
  }

  /** The bound is reached when the host answers nothing but 503. */
  lemma {:induction false} StormBoundReached(h: seq<Event>, calls: seq<Call>, host: string, s: Setting)
    requires Storm(h, calls, host, s)
    requires forall c, k: nat | c in calls && c.host == host :: Retryable(c.script(k).reply)
    ensures var closed := ClosedCalls(Streak(h, host), CallsTo(calls, host), s.threshold);
            Attempts(h, calls, host, s) == closed * s.retries + CallsTo(calls, host)
    decreases |calls|
  {
    if calls != [] {
      var c := calls[0];
      AfterStreak(h, c, host, s);
      StormBoundReached(AfterCall(h, c, s), calls[1..], host, s);
      if c.host == host {
        AlwaysRetries(c.script, Granted(OpenBy(h, host, c.start, s.threshold, s.cooldown), s.retries), 0);
        ClosedStep(Streak(h, host), CallsTo(calls[1..], host), s);
      }
    }
  }

  lemma {:induction false} AlwaysRetries(script: nat -> Try, allowed: nat, k: nat)
    requires k <= allowed && forall i: nat :: Retryable(script(i).reply)
    ensures EndFrom(script, allowed, k) == allowed
    decreases allowed - k
  {
    if k < allowed { AlwaysRetries(script, allowed, k + 1); }
  }

  // --------------------------------------- what opens the circuit, over a run

  /** The history after the first `n` of calls that follow one another. */
  function AfterCalls(calls: seq<Call>, n: nat, s: Setting): seq<Event>
    requires n <= |calls|
  {
    if n == 0 then [] else AfterCall(AfterCalls(calls, n - 1, s), calls[n - 1], s)
  }

  /** The host answers, be it with an error of the caller's: any status but the five. */
  predicate Answers(r: Reply) {
    r.Status? && r.code != 429 && r.code != 500 && r.code != 502 && r.code != 503 && r.code != 504
  }

  /** What a call that ends so shows of a host. */
  datatype Mark = Nothing | Answered | Failing(at: real)

  function MarkOf(c: Call, t: Try, host: string): Mark {
    if c.host != host || t.reply == OtherException then Nothing
    else if Answers(t.reply) then Answered
    else Failing(t.at)
  }

  /** What the first `n` calls of a run show of a host. */
  function Marks(calls: seq<Call>, n: nat, host: string, s: Setting): (marks: seq<Mark>)
    requires n <= |calls|
    ensures |marks| == n
  {
    if n == 0 then []
    else
      var c := calls[n - 1];
      Marks(calls, n - 1, host, s) + [MarkOf(c, c.script(CallEnd(AfterCalls(calls, n - 1, s), c, s)), host)]
  }

  ghost predicate Silent(marks: seq<Mark>, k: nat) {
    forall i | k <= i < |marks| :: marks[i] != Answered
  }

  ghost function FailuresFrom(marks: seq<Mark>, k: nat): set<nat> {
    set i: nat | k <= i < |marks| && marks[i].Failing?
  }

  ghost predicate Latest(marks: seq<Mark>, i: nat) {
    i < |marks| && marks[i].Failing? && forall j | i < j < |marks| :: !marks[j].Failing?
  }

  /** An answered call clears its host's streak and closes its circuit at once, and
      leaves every other host's streak and last failure as they were. */
  lemma {:induction false} AnswerCloses(h: seq<Event>, c: Call, host: string, now: real, s: Setting)
    requires s.threshold >= 1 && Answers(c.script(CallEnd(h, c, s)).reply)
    ensures Streak(AfterCall(h, c, s), c.host) == 0
    ensures !OpenBy(AfterCall(h, c, s), c.host, now, s.threshold, s.cooldown)
    ensures host != c.host ==> Streak(AfterCall(h, c, s), host) == Streak(h, host)
    ensures host != c.host ==> LastFailure(AfterCall(h, c, s), host) == LastFailure(h, host)
  {
    AfterOne(h, Succeeded(c.host), c.host);
    AfterOne(h, Succeeded(c.host), host);
  }

  /** The counter and the time that a list of marks comes to. */
  function CountOf(marks: seq<Mark>): nat {
    if marks == [] || marks[|marks| - 1] == Answered then 0
    else CountOf(marks[..|marks| - 1]) + if marks[|marks| - 1].Failing? then 1 else 0
  }

  function TimeOf(marks: seq<Mark>): real {
    if marks == [] then 0.0
    else if marks[|marks| - 1].Failing? then marks[|marks| - 1].at
    else TimeOf(marks[..|marks| - 1])
  }

  lemma {:induction false} MarkCounts(h: seq<Event>, c: Call, host: string, s: Setting)
    ensures var mark := MarkOf(c, c.script(CallEnd(h, c, s)), host);
            && Streak(AfterCall(h, c, s), host)
               == (if mark == Answered then 0 else Streak(h, host) + if mark.Failing? then 1 else 0)
            && LastFailure(AfterCall(h, c, s), host) == if mark.Failing? then mark.at else LastFailure(h, host)
  {
    var recorded := Recorded(c.host, c.script(CallEnd(h, c, s)));
    if recorded == [] {
      assert h + recorded == h;
    } else {
      AfterOne(h, recorded[0], host);
    }
  }

  lemma {:induction false} RunCounts(calls: seq<Call>, n: nat, host: string, s: Setting)
    requires n <= |calls|
    ensures Streak(AfterCalls(calls, n, s), host) == CountOf(Marks(calls, n, host, s))
    ensures LastFailure(AfterCalls(calls, n, s), host) == TimeOf(Marks(calls, n, host, s))
  {
    if n > 0 {
      RunCounts(calls, n - 1, host, s);
      MarkCounts(AfterCalls(calls, n - 1, s), calls[n - 1], host, s);
      assert Marks(calls, n, host, s)[..n - 1] == Marks(calls, n - 1, host, s);
    }
  }

  lemma {:induction false} FailuresStep(marks: seq<Mark>, k: nat)
    requires k < |marks|
    ensures |FailuresFrom(marks, k)|
         == |FailuresFrom(marks[..|marks| - 1], k)| + if marks[|marks| - 1].Failing? then 1 else 0
  {
    var n, some := |marks| - 1, FailuresFrom(marks[..|marks| - 1], k);
    assert FailuresFrom(marks, k) == if marks[n].Failing? then some + {n} else some;
  }

  /** The counter covers the failures of any stretch without an answer. */
  lemma {:induction false} CountCovers(marks: seq<Mark>, k: nat)
    requires k <= |marks| && Silent(marks, k)
    ensures |FailuresFrom(marks, k)| <= CountOf(marks)
  {
    if k == |marks| {
      assert FailuresFrom(marks, k) == {};
    } else {
      CountCovers(marks[..|marks| - 1], k);
      FailuresStep(marks, k);
    }
  }

  /** And it is the count of one of them. */
  lemma {:induction false} CountIsReached(marks: seq<Mark>) returns (k: nat)
    ensures k <= |marks| && Silent(marks, k) && |FailuresFrom(marks, k)| == CountOf(marks)
  {
    k := |marks|;
    assert FailuresFrom(marks, k) == {};
    if marks != [] && marks[|marks| - 1] != Answered {
      k := CountIsReached(marks[..|marks| - 1]);
      FailuresStep(marks, k);
    }
  }

  lemma {:induction false} TimeIsLatest(marks: seq<Mark>, i: nat)
    requires Latest(marks, i)
    ensures TimeOf(marks) == marks[i].at
  {
    if i < |marks| - 1 { TimeIsLatest(marks[..|marks| - 1], i); }
  }

  lemma {:induction false} SomeLatest(marks: seq<Mark>, k: nat) returns (i: nat)
    requires k < |marks| && marks[k].Failing?
    ensures Latest(marks, i)
  {
    i := |marks| - 1;
    if !marks[i].Failing? { i := SomeLatest(marks[..i], k); }
  }

  /** After any calls to any hosts that follow one another, a host's circuit is open if
      and only if some stretch to the end, without an answer from the host, holds at
      least the threshold of failed calls to it, and the latest is within the cooldown. */
  lemma {:induction false} RunOpensExactly(calls: seq<Call>, host: string, now: real, s: Setting)
    requires s.threshold >= 1
    ensures var marks := Marks(calls, |calls|, host, s);
            OpenBy(AfterCalls(calls, |calls|, s), host, now, s.threshold, s.cooldown)
            <==> && (exists k: nat :: k <= |calls| && Silent(marks, k) && |FailuresFrom(marks, k)| >= s.threshold)
                 && (exists i: nat :: Latest(marks, i) && now - marks[i].at < s.cooldown)
  {
    var marks := Marks(calls, |calls|, host, s);
    RunCounts(calls, |calls|, host, s);
    if CountOf(marks) >= s.threshold {
      var k := CountIsReached(marks);
      var some :| some in FailuresFrom(marks, k);
      var i := SomeLatest(marks, some);
      TimeIsLatest(marks, i);
    }
    if k: nat :| k <= |calls| && Silent(marks, k) && |FailuresFrom(marks, k)| >= s.threshold { CountCovers(marks, k); }
    if i: nat :| Latest(marks, i) && now - marks[i].at < s.cooldown { TimeIsLatest(marks, i); }
  }

  // -------------------------------------------------- calls that overlap

  /** A call to the host under way: the retries it was granted when it asked. */
  datatype Flight = Flight(granted: nat, script: nat -> Try)

  /** The history, the calls under way, and counts of the calls that have asked, of
      those that found the circuit closed, and of the attempts made by those that
      have ended. */
  datatype Air = Air(history: seq<Event>, flights: seq<Flight>, asked: nat, closed: nat, attempts: nat)

  /** A call asks the breaker; a call ends and is recorded; another host's event. */
  datatype Act = Ask(start: real, script: nat -> Try) | End(flight: nat) | Elsewhere(event: Event)

  function Ending(f: Flight): nat {
    EndFrom(f.script, f.granted, 0)
  }

  predicate Possible(a: Air, act: Act) {
    act.End? ==> act.flight < |a.flights|
  }

  function Flown(a: Air, act: Act, host: string, s: Setting): Air
    requires Possible(a, act)
  {
    match act
    case Ask(start, script) =>
      var open := OpenBy(a.history, host, start, s.threshold, s.cooldown);
      a.(flights := a.flights + [Flight(if open then 0 else s.retries, script)],
         asked := a.asked + 1, closed := a.closed + if open then 0 else 1)
    case End(i) =>
      var f := a.flights[i];
      a.(history := a.history + Recorded(host, f.script(Ending(f))),
         flights := a.flights[..i] + a.flights[i + 1..], attempts := a.attempts + Ending(f) + 1)
    case Elsewhere(e) => a.(history := a.history + [e])
  }

  /** At most `k` calls to the host are under way at once, every one of them fails, and
      none waits out a cooldown. */
  ghost predicate Admissible(a: Air, act: Act, host: string, s: Setting, k: nat) {
    && Possible(a, act)
    && match act
       case Ask(start, _) =>
         && |a.flights| < k
         && (Streak(a.history, host) >= s.threshold ==> start - LastFailure(a.history, host) < s.cooldown)
       case End(i) => Fails(a.flights[i].script(Ending(a.flights[i])))
       case Elsewhere(e) => !Concerns(e, host)
  }

  /** Any interleaving of such acts. */
  ghost predicate Traffic(a: Air, acts: seq<Act>, host: string, s: Setting, k: nat)
    decreases |acts|
  {
    acts == []
    || (Admissible(a, acts[0], host, s, k) && Traffic(Flown(a, acts[0], host, s), acts[1..], host, s, k))
  }

  function Landed(a: Air, acts: seq<Act>, host: string, s: Setting, k: nat): Air
    requires Traffic(a, acts, host, s, k)
    decreases |acts|
  {
    if acts == [] then a else Landed(Flown(a, acts[0], host, s), acts[1..], host, s, k)
  }

  /** The attempts that the calls under way may still make. */
  function Granting(flights: seq<Flight>): nat {
    if flights == [] then 0 else flights[0].granted + 1 + Granting(flights[1..])
  }

  lemma {:induction false} GrantingSnoc(flights: seq<Flight>, f: Flight)
    ensures Granting(flights + [f]) == Granting(flights) + f.granted + 1
  {
    if flights == [] {
      assert flights + [f] == [f];
    } else {
      GrantingSnoc(flights[1..], f);
      JoinedTail(flights, [f]);
    }
  }

  lemma {:induction false} GrantingWithout(flights: seq<Flight>, i: nat)
    requires i < |flights|
    ensures Granting(flights) == Granting(flights[..i] + flights[i + 1..]) + flights[i].granted + 1
  {
    if i == 0 {
      assert flights[..0] + flights[1..] == flights[1..];
    } else {
      GrantingWithout(flights[1..], i - 1);
      assert flights[..i] + flights[i + 1..] == [flights[0]] + (flights[1..][..i - 1] + flights[1..][i..]);
    }
  }

  function Product(n: nat, retries: nat): nat {
    n * retries
  }

  /** Attempts made and granted are one a call and the retries of the closed calls. */
  predicate Paid(a: Air, retries: nat) {
    a.attempts + Granting(a.flights) <= Product(a.closed, retries) + a.asked
  }

  /** Every failure recorded is of a call that asked and is no longer under way. */
  predicate Balanced(a: Air, host: string, s: Setting, k: nat) {
    && a.asked == Streak(a.history, host) + |a.flights| && |a.flights| <= k
    && a.closed <= a.asked && a.closed <= s.threshold + k - 1
    && Paid(a, s.retries)
  }

  lemma {:induction false} AskBalanced(a: Air, start: real, script: nat -> Try, host: string, s: Setting, k: nat)
    requires Balanced(a, host, s, k) && |a.flights| < k
    requires Streak(a.history, host) >= s.threshold ==> start - LastFailure(a.history, host) < s.cooldown
    ensures Balanced(Flown(a, Ask(start, script), host, s), host, s, k)
  {
    AskPaid(a, start, script, host, s);
  }

  lemma {:induction false} AskPaid(a: Air, start: real, script: nat -> Try, host: string, s: Setting)
    requires Paid(a, s.retries)
    ensures Paid(Flown(a, Ask(start, script), host, s), s.retries)
  {
    var open := OpenBy(a.history, host, start, s.threshold, s.cooldown);
    GrantingSnoc(a.flights, Flight(if open then 0 else s.retries, script));
    OneMore(a.closed, s.retries);
  }

  lemma {:induction false} OneMore(n: nat, retries: nat)
    ensures Product(n + 1, retries) == Product(n, retries) + retries
  {}

  lemma {:induction false} EndBalanced(a: Air, i: nat, host: string, s: Setting, k: nat)
    requires Balanced(a, host, s, k) && i < |a.flights| && Fails(a.flights[i].script(Ending(a.flights[i])))
    ensures Balanced(Flown(a, End(i), host, s), host, s, k)
  {
    var f := a.flights[i];
    GrantingWithout(a.flights, i);
    AfterOne(a.history, Failed(host, f.script(Ending(f)).at), host);
  }

  lemma {:induction false} ActBalanced(a: Air, acts: seq<Act>, host: string, s: Setting, k: nat)
    requires acts != [] && Traffic(a, acts, host, s, k) && Balanced(a, host, s, k)
    ensures Balanced(Flown(a, acts[0], host, s), host, s, k)
  {
    match acts[0]
    case Ask(start, script) => AskBalanced(a, start, script, host, s, k);
    case End(i) => EndBalanced(a, i, host, s, k);
    case Elsewhere(e) => AfterOne(a.history, e, host);
  }

  lemma {:induction false} TrafficBalanced(a: Air, acts: seq<Act>, host: string, s: Setting, k: nat)
    requires Traffic(a, acts, host, s, k) && Balanced(a, host, s, k)
    ensures Balanced(Landed(a, acts, host, s, k), host, s, k)
    decreases |acts|
  {
    if acts != [] {
      ActBalanced(a, acts, host, s, k);
      TrafficBalanced(Flown(a, acts[0], host, s), acts[1..], host, s, k);
    }
  }

  /** From a clean slate, in any interleaving of at most `k` failing calls at a time,
      at most T + k - 1 calls find the circuit closed, so the ended calls have made
      at most (T + k - 1) r attempts and one for every call. */
  lemma {:induction false} TrafficBound(history: seq<Event>, acts: seq<Act>, host: string, s: Setting, k: nat)
    requires s.threshold >= 1 && k >= 1 && Streak(history, host) == 0
    requires Traffic(Air(history, [], 0, 0, 0), acts, host, s, k)
    ensures var after := Landed(Air(history, [], 0, 0, 0), acts, host, s, k);
            && after.closed <= s.threshold + k - 1
            && after.attempts <= (s.threshold + k - 1) * s.retries + after.asked
  {
    TrafficBalanced(Air(history, [], 0, 0, 0), acts, host, s, k);
    var after := Landed(Air(history, [], 0, 0, 0), acts, host, s, k);
    ScaleUp(after.closed, s.threshold + k - 1, s.retries);
  }

  lemma {:induction false} ScaleUp(a: nat, b: nat, retries: nat)
    requires a <= b
    ensures a * retries <= b * retries
  {
    assert (b - a) * retries >= 0;
  }

  // ------------------------------------------------- the bound is reached

  /** A host that is overloaded whenever it is asked. */
  function Overloaded(): nat -> Try {
    (attempt: nat) => Try(Status(503), 0.0)
  }

  function Full(s: Setting): Flight {
    Flight(s.retries, Overloaded())
  }

  lemma {:induction false} FullEnds(s: Setting)
    ensures Ending(Full(s)) == s.retries && Fails(Full(s).script(Ending(Full(s))))
  {
    AlwaysRetries(Overloaded(), s.retries, 0);
  }

  ghost predicate AllFull(flights: seq<Flight>, s: Setting) {
    forall i | 0 <= i < |flights| :: flights[i] == Full(s)
  }

  function Repeated(act: Act, n: nat): seq<Act> {
    if n == 0 then [] else [act] + Repeated(act, n - 1)
  }

  function AskAndEnd(): seq<Act> {
    [Ask(0.0, Overloaded())] + [End(0)]
  }

  /** Calls one after another, each ended before the next one asks. */
  function Turns(n: nat): seq<Act> {
    if n == 0 then [] else AskAndEnd() + Turns(n - 1)
  }

  lemma {:induction false} TrafficCons(a: Air, act: Act, acts: seq<Act>, host: string, s: Setting, k: nat)
    requires Admissible(a, act, host, s, k) && Traffic(Flown(a, act, host, s), acts, host, s, k)
    ensures Traffic(a, [act] + acts, host, s, k)
    ensures Landed(a, [act] + acts, host, s, k) == Landed(Flown(a, act, host, s), acts, host, s, k)
  {
    assert ([act] + acts)[0] == act && ([act] + acts)[1..] == acts;
  }

  lemma {:induction false} TrafficJoin(a: Air, acts: seq<Act>, more: seq<Act>, host: string, s: Setting, k: nat)
    requires Traffic(a, acts, host, s, k) && Traffic(Landed(a, acts, host, s, k), more, host, s, k)
    ensures Traffic(a, acts + more, host, s, k)
    ensures Landed(a, acts + more, host, s, k) == Landed(Landed(a, acts, host, s, k), more, host, s, k)
    decreases |acts|
  {
    if acts == [] {
      assert acts + more == more;
    } else {
      JoinedTail(acts, more);
      TrafficJoin(Flown(a, acts[0], host, s), acts[1..], more, host, s, k);
    }
  }

  lemma {:induction false} AskFull(a: Air, host: string, s: Setting, k: nat)
    requires Streak(a.history, host) < s.threshold && |a.flights| < k
    ensures Admissible(a, Ask(0.0, Overloaded()), host, s, k)
    ensures Flown(a, Ask(0.0, Overloaded()), host, s)
         == a.(flights := a.flights + [Full(s)], asked := a.asked + 1, closed := a.closed + 1)
  {}

  lemma {:induction false} EndFull(a: Air, host: string, s: Setting, k: nat)
    requires a.flights != [] && a.flights[0] == Full(s)
    ensures Admissible(a, End(0), host, s, k)
    ensures var b := Flown(a, End(0), host, s);
            && b == a.(history := b.history, flights := a.flights[1..], attempts := a.attempts + s.retries + 1)
            && Streak(b.history, host) == Streak(a.history, host) + 1
  {
    FullEnds(s);
    AfterOne(a.history, Failed(host, 0.0), host);
    assert a.flights[..0] + a.flights[1..] == a.flights[1..];
  }

  /** `n` calls have asked, found the circuit closed, and are under way. */
  ghost predicate Departed(a: Air, b: Air, n: nat, s: Setting) {
    && |b.flights| == |a.flights| + n && AllFull(b.flights, s)
    && b == a.(flights := b.flights, asked := a.asked + n, closed := a.closed + n)
  }

  lemma {:induction false} AsksReach(a: Air, n: nat, host: string, s: Setting, k: nat)
    requires Streak(a.history, host) < s.threshold && |a.flights| + n <= k && AllFull(a.flights, s)
    ensures Traffic(a, Repeated(Ask(0.0, Overloaded()), n), host, s, k)
    ensures Departed(a, Landed(a, Repeated(Ask(0.0, Overloaded()), n), host, s, k), n, s)
    decreases n
  {
    if n > 0 {
      var act := Ask(0.0, Overloaded());
      AskFull(a, host, s, k);
      AsksReach(Flown(a, act, host, s), n - 1, host, s, k);
      TrafficCons(a, act, Repeated(act, n - 1), host, s, k);
    }
  }

  /** All calls under way have ended, each with all its retries. */
  ghost predicate Arrived(a: Air, b: Air, n: nat, s: Setting) {
    b == a.(history := b.history, flights := [], attempts := a.attempts + Product(n, s.retries + 1))
  }

  lemma {:induction false} EndsReach(a: Air, n: nat, host: string, s: Setting, k: nat)
    requires |a.flights| == n && AllFull(a.flights, s)
    ensures Traffic(a, Repeated(End(0), n), host, s, k)
    ensures Arrived(a, Landed(a, Repeated(End(0), n), host, s, k), n, s)
    decreases n
  {
    if n > 0 {
      EndFull(a, host, s, k);
      EndsReach(Flown(a, End(0), host, s), n - 1, host, s, k);
      TrafficCons(a, End(0), Repeated(End(0), n - 1), host, s, k);
      OneMore(n - 1, s.retries + 1);
    }
  }

  /** `n` calls have come and gone, each with all its retries and a failure. */
  ghost predicate Turned(a: Air, b: Air, n: nat, host: string, s: Setting) {
    && Streak(b.history, host) == Streak(a.history, host) + n
    && b == a.(history := b.history, asked := a.asked + n, closed := a.closed + n,
               attempts := a.attempts + Product(n, s.retries + 1))
  }

  lemma {:induction false} TurnedMore(a: Air, b: Air, c: Air, n: nat, host: string, s: Setting)
    requires Turned(a, b, 1, host, s) && Turned(b, c, n, host, s)
    ensures Turned(a, c, n + 1, host, s)
  {
    OneMore(n, s.retries + 1);
    OneMore(0, s.retries + 1);
  }

  ghost predicate Reaches(a: Air, acts: seq<Act>, n: nat, host: string, s: Setting, k: nat) {
    Traffic(a, acts, host, s, k) && Turned(a, Landed(a, acts, host, s, k), n, host, s)
  }

  lemma {:induction false} EndsAlone(a: Air, host: string, s: Setting, k: nat)
    requires a.flights == [Full(s)]
    ensures Traffic(a, [End(0)], host, s, k)
    ensures var b := Landed(a, [End(0)], host, s, k);
            && b == a.(history := b.history, flights := [], attempts := a.attempts + s.retries + 1)
            && Streak(b.history, host) == Streak(a.history, host) + 1
  {
    EndFull(a, host, s, k);
    TrafficCons(a, End(0), [], host, s, k);
    assert [End(0)] + [] == [End(0)];
  }

  lemma {:induction false} OneTurn(a: Air, host: string, s: Setting, k: nat)
    requires a.flights == [] && k >= 1 && Streak(a.history, host) < s.threshold
    ensures Reaches(a, AskAndEnd(), 1, host, s, k)
  {
    var ask := Ask(0.0, Overloaded());
    AskFull(a, host, s, k);
    EndsAlone(Flown(a, ask, host, s), host, s, k);
    TrafficCons(a, ask, [End(0)], host, s, k);
    OneMore(0, s.retries + 1);
  }

  lemma {:induction false} ReachesMore(a: Air, first: seq<Act>, acts: seq<Act>, n: nat, host: string, s: Setting,
                                       k: nat)
    requires Reaches(a, first, 1, host, s, k) && Reaches(Landed(a, first, host, s, k), acts, n, host, s, k)
    ensures Reaches(a, first + acts, n + 1, host, s, k)
  {
    var b := Landed(a, first, host, s, k);
    TurnedMore(a, b, Landed(b, acts, host, s, k), n, host, s);
    TrafficJoin(a, first, acts, host, s, k);
  }

  lemma {:induction false} TurnsReach(a: Air, n: nat, host: string, s: Setting, k: nat)
    requires a.flights == [] && k >= 1 && Streak(a.history, host) + n <= s.threshold
    ensures Reaches(a, Turns(n), n, host, s, k)
    decreases n
  {
    if n > 0 {
      OneTurn(a, host, s, k);
      TurnsReach(Landed(a, AskAndEnd(), host, s, k), n - 1, host, s, k);
      ReachesMore(a, AskAndEnd(), Turns(n - 1), n - 1, host, s, k);
    }
  }

  lemma {:induction false} SplitProduct(m: nat, n: nat, retries: nat)
    ensures Product(m, retries + 1) + Product(n, retries + 1) == (m + n) * (retries + 1)
  {}

  /** The bound is reached: T - 1 failures in turn, then `k` calls that all ask before
      any of them ends, from a host that answers nothing but 503. */
  lemma {:induction false} TrafficBoundReached(host: string, s: Setting, k: nat)
    requires s.threshold >= 1 && k >= 1
    ensures exists acts ::
      && Traffic(Air([], [], 0, 0, 0), acts, host, s, k)
      && Landed(Air([], [], 0, 0, 0), acts, host, s, k).closed == s.threshold + k - 1
      && Landed(Air([], [], 0, 0, 0), acts, host, s, k).asked == s.threshold + k - 1
      && Landed(Air([], [], 0, 0, 0), acts, host, s, k).flights == []
      && Landed(Air([], [], 0, 0, 0), acts, host, s, k).attempts == (s.threshold + k - 1) * (s.retries + 1)
  {
    var start, turns := Air([], [], 0, 0, 0), Turns(s.threshold - 1);
    var asks, ends := Repeated(Ask(0.0, Overloaded()), k), Repeated(End(0), k);
    TurnsReach(start, s.threshold - 1, host, s, k);
    var a := Landed(start, turns, host, s, k);
    AsksReach(a, k, host, s, k);
    TrafficJoin(start, turns, asks, host, s, k);
    var b := Landed(a, asks, host, s, k);
    EndsReach(b, k, host, s, k);
    TrafficJoin(start, turns + asks, ends, host, s, k);
    SplitProduct(s.threshold - 1, k, s.retries);
  }

  /** A call that finds the circuit half open is one exploratory attempt, whatever
      the host answers, exactly when no retries are configured. */
  lemma {:induction false} ProbeIsSingleExactly(h: seq<Event>, host: string, now: real, s: Setting)
    requires !OpenBy(h, host, now, s.threshold, s.cooldown)
    ensures (forall script: nat -> Try :: CallEnd(h, Call(host, now, script), s) == 0) <==> s.retries == 0
  {
    if s.retries > 0 {
      var script: nat -> Try := k => Try(Status(503), now);
      AlwaysRetries(script, s.retries, 0);
      assert CallEnd(h, Call(host, now, script), s) == s.retries;
    }
  }

  // ------------------------------------------------------------- the back-off

  function AtMost30(x: real): real {
    if x < 30.0 then x else 30.0
  }

  /** `jitter` is the random draw, from 0 to 1. */
  function Delay(attempt: nat, retryAfter: Option<real>, jitter: real): real {
    match retryAfter
    case Some(seconds) => AtMost30(seconds + 0.5 * jitter)
    case None => AtMost30(Pow2(attempt) as real + jitter * Pow2(attempt) as real)
  }

  lemma {:induction false} Pow2Positive(k: nat)
    ensures Pow2(k) >= 1
  {
    if k > 0 { Pow2Positive(k - 1); }
  }

  lemma {:induction false} DelayBounds(attempt: nat, jitter: real)
    requires 0.0 <= jitter <= 1.0
    ensures AtMost30(Pow2(attempt) as real) <= Delay(attempt, None, jitter) <= AtMost30(Pow2(attempt + 1) as real)
  {
    Pow2Positive(attempt);
    var p := Pow2(attempt) as real;
    var extra := jitter * p;
    assert 0.0 <= extra <= p;
    assert Pow2(attempt + 1) as real == 2.0 * p;
    assert Delay(attempt, None, jitter) == AtMost30(p + extra);
  }

  /** A numeric Retry-After (section 10.2.3 of RFC 9110) is waited out, whatever
      the jitter, exactly when it asks for no more than thirty seconds. */
  lemma {:induction false} RetryAfterHonouredExactly(attempt: nat, seconds: real)
    ensures (forall jitter: real | 0.0 <= jitter <= 1.0 :: Delay(attempt, Some(seconds), jitter) >= seconds)
            <==> seconds <= 30.0
  {
    assert Delay(attempt, Some(seconds), 0.0) == AtMost30(seconds);
    if seconds <= 30.0 {
      forall jitter: real | 0.0 <= jitter <= 1.0 ensures Delay(attempt, Some(seconds), jitter) >= seconds {
        assert seconds + 0.5 * jitter >= seconds;
      }
    }
  }

  /** A header of up to 29.5 seconds is waited out with up to half a second more: the
      waits that the jitter can give are exactly those. */
  lemma {:induction false} RetryAfterSpreadExactly(attempt: nat, seconds: real, wait: real)
    requires seconds <= 29.5
    ensures (exists jitter: real | 0.0 <= jitter <= 1.0 :: Delay(attempt, Some(seconds), jitter) == wait)
            <==> seconds <= wait <= seconds + 0.5
  {
    if seconds <= wait <= seconds + 0.5 {
      assert Delay(attempt, Some(seconds), 2.0 * (wait - seconds)) == wait;
    }
  }
}
