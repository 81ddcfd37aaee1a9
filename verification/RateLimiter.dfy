/** The in-memory fixed-window rate limit (`api.py`, `_rate_limit`). */
module RateLimiter {
  import opened Common
  import opened Wrappers

  const CAPACITY: nat := 4096

  datatype Entry = Entry(ident: string, win: int, count: nat)
  datatype Hit = Hit(ident: string, win: int)

  /** The insertion-ordered dictionary. */
  type Table = seq<Entry>

  ghost predicate OnePerIdent(t: Table) {
    OnePerKey((e: Entry) => e.ident, t)
  }

  function Find(t: Table, ident: string): (r: Option<Entry>)
    ensures r.Some? ==> r.value in t && r.value.ident == ident
    ensures r.None? <==> forall e | e in t :: e.ident != ident
  {
    if t == [] then None else if t[0].ident == ident then Some(t[0]) else Find(t[1..], ident)
  }

  /** A key keeps its place when its value changes. */
  function Upsert(t: Table, e: Entry): Table {
    if t == [] then [e]
    else if t[0].ident == e.ident then [e] + t[1..]
    else [t[0]] + Upsert(t[1..], e)
  }

  function InWindow(t: Table, win: int): Table {
    if t == [] then [] else (if t[0].win == win then [t[0]] else []) + InWindow(t[1..], win)
  }

  function WithoutFirstOther(t: Table, ident: string): Table {
    if t == [] then [] else if t[0].ident != ident then t[1..] else [t[0]] + WithoutFirstOther(t[1..], ident)
  }

  function NewCount(t: Table, ident: string, win: int): nat {
    var e := Find(t, ident);
    if e.Some? && e.value.win == win then e.value.count + 1 else 1
  }

  function Trim(t: Table, ident: string, win: int): Table {
    if |t| <= CAPACITY then t
    else
      var current := InWindow(t, win);
      if |current| <= CAPACITY then current else WithoutFirstOther(current, ident)
  }

  function Step(t: Table, h: Hit): Table {
    Trim(Upsert(t, Entry(h.ident, h.win, NewCount(t, h.ident, h.win))), h.ident, h.win)
  }

  function Replay(log: seq<Hit>): Table {
    if log == [] then [] else Step(Replay(log[..|log| - 1]), log[|log| - 1])
  }

  // ---------------------------------------------------------------- tables

  lemma {:induction false} UpsertHas(t: Table, e: Entry, x: Entry)
    requires OnePerIdent(t)
    ensures x in Upsert(t, e) <==> x == e || (x in t && x.ident != e.ident)
  {
    if t != [] {
      assert t == [t[0]] + t[1..];
      if t[0].ident == e.ident {
        assert x in t[1..] ==> x.ident != e.ident;
      } else {
        UpsertHas(t[1..], e, x);
      }
    }
  }

  lemma {:induction false} UpsertOnePerIdent(t: Table, e: Entry)
    requires OnePerIdent(t)
    ensures OnePerIdent(Upsert(t, e))
  {
    if t != [] && t[0].ident != e.ident {
      UpsertOnePerIdent(t[1..], e);
      var rest := Upsert(t[1..], e);
      forall j | 0 <= j < |rest| ensures rest[j].ident != t[0].ident {
        UpsertHas(t[1..], e, rest[j]);
      }
    }
  }

  lemma {:induction false} UpsertLength(t: Table, e: Entry)
    ensures |Upsert(t, e)| <= |t| + 1
  {
    if t != [] && t[0].ident != e.ident { UpsertLength(t[1..], e); }
  }

  lemma {:induction false} FindUpsert(t: Table, e: Entry, ident: string)
    ensures Find(Upsert(t, e), ident) == if ident == e.ident then Some(e) else Find(t, ident)
  {
    if t != [] && t[0].ident != e.ident { FindUpsert(t[1..], e, ident); }
  }

  lemma {:induction false} UpsertIs(t: Table, e: Entry)
    requires OnePerIdent(t)
    ensures OnePerIdent(Upsert(t, e))
    ensures Find(Upsert(t, e), e.ident) == Some(e)
    ensures forall x | x in Upsert(t, e) :: x == e || (x in t && x.ident != e.ident)
    ensures forall x | x in t && x.ident != e.ident :: x in Upsert(t, e)
    ensures |Upsert(t, e)| <= |t| + 1
  {
    UpsertOnePerIdent(t, e);
    UpsertLength(t, e);
    FindUpsert(t, e, e.ident);
    forall x ensures x in Upsert(t, e) <==> x == e || (x in t && x.ident != e.ident) { UpsertHas(t, e, x); }
  }

  lemma {:induction false} InWindowHas(t: Table, win: int, x: Entry)
    ensures x in InWindow(t, win) <==> x in t && x.win == win
  {
    if t != [] {
      assert t == [t[0]] + t[1..];
      InWindowHas(t[1..], win, x);
    }
  }

  lemma {:induction false} InWindowOnePerIdent(t: Table, win: int)
    requires OnePerIdent(t)
    ensures OnePerIdent(InWindow(t, win)) && |InWindow(t, win)| <= |t|
  {
    if t != [] {
      InWindowOnePerIdent(t[1..], win);
      var rest := InWindow(t[1..], win);
      forall j | 0 <= j < |rest| ensures rest[j].ident != t[0].ident {
        InWindowHas(t[1..], win, rest[j]);
      }
    }
  }

  lemma {:induction false} InWindowIs(t: Table, win: int)
    requires OnePerIdent(t)
    ensures OnePerIdent(InWindow(t, win))
    ensures forall x :: x in InWindow(t, win) <==> x in t && x.win == win
    ensures |InWindow(t, win)| <= |t|
  {
    InWindowOnePerIdent(t, win);
    forall x ensures x in InWindow(t, win) <==> x in t && x.win == win { InWindowHas(t, win, x); }
  }

  lemma {:induction false} WithoutFirstOtherIs(t: Table, ident: string)
    requires OnePerIdent(t)
    ensures OnePerIdent(WithoutFirstOther(t, ident))
    ensures forall x | x in WithoutFirstOther(t, ident) :: x in t
    ensures forall x | x in t && x.ident == ident :: x in WithoutFirstOther(t, ident)
    ensures |t| > 1 ==> |WithoutFirstOther(t, ident)| == |t| - 1
  {
    if t != [] && t[0].ident == ident {
      WithoutFirstOtherIs(t[1..], ident);
      if |t| > 1 { assert WithoutFirstOther(t[1..], ident) == t[2..]; }
    }
  }

  lemma {:induction false} FindIs(t: Table, e: Entry)
    requires OnePerIdent(t) && e in t
    ensures Find(t, e.ident) == Some(e)
  {}

  lemma {:induction false} TrimIs(t: Table, e: Entry)
    requires OnePerIdent(t) && |t| <= CAPACITY + 1 && e in t
    ensures OnePerIdent(Trim(t, e.ident, e.win)) && |Trim(t, e.ident, e.win)| <= CAPACITY
    ensures e in Trim(t, e.ident, e.win)
    ensures forall x | x in Trim(t, e.ident, e.win) :: x in t
    ensures |InWindow(t, e.win)| <= CAPACITY ==> forall x | x in t && x.win == e.win :: x in Trim(t, e.ident, e.win)
  {
    if |t| > CAPACITY {
      InWindowIs(t, e.win);
      WithoutFirstOtherIs(InWindow(t, e.win), e.ident);
    }
  }

  /** The counter the last request of the log sets. */
  function Newest(log: seq<Hit>): Entry
    requires log != []
  {
    var h := log[|log| - 1];
    Entry(h.ident, h.win, NewCount(Replay(log[..|log| - 1]), h.ident, h.win))
  }

  /** The table of the last request before it is trimmed. */
  function Updated(log: seq<Hit>): Table
    requires log != []
  {
    Upsert(Replay(log[..|log| - 1]), Newest(log))
  }

  /** In every run, whatever the clock does and however many callers there are,
      the table holds at most 4096 entries, one per caller. */
  lemma {:induction false} Bounded(log: seq<Hit>)
    ensures OnePerIdent(Replay(log)) && |Replay(log)| <= CAPACITY
  {
    if log != [] { StepIs(log); }
  }

  lemma {:induction false} StepIs(log: seq<Hit>)
    requires log != []
    ensures OnePerIdent(Replay(log[..|log| - 1]))
    ensures OnePerIdent(Updated(log)) && |Updated(log)| <= CAPACITY + 1 && Newest(log) in Updated(log)
    ensures Replay(log) == Trim(Updated(log), Newest(log).ident, Newest(log).win)
    ensures OnePerIdent(Replay(log)) && |Replay(log)| <= CAPACITY && Newest(log) in Replay(log)
    decreases |log|, 1
  {
    var front := log[..|log| - 1];
    if front != [] { StepIs(front); }
    UpsertIs(Replay(front), Newest(log));
    TrimIs(Updated(log), Newest(log));
  }

  /** In every run the caller's own counter survives its call. */
  lemma {:induction false} CallerKept(log: seq<Hit>)
    requires log != []
    ensures Find(Replay(log), log[|log| - 1].ident) == Some(Newest(log))
  {
    StepIs(log);
    FindIs(Replay(log), Newest(log));
  }

  // ---------------------------------------------------- counters and truth

  /** How many of the logged requests are the caller's in that window. */
  function Requests(log: seq<Hit>, ident: string, win: int): nat {
    if log == [] then 0
    else Requests(log[..|log| - 1], ident, win) + if log[|log| - 1] == Hit(ident, win) then 1 else 0
  }

  ghost predicate ClockForward(log: seq<Hit>) {
    forall i, j | 0 <= i < j < |log| :: log[i].win <= log[j].win
  }

  function Callers(log: seq<Hit>, win: int): set<string> {
    set h | h in log && h.win == win :: h.ident
  }

  ghost predicate CallersAtMost(log: seq<Hit>, n: nat) {
    forall win | Present(log, win) :: |Callers(log, win)| <= n
  }

  /** No window has more callers than the table holds. */
  ghost predicate FewCallers(log: seq<Hit>) {
    CallersAtMost(log, CAPACITY)
  }

  ghost predicate Present(log: seq<Hit>, win: int) {
    exists h | h in log :: h.win == win
  }

  lemma {:induction false} RequestsPositive(log: seq<Hit>, ident: string, win: int)
    ensures Requests(log, ident, win) > 0 <==> Hit(ident, win) in log
  {
    if log != [] {
      RequestsPositive(log[..|log| - 1], ident, win);
      assert log == log[..|log| - 1] + [log[|log| - 1]];
    }
  }

  /** A counter never exceeds the requests it stands for, so no caller is turned
      away early: in every run, whatever the clock does. */
  lemma {:induction false} NeverOvercounts(log: seq<Hit>)
    ensures forall e | e in Replay(log) :: 1 <= e.count <= Requests(log, e.ident, e.win)
  {
    if log != [] {
      var front := log[..|log| - 1];
      NeverOvercounts(front);
      StepIs(log);
      UpsertIs(Replay(front), Newest(log));
      TrimIs(Updated(log), Newest(log));
    }
  }

  lemma {:induction false} FitsInSet(t: Table, s: set<string>)
    requires OnePerIdent(t) && forall e | e in t :: e.ident in s
    ensures |t| <= |s|
  {
    if t != [] {
      forall e | e in t[1..] ensures e.ident in s - {t[0].ident} {}
      FitsInSet(t[1..], s - {t[0].ident});
    }
  }

  lemma {:induction false} CurrentFits(log: seq<Hit>, t: Table, win: int)
    requires OnePerIdent(t) && FewCallers(log)
    requires forall e | e in t && e.win == win :: Hit(e.ident, win) in log
    ensures |InWindow(t, win)| <= CAPACITY
  {
    InWindowIs(t, win);
    if InWindow(t, win) != [] {
      assert InWindow(t, win)[0] in InWindow(t, win);
      assert Present(log, win);
      forall e | e in InWindow(t, win) ensures e.ident in Callers(log, win) {
        assert Hit(e.ident, win) in log;
      }
      FitsInSet(InWindow(t, win), Callers(log, win));
    }
  }

  lemma {:induction false} FewCallersPrefix(log: seq<Hit>)
    requires log != [] && FewCallers(log) && ClockForward(log)
    ensures FewCallers(log[..|log| - 1]) && ClockForward(log[..|log| - 1])
  {
    var front := log[..|log| - 1];
    forall win | Present(front, win) ensures |Callers(front, win)| <= CAPACITY {
      assert forall h | h in front :: h in log;
      assert Callers(front, win) <= Callers(log, win);
      assert Present(log, win);
      SubsetSize(Callers(front, win), Callers(log, win));
    }
  }

  lemma {:induction false} SameWindowBefore(log: seq<Hit>, ident: string)
    requires log != [] && ClockForward(log)
    requires Hit(ident, log[|log| - 1].win) in log[..|log| - 1]
    ensures |log| > 1 && log[|log| - 2].win == log[|log| - 1].win
  {
    var win := log[|log| - 1].win;
    var i :| 0 <= i < |log| - 1 && log[..|log| - 1][i] == Hit(ident, win);
    assert log[i].win == win;
    assert i < |log| - 2 ==> log[i].win <= log[|log| - 2].win;
    assert log[|log| - 2].win <= log[|log| - 1].win;
  }

  lemma {:induction false} UpsertedFrom(t: Table, e: Entry, y: Entry)
    requires OnePerIdent(t) && y in Upsert(t, e)
    ensures y == e || y in t
  {
    UpsertIs(t, e);
  }

  lemma {:induction false} UpdatedLogged(log: seq<Hit>, y: Entry)
    requires log != [] && y in Updated(log) && y.win == log[|log| - 1].win
    ensures Hit(y.ident, y.win) in log
  {
    var front := log[..|log| - 1];
    Bounded(front);
    UpsertedFrom(Replay(front), Newest(log), y);
    assert log == front + [log[|log| - 1]];
    if y != Newest(log) {
      NeverOvercounts(front);
      RequestsPositive(front, y.ident, y.win);
    }
  }

  /** While the callers fit, a step keeps every counter of the newest window. */
  lemma {:induction false} StepKeepsCurrent(log: seq<Hit>, x: Entry)
    requires log != [] && FewCallers(log)
    requires x in Replay(log[..|log| - 1]) && x.win == log[|log| - 1].win && x.ident != log[|log| - 1].ident
    ensures Find(Replay(log), x.ident) == Some(x)
  {
    StepIs(log);
    UpsertIs(Replay(log[..|log| - 1]), Newest(log));
    var t, win := Updated(log), log[|log| - 1].win;
    forall y | y in t && y.win == win ensures Hit(y.ident, win) in log { UpdatedLogged(log, y); }
    CurrentFits(log, t, win);
    TrimIs(t, Newest(log));
    FindIs(Replay(log), x);
  }

  /** With at most 4096 callers in a window and a clock that does not step back,
      every counter of the newest window is the true number of requests. */
  lemma {:induction false} ExactCounters(log: seq<Hit>, ident: string)
    requires log != [] && ClockForward(log) && FewCallers(log)
    requires Hit(ident, log[|log| - 1].win) in log
    ensures Find(Replay(log), ident)
         == Some(Entry(ident, log[|log| - 1].win, Requests(log, ident, log[|log| - 1].win)))
    decreases |log|, 1
  {
    var h, front := log[|log| - 1], log[..|log| - 1];
    FewCallersPrefix(log);
    assert log == front + [h];
    if ident == h.ident {
      NewCountExact(log);
      CallerKept(log);
    } else {
      assert Hit(ident, h.win) in front;
      SameWindowBefore(log, ident);
      ExactCounters(front, ident);
      StepKeepsCurrent(log, Entry(ident, h.win, Requests(front, ident, h.win)));
    }
  }

  lemma {:induction false} NewCountExact(log: seq<Hit>)
    requires log != [] && ClockForward(log) && FewCallers(log)
    ensures var h := log[|log| - 1];
            NewCount(Replay(log[..|log| - 1]), h.ident, h.win) == Requests(log, h.ident, h.win)
    decreases |log|, 0
  {
    var h, front := log[|log| - 1], log[..|log| - 1];
    FewCallersPrefix(log);
    NeverOvercounts(front);
    RequestsPositive(front, h.ident, h.win);
    if Hit(h.ident, h.win) in front {
      SameWindowBefore(log, h.ident);
      ExactCounters(front, h.ident);
    }
  }

  // ------------------------------------------------------------ admissions

  /** Whether the last request of the log is let through. */
  function Allowed(log: seq<Hit>, limit: int): bool
    requires log != []
  {
    NewCount(Replay(log[..|log| - 1]), log[|log| - 1].ident, log[|log| - 1].win) <= limit
  }

  function Admitted(log: seq<Hit>, limit: int, ident: string, win: int): nat {
    if log == [] then 0
    else Admitted(log[..|log| - 1], limit, ident, win)
         + if log[|log| - 1] == Hit(ident, win) && Allowed(log, limit) then 1 else 0
  }

  /** Exactly the first `limit` requests of each caller in each window pass. */
  lemma {:induction false} AdmitsExactly(log: seq<Hit>, limit: nat, ident: string, win: int)
    requires ClockForward(log) && FewCallers(log)
    ensures Admitted(log, limit, ident, win) == Min(Requests(log, ident, win), limit)
  {
    if log != [] {
      FewCallersPrefix(log);
      AdmitsExactly(log[..|log| - 1], limit, ident, win);
      NewCountExact(log);
    }
  }

  /** In every run at all, no caller gets less than the limit allows. */
  lemma {:induction false} NeverAdmitsLess(log: seq<Hit>, limit: nat, ident: string, win: int)
    ensures Admitted(log, limit, ident, win) >= Min(Requests(log, ident, win), limit)
  {
    if log != [] {
      NeverAdmitsLess(log[..|log| - 1], limit, ident, win);
      if log[|log| - 1] == Hit(ident, win) {
        CallerKept(log);
        NeverOvercounts(log);
      }
    }
  }

  lemma {:induction false} LogSnoc(log: seq<Hit>, h: Hit, limit: int, ident: string, win: int)
    ensures Replay(log + [h]) == Step(Replay(log), h)
    ensures Requests(log + [h], ident, win) == Requests(log, ident, win) + if h == Hit(ident, win) then 1 else 0
    ensures Admitted(log + [h], limit, ident, win) == Admitted(log, limit, ident, win)
      + if h == Hit(ident, win) && NewCount(Replay(log), h.ident, h.win) <= limit then 1 else 0
  {
    assert (log + [h])[..|log|] == log;
  }

  /** Exactness needs a clock that does not step back: a caller seen in window 1,
      then 2, then 1 again gets a second request past a limit of one. */
  lemma {:induction false} ClockBackAdmitsMore()
    ensures var log := [Hit("a", 1)] + [Hit("a", 2)] + [Hit("a", 1)];
            FewCallers(log) && Requests(log, "a", 1) == 2 && Admitted(log, 1, "a", 1) == 2
  {
    LogSnoc([], Hit("a", 1), 1, "a", 1);
    assert [] + [Hit("a", 1)] == [Hit("a", 1)];
    LogSnoc([Hit("a", 1)], Hit("a", 2), 1, "a", 1);
    LogSnoc([Hit("a", 1)] + [Hit("a", 2)], Hit("a", 1), 1, "a", 1);
    var log := [Hit("a", 1)] + [Hit("a", 2)] + [Hit("a", 1)];
    forall win ensures |Callers(log, win)| <= CAPACITY {
      assert Callers(log, win) <= {"a"};
      SubsetSize(Callers(log, win), {"a"});
    }
  }

  // ------------------------------------- which steps of the clock do any harm

  /** Every caller gets exactly its limit in every window. */
  ghost predicate Exact(log: seq<Hit>) {
    forall limit: nat, ident, win :: Admitted(log, limit, ident, win) == Min(Requests(log, ident, win), limit)
  }

  function Idents(log: seq<Hit>): set<string> {
    set h | h in log :: h.ident
  }

  /** While all callers fit the table, nothing is ever trimmed. */
  lemma {:induction false} NothingTrimmed(log: seq<Hit>)
    requires log != [] && |Idents(log)| <= CAPACITY
    ensures Replay(log) == Updated(log)
  {
    StepIs(log);
    NeverOvercounts(log[..|log| - 1]);
    forall e | e in Updated(log) ensures e.ident in Idents(log) {
      var front := log[..|log| - 1];
      assert log == front + [log[|log| - 1]];
      UpsertHas(Replay(front), Newest(log), e);
      if e != Newest(log) { RequestsPositive(front, e.ident, e.win); }
      assert Hit(e.ident, e.win) in log;
    }
    FitsInSet(Updated(log), Idents(log));
  }

  lemma {:induction false} IdentsPrefix(log: seq<Hit>)
    requires log != [] && |Idents(log)| <= CAPACITY
    ensures |Idents(log[..|log| - 1])| <= CAPACITY
  {
    var front := log[..|log| - 1];
    assert forall h | h in front :: h in log;
    SubsetSize(Idents(front), Idents(log));
  }

  /** The counter after a request, from the counter before it. */
  function Bumped(before: Option<Entry>, h: Hit): Entry {
    if before.Some? && before.value.win == h.win then Entry(h.ident, h.win, before.value.count + 1)
    else Entry(h.ident, h.win, 1)
  }

  /** The caller's latest requests that fell into one window without a break. */
  function Trailing(log: seq<Hit>, ident: string): Option<Entry> {
    if log == [] then None
    else
      var h, before := log[|log| - 1], Trailing(log[..|log| - 1], ident);
      if h.ident != ident then before else Some(Bumped(before, h))
  }

  lemma {:induction false} FindNext(log: seq<Hit>, ident: string)
    requires log != [] && |Idents(log)| <= CAPACITY
    ensures Find(Replay(log), ident)
         == if ident == log[|log| - 1].ident then Some(Newest(log)) else Find(Replay(log[..|log| - 1]), ident)
  {
    NothingTrimmed(log);
    FindUpsert(Replay(log[..|log| - 1]), Newest(log), ident);
  }

  lemma {:induction false} NewestIsBumped(log: seq<Hit>)
    requires log != []
    ensures Newest(log) == Bumped(Find(Replay(log[..|log| - 1]), log[|log| - 1].ident), log[|log| - 1])
  {}

  lemma {:induction false} FindsTrailing(log: seq<Hit>, ident: string)
    requires |Idents(log)| <= CAPACITY
    ensures Find(Replay(log), ident) == Trailing(log, ident)
  {
    if log != [] {
      var front, h := log[..|log| - 1], log[|log| - 1];
      IdentsPrefix(log);
      FindsTrailing(front, ident);
      FindNext(log, ident);
      NewestIsBumped(log);
    }
  }

  /** Request `j` is the caller's last, if there is one. */
  ghost predicate LastOf(log: seq<Hit>, ident: string, j: nat) {
    && j < |log| && log[j].ident == ident
    && forall l | j < l < |log| :: log[l].ident != ident
  }

  lemma {:induction false} TrailingIsLast(log: seq<Hit>, ident: string) returns (j: nat)
    ensures Trailing(log, ident).None? ==> forall l | 0 <= l < |log| :: log[l].ident != ident
    ensures Trailing(log, ident).Some? ==> LastOf(log, ident, j) && log[j].win == Trailing(log, ident).value.win
  {
    j := 0;
    if log != [] {
      var front := log[..|log| - 1];
      assert forall l | 0 <= l < |front| :: front[l] == log[l];
      j := TrailingIsLast(front, ident);
      if log[|front|].ident == ident { j := |front|; }
    }
  }

  /** The caller is seen in the window, then in another, then in the window again. */
  predicate ReturnAt(log: seq<Hit>, i: nat, j: nat, k: nat) {
    && i < j < k < |log| && log[i].ident == log[j].ident == log[k].ident
    && log[i].win == log[k].win != log[j].win
  }

  ghost predicate Returns(log: seq<Hit>) {
    exists i: nat, j: nat, k: nat :: ReturnAt(log, i, j, k)
  }

  lemma {:induction false} ReturnsPrefix(log: seq<Hit>)
    requires log != [] && Returns(log[..|log| - 1])
    ensures Returns(log)
  {
    var i: nat, j: nat, k: nat :| ReturnAt(log[..|log| - 1], i, j, k);
    assert ReturnAt(log, i, j, k);
  }

  lemma {:induction false} RequestsZero(log: seq<Hit>, ident: string, win: int)
    requires forall i | 0 <= i < |log| :: log[i] != Hit(ident, win)
    ensures Requests(log, ident, win) == 0
  {
    RequestsPositive(log, ident, win);
  }

  /** A caller that leaves a window has not been in the one it enters. */
  lemma {:induction false} EntersNew(log: seq<Hit>)
    requires log != [] && !Returns(log)
    requires var before := Trailing(log[..|log| - 1], log[|log| - 1].ident);
             before.None? || before.value.win != log[|log| - 1].win
    ensures Requests(log[..|log| - 1], log[|log| - 1].ident, log[|log| - 1].win) == 0
  {
    var front, h := log[..|log| - 1], log[|log| - 1];
    var j := TrailingIsLast(front, h.ident);
    forall i | 0 <= i < |front| ensures front[i] != h {
      assert !ReturnAt(log, i, j, |front|);
      assert front[i] == log[i] && front[i].ident == h.ident ==> i <= j;
    }
    RequestsZero(front, h.ident, h.win);
  }

  /** Without a return the caller's counter is the number of its requests. */
  lemma {:induction false} TrailingCounts(log: seq<Hit>, ident: string)
    requires !Returns(log)
    ensures Trailing(log, ident).Some? ==>
              Trailing(log, ident).value.count == Requests(log, ident, Trailing(log, ident).value.win)
  {
    if log != [] {
      var front, h := log[..|log| - 1], log[|log| - 1];
      if Returns(front) { ReturnsPrefix(log); }
      TrailingCounts(front, ident);
      var before := Trailing(front, h.ident);
      if h.ident == ident && (before.None? || before.value.win != h.win) { EntersNew(log); }
    }
  }

  lemma {:induction false} ExactWithoutReturn(log: seq<Hit>, limit: nat, ident: string, win: int)
    requires |Idents(log)| <= CAPACITY && !Returns(log)
    ensures Admitted(log, limit, ident, win) == Min(Requests(log, ident, win), limit)
  {
    if log != [] {
      var front, h := log[..|log| - 1], log[|log| - 1];
      IdentsPrefix(log);
      if Returns(front) { ReturnsPrefix(log); }
      ExactWithoutReturn(front, limit, ident, win);
      FindsTrailing(front, h.ident);
      TrailingCounts(front, h.ident);
      var before := Trailing(front, h.ident);
      if before.None? || before.value.win != h.win { EntersNew(log); }
    }
  }

  /** The request of a return is let through however low the limit. */
  lemma {:induction false} ReturnIsAdmitted(log: seq<Hit>, i: nat, j: nat)
    requires log != [] && |Idents(log)| <= CAPACITY && !Returns(log[..|log| - 1])
    requires ReturnAt(log, i, j, |log| - 1)
    ensures Allowed(log, 1) && Requests(log[..|log| - 1], log[i].ident, log[i].win) > 0
  {
    var front, h := log[..|log| - 1], log[|log| - 1];
    IdentsPrefix(log);
    FindsTrailing(front, h.ident);
    assert front[i] == h && front[i] in front && front[j].ident == h.ident;
    RequestsPositive(front, h.ident, h.win);
    var l := TrailingIsLast(front, h.ident);
    assert j <= l;
    assert !ReturnAt(front, i, j, l);
  }

  lemma {:induction false} ReturnBreaksLimit(log: seq<Hit>) returns (ident: string, win: int)
    requires |Idents(log)| <= CAPACITY && Returns(log)
    ensures Admitted(log, 1, ident, win) >= 2
    decreases |log|
  {
    var i: nat, j: nat, k: nat :| ReturnAt(log, i, j, k);
    var front := log[..|log| - 1];
    IdentsPrefix(log);
    if Returns(front) {
      ident, win := ReturnBreaksLimit(front);
    } else {
      if k < |front| { assert ReturnAt(front, i, j, k); }
      ident, win := log[i].ident, log[i].win;
      ReturnIsAdmitted(log, i, j);
      NeverAdmitsLess(front, 1, ident, win);
    }
  }

  /** While all callers fit the table, the limit is exact for every limit, caller
      and window if and only if no caller returns to a window it had left: a clock
      that steps back does no harm otherwise. */
  lemma {:induction false} ExactUnlessReturning(log: seq<Hit>)
    requires |Idents(log)| <= CAPACITY
    ensures Exact(log) <==> !Returns(log)
  {
    if Returns(log) {
      var ident, win := ReturnBreaksLimit(log);
      assert Admitted(log, 1, ident, win) != Min(Requests(log, ident, win), 1);
    } else {
      forall limit: nat, ident, win
        ensures Admitted(log, limit, ident, win) == Min(Requests(log, ident, win), limit)
      {
        ExactWithoutReturn(log, limit, ident, win);
      }
    }
  }

  /** A clock that only moves forward brings no caller back. */
  lemma {:induction false} ForwardNeverReturns(log: seq<Hit>)
    requires ClockForward(log)
    ensures !Returns(log)
  {
    forall i: nat, j: nat, k: nat | i < j < k < |log| ensures !ReturnAt(log, i, j, k) {
      assert log[i].win <= log[j].win <= log[k].win;
    }
  }

  // ---------------------------------------- one caller more than the table holds

  function Name(k: nat): (name: string)
    ensures |name| == k
  {
    seq(k, _ => 'c')
  }

  /** One request each by the callers 0 to `k - 1`, all in window 0. */
  function Crowd(k: nat): seq<Hit> {
    if k == 0 then [] else Crowd(k - 1) + [Hit(Name(k - 1), 0)]
  }

  function CrowdTable(k: nat): Table {
    if k == 0 then [] else CrowdTable(k - 1) + [Entry(Name(k - 1), 0, 1)]
  }

  lemma {:induction false} CrowdTableIs(k: nat)
    ensures |CrowdTable(k)| == k
    ensures forall i | 0 <= i < k :: CrowdTable(k)[i] == Entry(Name(i), 0, 1)
  {
    if k > 0 { CrowdTableIs(k - 1); }
  }

  lemma {:induction false} UpsertNew(t: Table, e: Entry)
    requires forall x | x in t :: x.ident != e.ident
    ensures Upsert(t, e) == t + [e]
  {
    if t != [] { UpsertNew(t[1..], e); }
  }

  lemma {:induction false} AllInWindow(t: Table, win: int)
    requires forall x | x in t :: x.win == win
    ensures InWindow(t, win) == t
  {
    if t != [] { AllInWindow(t[1..], win); }
  }

  lemma {:induction false} CrowdStep(k: nat)
    ensures Upsert(CrowdTable(k), Entry(Name(k), 0, NewCount(CrowdTable(k), Name(k), 0))) == CrowdTable(k + 1)
  {
    CrowdTableIs(k);
    forall x | x in CrowdTable(k) ensures x.ident != Name(k) {
      var i :| 0 <= i < k && CrowdTable(k)[i] == x;
      assert |x.ident| == i;
    }
    UpsertNew(CrowdTable(k), Entry(Name(k), 0, 1));
  }

  lemma {:induction false} ReplayNext(log: seq<Hit>, h: Hit)
    ensures Replay(log + [h])
         == Trim(Upsert(Replay(log), Entry(h.ident, h.win, NewCount(Replay(log), h.ident, h.win))), h.ident, h.win)
  {
    assert (log + [h])[..|log|] == log;
  }

  lemma {:induction false} CrowdNext(k: nat)
    requires Replay(Crowd(k)) == CrowdTable(k)
    ensures Replay(Crowd(k + 1)) == Trim(CrowdTable(k + 1), Name(k), 0)
  {
    ReplayNext(Crowd(k), Hit(Name(k), 0));
    CrowdStep(k);
  }

  lemma {:induction false} CrowdReplay(k: nat)
    requires k <= CAPACITY
    ensures Replay(Crowd(k)) == CrowdTable(k)
  {
    if k > 0 {
      CrowdReplay(k - 1);
      CrowdNext(k - 1);
      CrowdTableIs(k);
    }
  }

  lemma {:induction false} NotFoundIsOne(t: Table, ident: string, win: int)
    requires forall x | x in t :: x.ident != ident
    ensures NewCount(t, ident, win) == 1
  {}

  lemma {:induction false} CrowdWithoutFirst(k: nat)
    requires k >= 2
    ensures InWindow(CrowdTable(k), 0) == CrowdTable(k)
    ensures WithoutFirstOther(CrowdTable(k), Name(k - 1)) == CrowdTable(k)[1..]
    ensures forall x | x in CrowdTable(k)[1..] :: x.ident != Name(0)
  {
    CrowdTableIs(k);
    var t := CrowdTable(k);
    AllInWindow(t, 0);
    assert t[0].ident == Name(0) && |Name(0)| != |Name(k - 1)|;
    forall x | x in t[1..] ensures x.ident != Name(0) {
      var i :| 1 <= i < k && t[i] == x;
      assert |x.ident| == i;
    }
  }

  /** The newest caller over capacity pushes out the oldest counter. */
  lemma {:induction false} CrowdOverflow()
    ensures Replay(Crowd(CAPACITY + 1)) == CrowdTable(CAPACITY + 1)[1..]
    ensures NewCount(Replay(Crowd(CAPACITY + 1)), Name(0), 0) == 1
  {
    CrowdReplay(CAPACITY);
    CrowdNext(CAPACITY);
    CrowdTableIs(CAPACITY + 1);
    CrowdWithoutFirst(CAPACITY + 1);
    NotFoundIsOne(CrowdTable(CAPACITY + 1)[1..], Name(0), 0);
  }

  lemma {:induction false} CrowdAdmitted(k: nat)
    requires 1 <= k <= CAPACITY + 1
    ensures Admitted(Crowd(k), 1, Name(0), 0) == 1
    ensures Requests(Crowd(k), Name(0), 0) == 1
  {
    LogSnoc(Crowd(k - 1), Hit(Name(k - 1), 0), 1, Name(0), 0);
    if k > 1 {
      CrowdAdmitted(k - 1);
      assert |Name(k - 1)| == k - 1 && Name(k - 1) != Name(0);
    }
  }

  lemma {:induction false} CrowdIs(k: nat)
    ensures |Crowd(k)| == k && forall i | 0 <= i < k :: Crowd(k)[i] == Hit(Name(i), 0)
  {
    if k > 0 { CrowdIs(k - 1); }
  }

  lemma {:induction false} CallersSnoc(log: seq<Hit>, h: Hit)
    ensures Callers(log + [h], h.win) == Callers(log, h.win) + {h.ident}
  {
    assert forall x :: x in log + [h] <==> x in log || x == h;
  }

  lemma {:induction false} NewInCrowd(k: nat)
    ensures Name(k) !in Callers(Crowd(k), 0)
  {
    CrowdIs(k);
    forall h | h in Crowd(k) ensures h.ident != Name(k) {
      var i :| 0 <= i < k && Crowd(k)[i] == h;
      assert |h.ident| == i;
    }
  }

  lemma {:induction false} CrowdCallers(k: nat)
    ensures |Callers(Crowd(k), 0)| == k
  {
    if k > 0 {
      CrowdCallers(k - 1);
      NewInCrowd(k - 1);
      CallersSnoc(Crowd(k - 1), Hit(Name(k - 1), 0));
    }
  }

  /** The callers 0 to 4096, each once, and then caller 0 again. */
  function Overfull(): seq<Hit> {
    Crowd(CAPACITY + 1) + [Hit(Name(0), 0)]
  }

  lemma {:induction false} OverfullIs()
    ensures ClockForward(Overfull()) && CallersAtMost(Overfull(), CAPACITY + 1)
    ensures |Callers(Overfull(), 0)| == CAPACITY + 1
  {
    var crowd, log := Crowd(CAPACITY + 1), Overfull();
    CrowdIs(CAPACITY + 1);
    CrowdCallers(CAPACITY + 1);
    assert forall i | 0 <= i < |log| :: log[i].win == 0;
    assert crowd[0] == Hit(Name(0), 0) && crowd[0] in crowd;
    assert forall h :: h in log <==> h in crowd;
    assert Callers(log, 0) == Callers(crowd, 0);
    forall win | Present(log, win) ensures |Callers(log, win)| <= CAPACITY + 1 {
      assert win == 0;
    }
  }

  /** The bound on callers is tight: with 4097 of them in one window and a clock
      that stands still the first gets a second request past a limit of one. */
  lemma {:induction false} CapacityIsTight()
    ensures ClockForward(Overfull()) && |Callers(Overfull(), 0)| == CAPACITY + 1
    ensures Requests(Overfull(), Name(0), 0) == 2 && Admitted(Overfull(), 1, Name(0), 0) == 2
  {
    OverfullIs();
    LogSnoc(Crowd(CAPACITY + 1), Hit(Name(0), 0), 1, Name(0), 0);
    CrowdOverflow();
    CrowdAdmitted(CAPACITY + 1);
  }

  /** With a clock that does not step back, the limit is exact in every run of at
      most `n` callers a window if and only if the table can hold `n`. */
  lemma {:induction false} ExactForCallersExactly(n: nat)
    ensures (forall log | ClockForward(log) && CallersAtMost(log, n) :: Exact(log)) <==> n <= CAPACITY
  {
    if n <= CAPACITY {
      forall log | ClockForward(log) && CallersAtMost(log, n) ensures Exact(log) {
        forall limit: nat, ident, win
          ensures Admitted(log, limit, ident, win) == Min(Requests(log, ident, win), limit)
        {
          AdmitsExactly(log, limit, ident, win);
        }
      }
    } else {
      OverfullIs();
      CapacityIsTight();
      assert CallersAtMost(Overfull(), n);
      assert Admitted(Overfull(), 1, Name(0), 0) != Min(Requests(Overfull(), Name(0), 0), 1);
      assert !Exact(Overfull());
    }
  }

  // -------------------------------------------------------- the limiter itself

  lemma {:induction false} Grown(log: seq<Hit>, h: Hit)
    ensures var t := Upsert(Replay(log), Entry(h.ident, h.win, NewCount(Replay(log), h.ident, h.win)));
            OnePerIdent(t) && |t| <= CAPACITY + 1 && Replay(log + [h]) == Trim(t, h.ident, h.win)
    ensures forall limit :: Allowed(log + [h], limit) <==> NewCount(Replay(log), h.ident, h.win) <= limit
  {
    assert (log + [h])[..|log|] == log;
    StepIs(log + [h]);
  }

  class Limiter {
    const limit: int
    var hits: Table
    ghost var log: seq<Hit>

    ghost predicate Valid()
      reads this
    {
      hits == Replay(log)
    }

    constructor (limit: int)
      ensures Valid() && log == [] && this.limit == limit
    {
      this.limit := limit;
      hits, log := [], [];
    }

    /** One request; `allowed` false stands for the 429 response. */
    method RateLimit(ident: string, win: int) returns (allowed: bool)
      requires Valid()
      modifies this
      ensures Valid()
      ensures limit <= 0 ==> allowed && log == old(log)
      ensures limit > 0 ==> log == old(log) + [Hit(ident, win)] && allowed == Allowed(log, limit)
    {
      if limit <= 0 { return true; }
      var found := Find(hits, ident);
      var c := if found.Some? && found.value.win == win then found.value.count + 1 else 1;
      ghost var next := log + [Hit(ident, win)];
      Grown(log, Hit(ident, win));
      hits := Trimmed(Upsert(hits, Entry(ident, win, c)), ident, win);
      log := next;
      allowed := c <= limit;
    }
  }

  method Trimmed(t: Table, ident: string, win: int) returns (r: Table)
    requires OnePerIdent(t) && |t| <= CAPACITY + 1
    ensures r == Trim(t, ident, win)
  {
    r := t;
    if |r| > CAPACITY {
      InWindowIs(t, win);
      r := DropStale(r, win);
      if |r| > CAPACITY { r := EvictOther(r, ident); }
    }
  }

  /** Pruning works part by part and keeps the order; an entry stays if it is current. */
  lemma {:induction false} InWindowJoin(a: Table, b: Table, win: int)
    ensures InWindow(a + b, win) == InWindow(a, win) + InWindow(b, win)
    ensures forall e :: InWindow([e], win) == if e.win == win then [e] else []
  {
    if a == [] {
      assert a + b == b;
    } else {
      InWindowJoin(a[1..], b, win);
      JoinedTail(a, b);
      Assoc(if a[0].win == win then [a[0]] else [], InWindow(a[1..], win), InWindow(b, win));
    }
  }

  method DropStale(t: Table, win: int) returns (r: Table)
    ensures r == InWindow(t, win)
  {
    r := [];
    for i := 0 to |t|
      invariant r + InWindow(t[i..], win) == InWindow(t, win)
    {
      assert t[i..][1..] == t[i + 1..];
      if t[i].win == win { r := r + [t[i]]; }
    }
  }

  lemma {:induction false} FirstOtherAt(t: Table, ident: string, i: nat)
    requires i <= |t| && forall j | 0 <= j < i :: t[j].ident == ident
    ensures i < |t| && t[i].ident != ident ==> WithoutFirstOther(t, ident) == t[..i] + t[i + 1..]
    ensures i == |t| ==> WithoutFirstOther(t, ident) == t
  {
    if i > 0 {
      FirstOtherAt(t[1..], ident, i - 1);
      assert i < |t| ==> t[..i] + t[i + 1..] == [t[0]] + (t[1..][..i - 1] + t[1..][i..]);
    }
  }

  /** Deletes other callers, oldest first, until the table fits again. */
  method EvictOther(t: Table, ident: string) returns (r: Table)
    requires OnePerIdent(t) && |t| == CAPACITY + 1
    ensures r == WithoutFirstOther(t, ident)
    ensures exists i | 0 <= i < |t| ::
              t[i].ident != ident && (forall j | 0 <= j < i :: t[j].ident == ident) && r == t[..i] + t[i + 1..]
  {
    r := t;
    assert t[0].ident != t[1].ident;
    for i := 0 to |t|
      invariant r == t
      invariant forall j | 0 <= j < i :: t[j].ident == ident
    {
      if t[i].ident != ident {
        FirstOtherAt(t, ident, i);
        r := t[..i] + t[i + 1..];
      }
      if |r| <= CAPACITY {
        return;
      }
    }
    assert false;
  }
}
