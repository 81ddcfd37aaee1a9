/** Spacing requests to one host (`silk_data_layer.py`, `_throttle`). */
module Throttle {
  import opened Common

  function AtMost5(x: real): real {
    if x < 5.0 then x else 5.0
  }

  datatype Slot = Slot(host: string, at: real)

  function LastSlot(slots: seq<Slot>, host: string): real {
    if slots == [] then 0.0
    else if slots[|slots| - 1].host == host then slots[|slots| - 1].at
    else LastSlot(slots[..|slots| - 1], host)
  }

  /** The slot a caller gets who holds the lock at time `at`. */
  function NextSlot(slots: seq<Slot>, host: string, gap: real, at: real): real {
    Larger(at, LastSlot(slots, host) + gap)
  }

  /** Any two slots of one host are at least its gap apart. */
  ghost predicate Spaced(slots: seq<Slot>, gap: string -> real) {
    forall i, j | 0 <= i < j < |slots| && slots[i].host == slots[j].host ::
      slots[j].at - slots[i].at >= gap(slots[i].host)
  }

  lemma {:induction false} LastIsLatest(slots: seq<Slot>, gap: string -> real, i: nat)
    requires Spaced(slots, gap) && i < |slots| && gap(slots[i].host) > 0.0
    ensures slots[i].at <= LastSlot(slots, slots[i].host)
  {
    var last, front := slots[|slots| - 1], slots[..|slots| - 1];
    if i < |front| && last.host != slots[i].host {
      assert forall k | 0 <= k < |front| :: front[k] == slots[k];
      LastIsLatest(front, gap, i);
    }
  }

  lemma {:induction false} SpacedSnoc(slots: seq<Slot>, gap: string -> real, host: string, at: real)
    requires Spaced(slots, gap) && gap(host) > 0.0
    ensures Spaced(slots + [Slot(host, NextSlot(slots, host, gap(host), at))], gap)
  {
    forall i | 0 <= i < |slots| && slots[i].host == host
      ensures NextSlot(slots, host, gap(host), at) - slots[i].at >= gap(host)
    {
      LastIsLatest(slots, gap, i);
    }
  }

  function LastHit(lastHit: map<string, real>, host: string): real {
    if host in lastHit then lastHit[host] else 0.0
  }

  lemma {:induction false} LastSlotSnoc(slots: seq<Slot>, slot: Slot, host: string)
    ensures LastSlot(slots + [slot], host) == if slot.host == host then slot.at else LastSlot(slots, host)
  {
    assert (slots + [slot])[..|slots|] == slots;
  }

  /** The table holds the last slot of every host. */
  ghost predicate Remembers(lastHit: map<string, real>, slots: seq<Slot>) {
    forall host: string :: LastHit(lastHit, host) == LastSlot(slots, host)
  }

  lemma {:induction false} RemembersNext(lastHit: map<string, real>, slots: seq<Slot>, slot: Slot)
    requires Remembers(lastHit, slots)
    ensures Remembers(lastHit[slot.host := slot.at], slots + [slot])
  {
    forall host: string ensures LastHit(lastHit[slot.host := slot.at], host) == LastSlot(slots + [slot], host) {
      LastSlotSnoc(slots, slot, host);
      assert LastHit(lastHit, host) == LastSlot(slots, host);
    }
  }

  /** The shared table of last slots. One call of `Reserve` is one passage through
      the lock, so a sequence of calls is any interleaving of the callers. */
  class Throttle {
    const gap: string -> real
    var lastHit: map<string, real>
    ghost var slots: seq<Slot>

    ghost predicate Valid()
      reads this
    {
      Spaced(slots, gap) && Remembers(lastHit, slots)
    }

    constructor (gap: string -> real)
      ensures Valid() && slots == [] && this.gap == gap
    {
      this.gap := gap;
      lastHit, slots := map[], [];
    }

    /** Clock readings: `before` for the wait, then `at` for the slot. */
    method Reserve(host: string, before: real, at: real) returns (wait: real)
      requires Valid() && before <= at
      modifies this
      ensures Valid()
      ensures gap(host) <= 0.0 ==> wait == 0.0 && slots == old(slots)
      ensures gap(host) > 0.0 ==>
        && slots == old(slots) + [Slot(host, NextSlot(old(slots), host, gap(host), at))]
        && wait == LastSlot(old(slots), host) + gap(host) - before
    {
      if gap(host) <= 0.0 {
        wait := 0.0;
        return;
      }
      var last := LastHit(lastHit, host);
      assert last == LastSlot(slots, host);
      wait := last + gap(host) - before;
      SpacedSnoc(slots, gap, host, at);
      ghost var slot := Slot(host, NextSlot(slots, host, gap(host), at));
      RemembersNext(lastHit, slots, slot);
      lastHit := lastHit[host := Larger(at, last + gap(host))];
      slots := slots + [slot];
    }
  }

  /** When a caller goes on who starts to sleep at `asleep`. */
  function Released(asleep: real, wait: real): real {
    if wait > 0.0 then asleep + AtMost5(wait) else asleep
  }

  /** No caller whose wait is within the five-second cut goes on before its slot. */
  lemma {:induction false} ReleasedInSlot(slots: seq<Slot>, host: string, gap: real, before: real, at: real,
                                          asleep: real)
    requires before <= at <= asleep
    requires LastSlot(slots, host) + gap - before <= 5.0
    ensures Released(asleep, LastSlot(slots, host) + gap - before) >= NextSlot(slots, host, gap, at)
  {}

  /** With no delay between the clock readings and the sleep, the cut is exactly
      what lets a caller go early. */
  lemma {:induction false} ReleasedInSlotExactly(slots: seq<Slot>, host: string, gap: real, now: real)
    ensures Released(now, LastSlot(slots, host) + gap - now) >= NextSlot(slots, host, gap, now)
            <==> LastSlot(slots, host) + gap - now <= 5.0
  {}

  /** The first caller of a host goes on at once exactly when the clock is a gap past zero,
      which is where the table starts. */
  lemma {:induction false} FirstCallerAtOnceExactly(slots: seq<Slot>, host: string, gap: real, now: real)
    requires forall i | 0 <= i < |slots| :: slots[i].host != host
    ensures Released(now, LastSlot(slots, host) + gap - now) == now <==> gap <= now
    ensures gap <= now ==> NextSlot(slots, host, gap, now) == now
  {
    if slots != [] { FirstCallerAtOnceExactly(slots[..|slots| - 1], host, gap, now); }
  }

  // ------------------------------------------------ a burst of callers at once

  /** The slots after `k` callers arrive for one host at the same time. */
  function Burst(slots: seq<Slot>, host: string, gap: real, now: real, k: nat): seq<Slot> {
    if k == 0 then slots
    else
      var before := Burst(slots, host, gap, now, k - 1);
      before + [Slot(host, NextSlot(before, host, gap, now))]
  }

  /** When the caller number `k` of the burst goes on. */
  function BurstRelease(slots: seq<Slot>, host: string, gap: real, now: real, k: nat): real {
    Released(now, LastSlot(Burst(slots, host, gap, now, k), host) + gap - now)
  }

  /** `k` gaps, one after the other. */
  function Gaps(k: nat, gap: real): real {
    if k == 0 then 0.0 else Gaps(k - 1, gap) + gap
  }

  lemma {:induction false} GapsGrow(j: nat, k: nat, gap: real)
    requires gap > 0.0 && j <= k
    ensures 0.0 <= Gaps(j, gap) <= Gaps(k, gap)
    ensures k > 0 ==> Gaps(k, gap) > 0.0
    decreases k
  {
    if j < k {
      GapsGrow(j, k - 1, gap);
    } else if k > 0 {
      GapsGrow(k - 1, k - 1, gap);
    }
  }

  lemma {:induction false} BurstStep(slots: seq<Slot>, host: string, gap: real, now: real, k: nat)
    requires k > 0
    ensures LastSlot(Burst(slots, host, gap, now, k), host)
         == Larger(now, LastSlot(Burst(slots, host, gap, now, k - 1), host) + gap)
  {
    var s := Burst(slots, host, gap, now, k);
    assert s[|s| - 1].host == host;
  }

  lemma {:induction false} BurstSlots(slots: seq<Slot>, host: string, gap: real, now: real, k: nat)
    requires gap > 0.0 && LastSlot(slots, host) + gap <= now
    ensures if k == 0 then LastSlot(Burst(slots, host, gap, now, k), host) + gap <= now
            else LastSlot(Burst(slots, host, gap, now, k), host) == now + Gaps(k - 1, gap)
  {
    if k > 0 {
      BurstSlots(slots, host, gap, now, k - 1);
      BurstStep(slots, host, gap, now, k);
      GapsGrow(k - 1, k - 1, gap);
    }
  }

  /** Caller `k` of a burst is due `k` gaps after the first, but never goes on
      later than five seconds after it. */
  lemma {:induction false} BurstReleased(slots: seq<Slot>, host: string, gap: real, now: real, k: nat)
    requires gap > 0.0 && LastSlot(slots, host) + gap <= now
    ensures BurstRelease(slots, host, gap, now, k) == now + AtMost5(Gaps(k, gap))
  {
    BurstSlots(slots, host, gap, now, k);
    GapsGrow(k, k, gap);
  }

  ghost predicate SpacedRelease(slots: seq<Slot>, host: string, gap: real, now: real, k: nat)
    requires k > 0
  {
    BurstRelease(slots, host, gap, now, k) - BurstRelease(slots, host, gap, now, k - 1) >= gap
  }

  /** The callers of a burst really go on one gap apart exactly when the last of
      them need not wait more than five seconds; all later ones go together. */
  lemma {:induction false} BurstSpacedExactly(slots: seq<Slot>, host: string, gap: real, now: real, last: nat)
    requires gap > 0.0 && LastSlot(slots, host) + gap <= now && last >= 1
    ensures (forall k | 1 <= k <= last :: SpacedRelease(slots, host, gap, now, k)) <==> Gaps(last, gap) <= 5.0
  {
    forall k | 1 <= k <= last
      ensures SpacedRelease(slots, host, gap, now, k) <==> Gaps(k, gap) <= 5.0
    {
      BurstReleased(slots, host, gap, now, k);
      BurstReleased(slots, host, gap, now, k - 1);
      GapsGrow(k - 1, k, gap);
    }
    forall k | 1 <= k <= last ensures Gaps(k, gap) <= Gaps(last, gap) { GapsGrow(k, last, gap); }
    assert SpacedRelease(slots, host, gap, now, last) <==> Gaps(last, gap) <= 5.0;
  }
}
