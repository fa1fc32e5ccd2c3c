/**
 The promise-chain rate limiter of the data API. Times are milliseconds of one
 monotone clock.
 */
module RateLimiter {
  import opened Wrappers

  /** `minRequestInterval`: 1000 / 5 milliseconds. */
  const INTERVAL := 200

  /** The state behind the chain; `granted` counts the slots it has handed out. */
  class Limiter {
    var nextAllowedTime: nat
    ghost var granted: nat

    constructor ()
      ensures nextAllowedTime == 0 && granted == 0
    {
      nextAllowedTime := 0;
      granted := 0;
    }

    /** The callback of one call, run at time `now` once the previous call was released. */
    method Enforce(now: nat) returns (delay: nat)
      modifies this
      ensures now + delay == Max(now, old(nextAllowedTime))
      ensures nextAllowedTime == now + delay + INTERVAL
      ensures granted == old(granted) + 1
    {
      var scheduledTime := Max(now, nextAllowedTime);
      delay := Max(0, scheduledTime - now);
      nextAllowedTime := scheduledTime + INTERVAL;
      granted := granted + 1;
    }

    /** One call on the chain, whose previous caller was released at `free`. */
    method Serve(call: Call, free: nat) returns (slot: Slot)
      modifies this
      ensures slot == SlotAt(call, Max(call.arrival, free), old(nextAllowedTime))
      ensures nextAllowedTime == slot.scheduled + INTERVAL
      ensures granted == old(granted) + 1
    {
      var now := Max(call.arrival, free);
      var delay := Enforce(now);
      slot := Slot(now, now + delay, if delay == 0 then now else now + delay + call.late);
    }
  }

  /** One call: when it is made, and how late its timer fires if it needs one. */
  datatype Call = Call(arrival: nat, late: nat)

  /** When its callback runs, the time it is scheduled for, and when the caller goes on. */
  datatype Slot = Slot(started: nat, scheduled: nat, released: nat)

  /** The slot of a call whose callback starts when the limiter holds `nextAllowed`. */
  function SlotAt(c: Call, started: nat, nextAllowed: nat): Slot {
    var scheduled := Max(started, nextAllowed);
    Slot(started, scheduled, if scheduled > started then scheduled + c.late else started)
  }

  /** The slot of the n-th call: the chain starts a callback once the previous caller is released. */
  function SlotOf(calls: seq<Call>, n: nat): Slot
    requires n < |calls|
  {
    if n == 0 then SlotAt(calls[0], calls[0].arrival, 0)
    else
      var previous := SlotOf(calls, n - 1);
      SlotAt(calls[n], Max(calls[n].arrival, previous.released), previous.scheduled + INTERVAL)
  }

  /** The first calls have their slots, the last of them was released at `free`, and the limiter holds `next`. */
  ghost predicate Served(calls: seq<Call>, slots: seq<Slot>, free: nat, next: nat) {
    && |slots| <= |calls|
    && (forall i :: 0 <= i < |slots| ==> slots[i] == SlotOf(calls, i))
    && (if slots == [] then free == next == 0
        else free == slots[|slots| - 1].released && next == slots[|slots| - 1].scheduled + INTERVAL)
  }

  lemma ServedStep(calls: seq<Call>, slots: seq<Slot>, free: nat, next: nat)
    requires Served(calls, slots, free, next) && |slots| < |calls|
    ensures var call := calls[|slots|];
            var slot := SlotAt(call, Max(call.arrival, free), next);
            Served(calls, slots + [slot], slot.released, slot.scheduled + INTERVAL)
  {
  }

  /** The class run over a list of calls produces exactly these slots. */
  method RunCalls(calls: seq<Call>) returns (slots: seq<Slot>)
    ensures |slots| == |calls| && forall i :: 0 <= i < |calls| ==> slots[i] == SlotOf(calls, i)
  {
    slots := [];
    var limiter := new Limiter();
    var free := 0;
    for n := 0 to |calls|
      invariant fresh(limiter) && |slots| == n
      invariant Served(calls, slots, free, limiter.nextAllowedTime)
    {
      ServedStep(calls, slots, free, limiter.nextAllowedTime);
      var slot := limiter.Serve(calls[n], free);
      slots := slots + [slot];
      free := slot.released;
    }
  }

  predicate LateAtMost(calls: seq<Call>, bound: nat) {
    forall i :: 0 <= i < |calls| ==> calls[i].late <= bound
  }

  // ── Spacing and rate ──────────────────────────────────────────────────────

  /** Scheduled times are at least one interval apart, whatever the arrivals and timers. */
  lemma {:induction false} Spaced(calls: seq<Call>, i: nat, j: nat)
    requires i <= j < |calls|
    ensures SlotOf(calls, i).scheduled + (j - i) * 200 <= SlotOf(calls, j).scheduled
  {
    if i < j {
      Spaced(calls, i, j - 1);
    }
  }

  /** A caller is never released before its call nor before its slot, and at most `bound` after the slot. */
  lemma ReleasedInTime(calls: seq<Call>, n: nat, bound: nat)
    requires n < |calls| && LateAtMost(calls, bound)
    ensures var s := SlotOf(calls, n);
            calls[n].arrival <= s.started <= s.scheduled <= s.released <= s.scheduled + bound
  {
  }

  lemma {:induction false} ReleasesInOrder(calls: seq<Call>, i: nat, j: nat)
    requires i <= j < |calls|
    ensures SlotOf(calls, i).released <= SlotOf(calls, j).released
  {
    if i < j {
      ReleasesInOrder(calls, i, j - 1);
    }
  }

  /** The calls released in the half-open window of length `width` from `start`. */
  function ReleasedWithin(calls: seq<Call>, start: int, width: nat): (s: set<nat>)
    ensures forall n: nat :: n in s <==> n < |calls| && start <= SlotOf(calls, n).released < start + width
  {
    set n: nat | n < |calls| && start <= SlotOf(calls, n).released < start + width
  }

  function CeilDiv(a: nat, b: nat): nat
    requires b > 0
  {
    (a + b - 1) / b
  }

  lemma {:induction false} SetInRange(s: set<nat>, lo: nat, size: nat)
    requires forall n :: n in s ==> lo <= n < lo + size
    ensures |s| <= size
    decreases size
  {
    if size == 0 {
      assert forall n :: n !in s;
      assert s == {};
    } else {
      SetInRange(s - {lo}, lo + 1, size - 1);
    }
  }

  /**
   In every run whose timers are at most `bound` late, any window of length
   `width` holds at most ceil((width + bound) / 200) releases.
   */
  lemma RateBound(calls: seq<Call>, start: int, width: nat, bound: nat)
    requires LateAtMost(calls, bound)
    ensures |ReleasedWithin(calls, start, width)| <= CeilDiv(width + bound, 200)
  {
    var s := ReleasedWithin(calls, start, width);
    var size := CeilDiv(width + bound, 200);
    if s != {} {
      var lo := LeastOf(s);
      forall n | n in s ensures lo <= n < lo + size {
        Spaced(calls, lo, n);
        ReleasedInTime(calls, lo, bound);
        ReleasedInTime(calls, n, bound);
        FitsIn(n - lo, width + bound);
      }
      SetInRange(s, lo, size);
    }
  }

  lemma FitsIn(gaps: nat, span: nat)
    requires gaps * 200 < span
    ensures gaps < CeilDiv(span, 200)
  {
  }

  lemma {:induction false} LeastOf(s: set<nat>) returns (lo: nat)
    requires s != {}
    ensures lo in s && forall n :: n in s ==> lo <= n
    decreases |s|
  {
    var m :| m in s;
    var rest := s - {m};
    if rest == {} {
      lo := m;
    } else {
      var k := LeastOf(rest);
      lo := Min(m, k);
    }
    forall n | n in s ensures lo <= n {
      assert n == m || n in rest;
    }
  }

  /** With punctual timers, at most five calls are released in any second. */
  lemma FivePerSecond(calls: seq<Call>, start: int)
    requires LateAtMost(calls, 0)
    ensures |ReleasedWithin(calls, start, 1000)| <= 5
  {
    RateBound(calls, start, 1000, 0);
  }

  // ── The schedule is optimal ───────────────────────────────────────────────

  /** The earliest time of the n-th call: not before it is made, one interval after the one before. */
  function Best(calls: seq<Call>, n: nat): nat
    requires n < |calls|
  {
    if n == 0 then calls[0].arrival else Max(calls[n].arrival, Best(calls, n - 1) + INTERVAL)
  }

  /** The bound call j puts on the slot of a later call n. */
  function Pushed(calls: seq<Call>, j: nat, n: nat): int
    requires j <= n < |calls|
  {
    calls[j].arrival + (n - j) * 200
  }

  /** In closed form it is the maximum over j ≤ n of arrival(j) + (n − j)·200. */
  lemma {:induction false} BestIsMaxPlus(calls: seq<Call>, n: nat)
    requires n < |calls|
    ensures forall j :: 0 <= j <= n ==> Pushed(calls, j, n) <= Best(calls, n)
    ensures exists j :: 0 <= j <= n && Pushed(calls, j, n) == Best(calls, n)
  {
    if n == 0 {
      assert Pushed(calls, 0, 0) == Best(calls, 0);
    } else {
      BestIsMaxPlus(calls, n - 1);
      forall j | 0 <= j < n ensures Pushed(calls, j, n) == Pushed(calls, j, n - 1) + 200 {
      }
      if Best(calls, n) == calls[n].arrival {
        assert Pushed(calls, n, n) == Best(calls, n);
      } else {
        var j :| 0 <= j <= n - 1 && Pushed(calls, j, n - 1) == Best(calls, n - 1);
        assert Pushed(calls, j, n) == Best(calls, n);
      }
    }
  }

  /**
   Call n is held up by the timer of the call before: that call had to wait, its
   timer fired more than an interval late, and call n was made by then.
   */
  predicate HeldUp(calls: seq<Call>, n: nat)
    requires 0 < n < |calls|
  {
    var before := SlotOf(calls, n - 1);
    && before.scheduled > before.started && calls[n - 1].late > INTERVAL
    && calls[n].arrival < before.scheduled + calls[n - 1].late
  }

  lemma SlotStep(calls: seq<Call>, n: nat)
    requires 0 < n < |calls|
    ensures SlotOf(calls, n).scheduled >= Max(calls[n].arrival, SlotOf(calls, n - 1).scheduled + INTERVAL)
    ensures SlotOf(calls, n).scheduled == Max(calls[n].arrival, SlotOf(calls, n - 1).scheduled + INTERVAL)
            <==> !HeldUp(calls, n)
  {
  }

  /** Whatever the timers do, a slot is never before the earliest time. */
  lemma {:induction false} SlotIsNotBeforeBest(calls: seq<Call>, n: nat)
    requires n < |calls|
    ensures Best(calls, n) <= SlotOf(calls, n).scheduled
  {
    if n > 0 {
      SlotIsNotBeforeBest(calls, n - 1);
      SlotStep(calls, n);
    }
  }

  predicate IsBest(calls: seq<Call>, n: nat)
    requires n < |calls|
  {
    SlotOf(calls, n).scheduled == Best(calls, n)
  }

  lemma {:induction false} FirstSlotsAreBestIff(calls: seq<Call>, count: nat)
    requires count <= |calls|
    ensures (forall n :: 0 <= n < count ==> IsBest(calls, n)) <==> forall n :: 0 < n < count ==> !HeldUp(calls, n)
  {
    if count > 0 {
      FirstSlotsAreBestIff(calls, count - 1);
      if count > 1 {
        var last: nat := count - 1;
        SlotStep(calls, last);
        assert IsBest(calls, last - 1) ==> (IsBest(calls, last) <==> !HeldUp(calls, last));
        if forall n :: 0 < n < count ==> !HeldUp(calls, n) {
          assert IsBest(calls, last - 1);
        }
      } else {
        assert IsBest(calls, 0);
      }
    }
  }

  /**
   Every slot of a run is the earliest possible exactly when no call is held up
   by the timer of the call before it. A late timer behind which nobody queues
   costs nothing.
   */
  lemma SlotsAreBestIff(calls: seq<Call>)
    ensures (forall n :: 0 <= n < |calls| ==> IsBest(calls, n)) <==> forall n :: 0 < n < |calls| ==> !HeldUp(calls, n)
  {
    FirstSlotsAreBestIff(calls, |calls|);
  }

  /** Timers at most one interval late hold nobody up. */
  lemma PunctualSlotsAreBest(calls: seq<Call>, n: nat)
    requires n < |calls| && LateAtMost(calls, 200)
    ensures SlotOf(calls, n).scheduled == Best(calls, n)
  {
    SlotsAreBestIff(calls);
    assert IsBest(calls, n);
  }

  /**
   With such timers the n-th slot is the maximum over j ≤ n of
   arrival(j) + (n − j)·200.
   */
  lemma ScheduleIsMaxPlus(calls: seq<Call>, n: nat)
    requires n < |calls| && LateAtMost(calls, 200)
    ensures forall j :: 0 <= j <= n ==> Pushed(calls, j, n) <= SlotOf(calls, n).scheduled
    ensures exists j :: 0 <= j <= n && Pushed(calls, j, n) == SlotOf(calls, n).scheduled
  {
    PunctualSlotsAreBest(calls, n);
    BestIsMaxPlus(calls, n);
  }

  /** A schedule in call order that never serves a call before it is made and keeps the interval. */
  predicate IsSchedule(calls: seq<Call>, times: seq<int>) {
    && |times| == |calls|
    && (forall n :: 0 <= n < |calls| ==> calls[n].arrival <= times[n])
    && (forall n :: 0 < n < |calls| ==> times[n - 1] + 200 <= times[n])
  }

  function Scheduled(calls: seq<Call>): (times: seq<int>)
    ensures |times| == |calls| && forall n :: 0 <= n < |calls| ==> times[n] == SlotOf(calls, n).scheduled
  {
    seq(|calls|, n requires 0 <= n < |calls| => SlotOf(calls, n).scheduled)
  }

  /** No schedule serves a call before the earliest time. */
  lemma {:induction false} NoScheduleIsEarlier(calls: seq<Call>, times: seq<int>, n: nat)
    requires IsSchedule(calls, times) && n < |calls|
    ensures Best(calls, n) <= times[n]
  {
    if n > 0 {
      NoScheduleIsEarlier(calls, times, n - 1);
    }
  }

  /** The limiter's times always are a schedule, however late the timers. */
  lemma ScheduledIsSchedule(calls: seq<Call>)
    ensures IsSchedule(calls, Scheduled(calls))
  {
    forall n | 0 < n < |calls| ensures Scheduled(calls)[n - 1] + 200 <= Scheduled(calls)[n] {
      Spaced(calls, n - 1, n);
    }
  }

  function BestTimes(calls: seq<Call>): (times: seq<int>)
    ensures |times| == |calls| && forall n :: 0 <= n < |calls| ==> times[n] == Best(calls, n)
  {
    seq(|calls|, n requires 0 <= n < |calls| => Best(calls, n))
  }

  ghost predicate IsLeastSchedule(calls: seq<Call>, times: seq<int>) {
    && IsSchedule(calls, times)
    && forall others :: IsSchedule(calls, others) ==> NoLater(times, others)
  }

  predicate NoLater(times: seq<int>, others: seq<int>) {
    |times| == |others| && forall n :: 0 <= n < |times| ==> times[n] <= others[n]
  }

  lemma BestIsSchedule(calls: seq<Call>)
    ensures IsSchedule(calls, BestTimes(calls))
  {
  }

  lemma LeastIsBest(calls: seq<Call>, n: nat)
    requires n < |calls| && IsLeastSchedule(calls, Scheduled(calls))
    ensures IsBest(calls, n)
  {
    BestIsSchedule(calls);
    assert NoLater(Scheduled(calls), BestTimes(calls));
    assert Scheduled(calls)[n] <= BestTimes(calls)[n];
    SlotIsNotBeforeBest(calls, n);
  }

  lemma BestIsNoLater(calls: seq<Call>, times: seq<int>, others: seq<int>)
    requires |times| == |calls| && forall n :: 0 <= n < |calls| ==> times[n] == Best(calls, n)
    requires IsSchedule(calls, others)
    ensures NoLater(times, others)
  {
    forall n | 0 <= n < |calls| ensures times[n] <= others[n] {
      NoScheduleIsEarlier(calls, others, n);
    }
  }

  lemma BestIsLeast(calls: seq<Call>)
    requires forall n :: 0 <= n < |calls| ==> IsBest(calls, n)
    ensures IsLeastSchedule(calls, Scheduled(calls))
  {
    ScheduledIsSchedule(calls);
    var times := Scheduled(calls);
    forall n | 0 <= n < |calls| ensures times[n] == Best(calls, n) {
      assert IsBest(calls, n);
    }
    forall others | IsSchedule(calls, others) ensures NoLater(times, others) {
      BestIsNoLater(calls, times, others);
    }
  }

  /** The limiter's schedule is pointwise the least of all exactly when no call is held up. */
  lemma ScheduleIsLeastIff(calls: seq<Call>)
    ensures IsLeastSchedule(calls, Scheduled(calls)) <==> forall n :: 0 < n < |calls| ==> !HeldUp(calls, n)
  {
    SlotsAreBestIff(calls);
    if IsLeastSchedule(calls, Scheduled(calls)) {
      forall n | 0 <= n < |calls| ensures IsBest(calls, n) { LeastIsBest(calls, n); }
    }
    if forall n :: 0 <= n < |calls| ==> IsBest(calls, n) {
      BestIsLeast(calls);
    }
  }

  /** With timers at most one interval late it is the least. */
  lemma ScheduleIsLeast(calls: seq<Call>, times: seq<int>)
    requires LateAtMost(calls, 200)
    ensures IsSchedule(calls, Scheduled(calls))
    ensures IsSchedule(calls, times) ==> forall n :: 0 <= n < |calls| ==> Scheduled(calls)[n] <= times[n]
  {
    ScheduleIsLeastIff(calls);
    assert IsSchedule(calls, times) ==> NoLater(Scheduled(calls), times);
  }

  /**
   The last of three calls made at once is held up exactly by a timer of the
   second that is more than an interval late; made after that timer has fired it
   is not, however late the timer.
   */
  lemma VeryLateTimerDelays(late: nat, arrival: nat)
    ensures var calls := [Call(0, 0), Call(0, late), Call(arrival, 0)];
            SlotOf(calls, 2).scheduled == Best(calls, 2) <==> late <= 200 || arrival >= 200 + late
  {
    var calls := [Call(0, 0), Call(0, late), Call(arrival, 0)];
    assert SlotOf(calls, 0) == Slot(0, 0, 0) && Best(calls, 0) == 0;
    assert SlotOf(calls, 1) == Slot(0, INTERVAL, INTERVAL + late) && Best(calls, 1) == INTERVAL;
    SlotStep(calls, 2);
  }
}
