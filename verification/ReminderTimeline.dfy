/** Exactly one reminder per schedule: how far apart ticks may be, and what a failed attempt costs. */
module ReminderTimeline {
  import opened JsStrings
  import opened CallReminders

  const MINUTE_MS := 60000

  /** The step leaves the call scheduled at the time it is scheduled for. */
  predicate Keeps(step: Step, id: nat, scheduledAt: int) {
    match step
    case Update(i, newTime, status, _) =>
      i == id ==> (newTime == None || newTime == Some(scheduledAt)) && (status == None || status == Some(Scheduled))
    case Remove(i) => i != id
    case _ => true
  }

  /** A visit of the tick to this call in this window. */
  predicate Visits(step: Step, id: nat, t: ReminderType) {
    step.Handle? && step.id == id && step.kind == t
  }

  predicate DueVisit(step: Step, id: nat, t: ReminderType, call: Call) {
    Visits(step, id, t) && Due(call, t, step.now)
  }

  /** The visit finds the reminder due and, if nothing is stamped yet, queues it. */
  predicate Lands(step: Step, id: nat, t: ReminderType, call: Call) {
    DueVisit(step, id, t, call) && step.outcome in {Queued, QueuedUnstamped}
  }

  /** The visit leaves a stamp, with or without an event. */
  predicate Settles(step: Step, id: nat, t: ReminderType, call: Call) {
    DueVisit(step, id, t, call) && step.outcome in {Queued, StampStuck}
  }

  function Reminders(events: seq<Event>, id: nat, t: ReminderType, version: nat): nat {
    if events == [] then 0
    else
      var e := events[|events| - 1];
      Reminders(events[..|events| - 1], id, t, version)
      + if e.callId == id && e.kind == t && e.version == version then 1 else 0
  }

  /** The times at which ticks visited the call in this window. */
  function VisitTimes(steps: seq<Step>, id: nat, t: ReminderType): seq<int>
    decreases |steps|
  {
    if steps == [] then []
    else (if Visits(steps[0], id, t) then [steps[0].now] else []) + VisitTimes(steps[1..], id, t)
  }

  ghost predicate AllKeep(steps: seq<Step>, id: nat, scheduledAt: int) {
    forall i :: 0 <= i < |steps| ==> Keeps(steps[i], id, scheduledAt)
  }

  // ---------- what decides how many reminders go out ----------

  lemma StepKeepsCall(d: Desk, step: Step, id: nat, t: ReminderType)
    requires id in d.calls && id < d.nextId && d.calls[id].status == Scheduled
    requires Keeps(step, id, d.calls[id].scheduledAt)
    ensures var d' := Apply(d, step); id in d'.calls && d'.calls[id] == d.calls[id]
    ensures (id, t) in Apply(d, step).stamps <==> (id, t) in d.stamps || Settles(step, id, t, d.calls[id])
  {
  }

  /** A step adds a reminder exactly when it lands on an unstamped call. */
  lemma StepCounts(d: Desk, step: Step, id: nat, t: ReminderType)
    requires DeskInv(d) && id in d.calls && d.calls[id].status == Scheduled && Keeps(step, id, d.calls[id].scheduledAt)
    ensures Reminders(Apply(d, step).events, id, t, d.calls[id].version)
              == Reminders(d.events, id, t, d.calls[id].version)
              + if (id, t) !in d.stamps && Lands(step, id, t, d.calls[id]) then 1 else 0
  {
    StepEvents(d, step);
    var d' := Apply(d, step);
    if Queues(d, step) { assert d'.events[..|d.events|] == d.events; }
  }

  lemma {:induction false} StampedStaysQuiet(d: Desk, steps: seq<Step>, id: nat, t: ReminderType)
    requires DeskInv(d) && id in d.calls && d.calls[id].status == Scheduled
    requires AllKeep(steps, id, d.calls[id].scheduledAt)
    requires (id, t) in d.stamps
    ensures Reminders(Run(d, steps).events, id, t, d.calls[id].version)
              == Reminders(d.events, id, t, d.calls[id].version)
    decreases |steps|
  {
    if steps == [] {
    } else {
      DeskStep(d, steps[0]);
      StepKeepsCall(d, steps[0], id, t);
      StepCounts(d, steps[0], id, t);
      assert AllKeep(steps[1..], id, d.calls[id].scheduledAt);
      StampedStaysQuiet(Apply(d, steps[0]), steps[1..], id, t);
    }
  }

  /** The landings up to the first visit that leaves a stamp. */
  function Landings(steps: seq<Step>, id: nat, t: ReminderType, call: Call): nat
    decreases |steps|
  {
    if steps == [] then 0
    else
      var rest := if Settles(steps[0], id, t, call) then 0 else Landings(steps[1..], id, t, call);
      if Lands(steps[0], id, t, call) then 1 + rest else rest
  }

  /** A call that stays scheduled and is not stamped yet gets one reminder for each of these landings. */
  lemma {:induction false} RemindersAreLandings(d: Desk, steps: seq<Step>, id: nat, t: ReminderType)
    requires DeskInv(d) && id in d.calls && d.calls[id].status == Scheduled
    requires AllKeep(steps, id, d.calls[id].scheduledAt)
    requires (id, t) !in d.stamps
    ensures Reminders(Run(d, steps).events, id, t, d.calls[id].version)
         == Reminders(d.events, id, t, d.calls[id].version) + Landings(steps, id, t, d.calls[id])
    decreases |steps|
  {
    if steps == [] {
    } else {
      var step, rest, d' := steps[0], steps[1..], Apply(d, steps[0]);
      DeskStep(d, step);
      StepKeepsCall(d, step, id, t);
      StepCounts(d, step, id, t);
      assert AllKeep(rest, id, d.calls[id].scheduledAt);
      if Settles(step, id, t, d.calls[id]) {
        StampedStaysQuiet(d', rest, id, t);
      } else {
        RemindersAreLandings(d', rest, id, t);
      }
    }
  }

  /** Step i lands, and no due visit before it left a stamp. */
  ghost predicate LandsFirst(steps: seq<Step>, i: int, id: nat, t: ReminderType, call: Call) {
    && 0 <= i < |steps| && Lands(steps[i], id, t, call)
    && forall k :: 0 <= k < i ==> !Settles(steps[k], id, t, call)
  }

  ghost predicate SomeLandsFirst(steps: seq<Step>, id: nat, t: ReminderType, call: Call) {
    exists i :: LandsFirst(steps, i, id, t, call)
  }

  ghost predicate TwoLandFirst(steps: seq<Step>, id: nat, t: ReminderType, call: Call) {
    exists i, k :: i < k && LandsFirst(steps, i, id, t, call) && LandsFirst(steps, k, id, t, call)
  }

  lemma LandsFirstLater(steps: seq<Step>, i: nat, id: nat, t: ReminderType, call: Call)
    requires steps != []
    ensures LandsFirst(steps, i + 1, id, t, call)
       <==> !Settles(steps[0], id, t, call) && LandsFirst(steps[1..], i, id, t, call)
    ensures LandsFirst(steps, 0, id, t, call) <==> Lands(steps[0], id, t, call)
  {
    var rest := steps[1..];
    assert forall k :: 0 <= k < |rest| ==> rest[k] == steps[k + 1];
    if LandsFirst(steps, i + 1, id, t, call) {
      assert forall k :: 0 <= k < i ==> rest[k] == steps[k + 1];
      assert steps[0 + 0] == steps[0];
    }
    if !Settles(steps[0], id, t, call) && LandsFirst(rest, i, id, t, call) {
      forall k | 0 <= k < i + 1 ensures !Settles(steps[k], id, t, call) {
        if k > 0 { assert steps[k] == rest[k - 1]; }
      }
    }
  }

  lemma SomeLandsFirstMeans(steps: seq<Step>, id: nat, t: ReminderType, call: Call)
    requires steps != []
    ensures SomeLandsFirst(steps, id, t, call)
       <==> Lands(steps[0], id, t, call) || (!Settles(steps[0], id, t, call) && SomeLandsFirst(steps[1..], id, t, call))
  {
    LandsFirstLater(steps, 0, id, t, call);
    if i :| LandsFirst(steps, i, id, t, call) {
      if i > 0 { LandsFirstLater(steps, i - 1, id, t, call); }
    }
    if i :| LandsFirst(steps[1..], i, id, t, call) { LandsFirstLater(steps, i, id, t, call); }
  }

  lemma TwoLandFirstMeans(steps: seq<Step>, id: nat, t: ReminderType, call: Call)
    requires steps != []
    ensures TwoLandFirst(steps, id, t, call)
       <==> && !Settles(steps[0], id, t, call)
            && (TwoLandFirst(steps[1..], id, t, call)
                || (Lands(steps[0], id, t, call) && SomeLandsFirst(steps[1..], id, t, call)))
  {
    var rest := steps[1..];
    LandsFirstLater(steps, 0, id, t, call);
    if i, k :| i < k && LandsFirst(steps, i, id, t, call) && LandsFirst(steps, k, id, t, call) {
      LandsFirstLater(steps, k - 1, id, t, call);
      if i > 0 { LandsFirstLater(steps, i - 1, id, t, call); }
    }
    if i, k :| i < k && LandsFirst(rest, i, id, t, call) && LandsFirst(rest, k, id, t, call) {
      LandsFirstLater(steps, i, id, t, call);
      LandsFirstLater(steps, k, id, t, call);
    }
    if k :| LandsFirst(rest, k, id, t, call) { LandsFirstLater(steps, k, id, t, call); }
  }

  lemma {:induction false} LandingsMean(steps: seq<Step>, id: nat, t: ReminderType, call: Call)
    ensures Landings(steps, id, t, call) >= 1 <==> SomeLandsFirst(steps, id, t, call)
    ensures Landings(steps, id, t, call) >= 2 <==> TwoLandFirst(steps, id, t, call)
    decreases |steps|
  {
    if steps == [] {
    } else {
      LandingsMean(steps[1..], id, t, call);
      SomeLandsFirstMeans(steps, id, t, call);
      TwoLandFirstMeans(steps, id, t, call);
    }
  }

  /**
   * A call that stays scheduled gets a reminder of a kind if and only if some due visit queues it and no due visit
   * before that left a stamp, and a second one if and only if two do, of which the first lost its stamp.
   */
  lemma ReminderGoesOutExactlyWhen(d: Desk, steps: seq<Step>, id: nat, t: ReminderType)
    requires DeskInv(d) && id in d.calls && d.calls[id].status == Scheduled
    requires AllKeep(steps, id, d.calls[id].scheduledAt)
    requires (id, t) !in d.stamps && Reminders(d.events, id, t, d.calls[id].version) == 0
    ensures Reminders(Run(d, steps).events, id, t, d.calls[id].version) >= 1
       <==> SomeLandsFirst(steps, id, t, d.calls[id])
    ensures Reminders(Run(d, steps).events, id, t, d.calls[id].version) >= 2
       <==> TwoLandFirst(steps, id, t, d.calls[id])
  {
    RemindersAreLandings(d, steps, id, t);
    LandingsMean(steps, id, t, d.calls[id]);
  }

  /**
   * Where no call throws after its event landed, there is one reminder if some visit succeeds and no due visit
   * before it left its stamp without an event, and none otherwise.
   */
  lemma OneReminderIffSomeTickSucceeds(d: Desk, steps: seq<Step>, id: nat, t: ReminderType)
    requires DeskInv(d) && id in d.calls && d.calls[id].status == Scheduled
    requires AllKeep(steps, id, d.calls[id].scheduledAt)
    requires (id, t) !in d.stamps && Reminders(d.events, id, t, d.calls[id].version) == 0
    requires forall i :: 0 <= i < |steps| && DueVisit(steps[i], id, t, d.calls[id]) ==>
               steps[i].outcome != QueuedUnstamped
    ensures Reminders(Run(d, steps).events, id, t, d.calls[id].version)
              == if SucceedsUnjammed(steps, id, t, d.calls[id]) then 1 else 0
  {
    var call := d.calls[id];
    ReminderGoesOutExactlyWhen(d, steps, id, t);
    assert forall i :: 0 <= i < |steps| && Lands(steps[i], id, t, call) ==> Settles(steps[i], id, t, call);
    if SucceedsUnjammed(steps, id, t, call) {
      var i :| SucceedsAt(steps, i, id, t, call);
      FirstSuccess(steps, i, id, t, call);
    }
    if i :| LandsFirst(steps, i, id, t, call) { assert SucceedsAt(steps, i, id, t, call); }
  }

  /** Step i finds the reminder due and queues it; no due visit before it left its stamp without an event. */
  ghost predicate SucceedsAt(steps: seq<Step>, i: int, id: nat, t: ReminderType, call: Call) {
    && 0 <= i < |steps| && DueVisit(steps[i], id, t, call) && steps[i].outcome == Queued
    && forall k :: 0 <= k < i && DueVisit(steps[k], id, t, call) ==> steps[k].outcome != StampStuck
  }

  ghost predicate SucceedsUnjammed(steps: seq<Step>, id: nat, t: ReminderType, call: Call) {
    exists i :: SucceedsAt(steps, i, id, t, call)
  }

  lemma {:induction false} FirstSuccess(steps: seq<Step>, i: nat, id: nat, t: ReminderType, call: Call)
    requires SucceedsAt(steps, i, id, t, call)
    ensures SomeLandsFirst(steps, id, t, call)
  {
    if k :| 0 <= k < i && Settles(steps[k], id, t, call) {
      FirstSuccess(steps, k, id, t, call);
    } else {
      assert LandsFirst(steps, i, id, t, call);
    }
  }

  /** A stamp that stays behind before any event is queued costs the reminder for good, whatever comes after. */
  lemma StuckStampLosesTheReminder(d: Desk, steps: seq<Step>, j: nat, id: nat, t: ReminderType)
    requires DeskInv(d) && id in d.calls && d.calls[id].status == Scheduled
    requires AllKeep(steps, id, d.calls[id].scheduledAt)
    requires (id, t) !in d.stamps && Reminders(d.events, id, t, d.calls[id].version) == 0
    requires j < |steps| && DueVisit(steps[j], id, t, d.calls[id]) && steps[j].outcome == StampStuck
    requires forall i :: 0 <= i < j ==> !Lands(steps[i], id, t, d.calls[id])
    ensures Reminders(Run(d, steps).events, id, t, d.calls[id].version) == 0
  {
    ReminderGoesOutExactlyWhen(d, steps, id, t);
    assert Settles(steps[j], id, t, d.calls[id]);
  }

  // ---------- tick spacing ----------

  /** Times that never go back and never jump by more than `gap`, `prev` being the tick before the first. */
  ghost predicate Spaced(prev: int, times: seq<int>, gap: int)
    decreases |times|
  {
    times == [] || (prev <= times[0] <= prev + gap && Spaced(times[0], times[1..], gap))
  }

  /** If ticks run past `x`, one of them lands within `gap` of it. */
  lemma {:induction false} SomeTickSoonAfter(prev: int, times: seq<int>, gap: int, x: int) returns (j: nat)
    requires Spaced(prev, times, gap) && prev <= x && times != [] && x <= times[|times| - 1]
    ensures j < |times| && x <= times[j] <= x + gap && (prev < x ==> times[j] < x + gap)
    ensures j + 1 < |times| ==> times[j] <= times[j + 1] <= times[j] + gap
    decreases |times|
  {
    if x <= times[0] {
      j := 0;
    } else {
      var k := SomeTickSoonAfter(times[0], times[1..], gap, x);
      j := k + 1;
    }
  }

  /** Every visit time comes from a step. */
  lemma {:induction false} VisitAt(steps: seq<Step>, id: nat, t: ReminderType, j: nat) returns (i: nat)
    requires j < |VisitTimes(steps, id, t)|
    ensures i < |steps| && Visits(steps[i], id, t) && steps[i].now == VisitTimes(steps, id, t)[j]
    decreases |steps|
  {
    if Visits(steps[0], id, t) {
      if j == 0 { i := 0; }
      else { var k := VisitAt(steps[1..], id, t, j - 1); i := k + 1; }
    } else {
      var k := VisitAt(steps[1..], id, t, j); i := k + 1;
    }
  }

  /** The moment the reminder is for. */
  function Target(call: Call, t: ReminderType): int {
    call.scheduledAt - OffsetMs(t)
  }

  /** The call was anchored with enough notice, is scheduled, unstamped, and ticks run from before its target. */
  ghost predicate Expecting(d: Desk, steps: seq<Step>, id: nat, t: ReminderType, prev: int, gap: int) {
    && DeskInv(d) && id in d.calls && d.calls[id].status == Scheduled && (id, t) !in d.stamps
    && Reminders(d.events, id, t, d.calls[id].version) == 0
    && d.calls[id].scheduledAt - Anchor(d.calls[id]) >= ThresholdMs(t)
    && AllKeep(steps, id, d.calls[id].scheduledAt)
    && (prev < Target(d.calls[id], t) || (t == Min60 && prev == Target(d.calls[id], t)))
    && Spaced(prev, VisitTimes(steps, id, t), gap)
  }

  /** Ticks at most ten minutes apart and a working event queue give exactly one reminder. */
  lemma ExactlyOneReminder(d: Desk, steps: seq<Step>, id: nat, t: ReminderType, prev: int)
    requires Expecting(d, steps, id, t, prev, 10 * MINUTE_MS)
    requires forall i :: 0 <= i < |steps| && DueVisit(steps[i], id, t, d.calls[id]) ==> steps[i].outcome == Queued
    requires var times := VisitTimes(steps, id, t); times != [] && times[|times| - 1] >= Target(d.calls[id], t)
    ensures Reminders(Run(d, steps).events, id, t, d.calls[id].version) == 1
  {
    var call := d.calls[id];
    var j := SomeTickSoonAfter(prev, VisitTimes(steps, id, t), 10 * MINUTE_MS, Target(call, t));
    var i := VisitAt(steps, id, t, j);
    assert Due(call, t, steps[i].now);
    assert SucceedsAt(steps, i, id, t, call);
    OneReminderIffSomeTickSucceeds(d, steps, id, t);
  }

  /** Two consecutive visit times come from two steps, in order. */
  lemma {:induction false} TwoVisits(steps: seq<Step>, id: nat, t: ReminderType, j: nat) returns (i: nat, k: nat)
    requires j + 1 < |VisitTimes(steps, id, t)|
    ensures i < k < |steps| && Visits(steps[i], id, t) && Visits(steps[k], id, t)
    ensures steps[i].now == VisitTimes(steps, id, t)[j] && steps[k].now == VisitTimes(steps, id, t)[j + 1]
    decreases |steps|
  {
    if Visits(steps[0], id, t) && j == 0 {
      k := VisitAt(steps[1..], id, t, 0);
      i, k := 0, k + 1;
    } else {
      i, k := TwoVisits(steps[1..], id, t, if Visits(steps[0], id, t) then j - 1 else j);
      i, k := i + 1, k + 1;
    }
  }

  /** At the five-minute cadence the call is visited twice while due, so one failed attempt is still made good. */
  lemma OneFailureIsRetried(d: Desk, steps: seq<Step>, id: nat, t: ReminderType, prev: int)
    requires Expecting(d, steps, id, t, prev, CRON_INTERVAL_MS)
    requires forall i :: 0 <= i < |steps| && DueVisit(steps[i], id, t, d.calls[id]) ==>
               steps[i].outcome in {Queued, RolledBack, StampFailed}
    requires forall i, k ::
               0 <= i < k < |steps| && DueVisit(steps[i], id, t, d.calls[id])
               && DueVisit(steps[k], id, t, d.calls[id]) ==>
               steps[i].outcome == Queued || steps[k].outcome == Queued
    requires var times := VisitTimes(steps, id, t);
             times != [] && times[|times| - 1] > Target(d.calls[id], t) + CRON_INTERVAL_MS
    ensures Reminders(Run(d, steps).events, id, t, d.calls[id].version) == 1
  {
    var call, times := d.calls[id], VisitTimes(steps, id, t);
    var j := SomeTickSoonAfter(prev, times, CRON_INTERVAL_MS, Target(call, t));
    var i, k := TwoVisits(steps, id, t, j);
    assert Due(call, t, steps[i].now) && Due(call, t, steps[k].now);
    assert SucceedsAt(steps, i, id, t, call) || SucceedsAt(steps, k, id, t, call);
    OneReminderIffSomeTickSucceeds(d, steps, id, t);
  }

  function TicksEvery(start: int, gap: int, n: nat): seq<Step>
    decreases n
  {
    if n == 0 then [] else [Handle(0, Min60, start + gap, Queued)] + TicksEvery(start + gap, gap, n - 1)
  }

  lemma TicksEveryTail(start: int, gap: int, n: nat)
    requires n > 0
    ensures TicksEvery(start, gap, n)[0] == Handle(0, Min60, start + gap, Queued)
    ensures TicksEvery(start, gap, n)[1..] == TicksEvery(start + gap, gap, n - 1)
  {
  }

  lemma {:induction false} TicksEveryAreSpaced(start: int, gap: nat, n: nat)
    ensures var times := VisitTimes(TicksEvery(start, gap, n), 0, Min60);
            Spaced(start, times, gap) && |times| == n && (n > 0 ==> times[n - 1] >= start + gap)
    decreases n
  {
    if n == 0 {
    } else {
      TicksEveryTail(start, gap, n);
      TicksEveryAreSpaced(start + gap, gap, n - 1);
    }
  }

  lemma {:induction false} TicksEveryVisit(start: int, gap: nat, n: nat, i: nat)
    requires i < |TicksEvery(start, gap, n)|
    ensures var step := TicksEvery(start, gap, n)[i];
            Visits(step, 0, Min60) && step.outcome == Queued && step.now >= start + gap
    decreases n
  {
    TicksEveryTail(start, gap, n);
    if i == 0 {
    } else {
      assert TicksEvery(start, gap, n)[i] == TicksEvery(start, gap, n)[1..][i - 1];
      TicksEveryVisit(start + gap, gap, n - 1, i - 1);
    }
  }

  /**
   * Ten minutes is tight for the 60-minute reminder: a call booked exactly one hour ahead, just after a tick,
   * never gets it when the ticks come one millisecond further apart than that, however long they go on.
   */
  lemma TenMinutesIsTight(start: int, n: nat)
    requires n > 0
    ensures var d, steps :=
              Created(EMPTY_DESK, start + 60 * MINUTE_MS, start), TicksEvery(start, 10 * MINUTE_MS + 1, n);
            && Expecting(d, steps, 0, Min60, start, 10 * MINUTE_MS + 1)
            && (var times := VisitTimes(steps, 0, Min60);
                times != [] && times[|times| - 1] >= Target(d.calls[0], Min60))
            && Reminders(Run(d, steps).events, 0, Min60, 0) == 0
  {
    var d, steps := Created(EMPTY_DESK, start + 60 * MINUTE_MS, start), TicksEvery(start, 10 * MINUTE_MS + 1, n);
    DeskStep(EMPTY_DESK, Create(start + 60 * MINUTE_MS, start));
    TicksEveryAreSpaced(start, 10 * MINUTE_MS + 1, n);
    forall i | 0 <= i < |steps|
      ensures Visits(steps[i], 0, Min60) && steps[i].outcome == Queued && steps[i].now > start + 10 * MINUTE_MS
    {
      TicksEveryVisit(start, 10 * MINUTE_MS + 1, n, i);
    }
    OneReminderIffSomeTickSucceeds(d, steps, 0, Min60);
  }
}
