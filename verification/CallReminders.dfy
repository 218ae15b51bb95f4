/** Client calls, their reminder stamps, and the periodic reminder tick. Times are in milliseconds. */
module CallReminders {
  import opened JsStrings

  const CRON_INTERVAL_MS := 300000
  const CATCHUP_WINDOW_MS := 600000
  const MIN_LEAD_MS := 1800000

  datatype CallStatus = Scheduled | Completed | Cancelled

  datatype ReminderType = Min60 | Min10

  function OffsetMs(t: ReminderType): int {
    match t
    case Min60 => 3600000
    case Min10 => 600000
  }

  /** The threshold of each window equals its offset. */
  function ThresholdMs(t: ReminderType): int {
    match t
    case Min60 => 3600000
    case Min10 => 600000
  }

  /** `version` is history: how often the time of the call was changed. */
  datatype Call = Call(status: CallStatus, scheduledAt: int, createdAt: int, rescheduledAt: Option<int>, version: nat)

  datatype Event = Event(callId: nat, kind: ReminderType, version: nat, tickAt: int, scheduledAt: int, anchor: int)

  /** A stamp row; the version it was written for is history. */
  type Stamps = map<(nat, ReminderType), nat>

  /** One reminder of one schedule of a call. */
  datatype Reminder = Reminder(callId: nat, kind: ReminderType, version: nat)

  /** `loose` is history: the reminders that were queued although their stamp was taken back. */
  datatype Desk = Desk(calls: map<nat, Call>, stamps: Stamps, events: seq<Event>, nextId: nat, loose: set<Reminder>)

  datatype Result = Done | TooSoon | NotFound

  /**
   * How one reminder attempt ends. The stamp row is refused; or the event is queued and the stamp stays; or the
   * event fails and the stamp is removed again; or it fails and the stamp stays behind (removal failed, or the
   * process died); or the event row lands, the call throws all the same, and the stamp is removed.
   */
  datatype Outcome = StampFailed | Queued | RolledBack | StampStuck | QueuedUnstamped

  // ---------- create, update, remove ----------

  function Anchor(call: Call): int {
    if call.rescheduledAt.Some? then call.rescheduledAt.value else call.createdAt
  }

  function Created(d: Desk, scheduledAt: int, now: int): Desk {
    if scheduledAt < now + MIN_LEAD_MS then d
    else d.(calls := d.calls[d.nextId := Call(Scheduled, scheduledAt, now, None, 0)], nextId := d.nextId + 1)
  }

  predicate TimeChanges(call: Call, scheduledAt: Option<int>) {
    scheduledAt.Some? && scheduledAt.value != call.scheduledAt
  }

  predicate UpdateTooSoon(call: Call, scheduledAt: Option<int>, status: Option<CallStatus>, now: int) {
    && TimeChanges(call, scheduledAt)
    && status != Some(Cancelled) && status != Some(Completed)
    && scheduledAt.value < now + MIN_LEAD_MS
  }

  function UpdatedCall(call: Call, scheduledAt: Option<int>, status: Option<CallStatus>, now: int): Call {
    var changed := TimeChanges(call, scheduledAt);
    call.(scheduledAt := if scheduledAt.Some? then scheduledAt.value else call.scheduledAt,
          status := if status.Some? then status.value else call.status,
          rescheduledAt := if changed then Some(now) else call.rescheduledAt,
          version := if changed then call.version + 1 else call.version)
  }

  function WithoutStampsOf(stamps: Stamps, id: nat): Stamps {
    map k | k in stamps && k.0 != id :: stamps[k]
  }

  function Updated(d: Desk, id: nat, scheduledAt: Option<int>, status: Option<CallStatus>, now: int): Desk {
    if id !in d.calls || UpdateTooSoon(d.calls[id], scheduledAt, status, now) then d
    else d.(calls := d.calls[id := UpdatedCall(d.calls[id], scheduledAt, status, now)],
            stamps := if TimeChanges(d.calls[id], scheduledAt) then WithoutStampsOf(d.stamps, id) else d.stamps)
  }

  /** Deleting a call deletes its stamps with it. */
  function Removed(d: Desk, id: nat): Desk {
    if id !in d.calls then d
    else d.(calls := d.calls - {id}, stamps := WithoutStampsOf(d.stamps, id))
  }

  // ---------- one call in one window of one tick ----------

  predicate InWindow(call: Call, t: ReminderType, now: int) {
    && call.status == Scheduled
    && now + OffsetMs(t) - CATCHUP_WINDOW_MS <= call.scheduledAt <= now + OffsetMs(t) + CRON_INTERVAL_MS
  }

  predicate Due(call: Call, t: ReminderType, now: int) {
    InWindow(call, t, now) && call.scheduledAt > now && call.scheduledAt - Anchor(call) >= ThresholdMs(t)
  }

  function Attempted(d: Desk, id: nat, t: ReminderType, now: int, outcome: Outcome): Desk
    requires id in d.calls
  {
    var call := d.calls[id];
    if (id, t) in d.stamps then d
    else match outcome
      case StampFailed => d
      case RolledBack => d
      case StampStuck => d.(stamps := d.stamps[(id, t) := call.version])
      case Queued => d.(stamps := d.stamps[(id, t) := call.version],
                        events := d.events + [Event(id, t, call.version, now, call.scheduledAt, Anchor(call))])
      case QueuedUnstamped => d.(events := d.events + [Event(id, t, call.version, now, call.scheduledAt, Anchor(call))],
                                 loose := d.loose + {Reminder(id, t, call.version)})
  }

  function Handled(d: Desk, id: nat, t: ReminderType, now: int, outcome: Outcome): Desk {
    if id in d.calls && Due(d.calls[id], t, now) then Attempted(d, id, t, now, outcome) else d
  }

  /** One window of a tick, over the calls in the order the query returned them. */
  function WindowHandled(
      d: Desk, ids: seq<nat>, t: ReminderType, now: int, outcome: (nat, ReminderType) -> Outcome): Desk {
    if ids == [] then d
    else
      var id := ids[|ids| - 1];
      Handled(WindowHandled(d, ids[..|ids| - 1], t, now, outcome), id, t, now, outcome(id, t))
  }

  function Ticked(d: Desk, ids: seq<nat>, now: int, outcome: (nat, ReminderType) -> Outcome): Desk {
    WindowHandled(WindowHandled(d, ids, Min60, now, outcome), ids, Min10, now, outcome)
  }

  class CallService {
    var calls: map<nat, Call>
    var stamps: Stamps
    var events: seq<Event>
    var nextId: nat
    var running: bool
    ghost var loose: set<Reminder>

    ghost function State(): Desk
      reads this
    {
      Desk(calls, stamps, events, nextId, loose)
    }

    constructor ()
      ensures State() == EMPTY_DESK && !running
    {
      calls, stamps, events, nextId, running, loose := map[], map[], [], 0, false, {};
    }

    method Create(scheduledAt: int, now: int) returns (r: Result, id: nat)
      modifies this
      ensures State() == Created(old(State()), scheduledAt, now)
      ensures r == if scheduledAt < now + 1800000 then TooSoon else Done
      ensures r == Done ==> calls == old(calls)[id := Call(Scheduled, scheduledAt, now, None, 0)]
      ensures running == old(running) && id == old(nextId)
    {
      id := nextId;
      if scheduledAt < now + MIN_LEAD_MS { return TooSoon, id; }
      calls := calls[id := Call(Scheduled, scheduledAt, now, None, 0)];
      nextId := nextId + 1;
      r := Done;
    }

    method Update(id: nat, scheduledAt: Option<int>, status: Option<CallStatus>, now: int) returns (r: Result)
      modifies this
      ensures State() == Updated(old(State()), id, scheduledAt, status, now)
      ensures r == NotFound <==> id !in old(calls)
      ensures r == TooSoon <==>
              && id in old(calls) && scheduledAt.Some? && scheduledAt.value != old(calls)[id].scheduledAt
              && status != Some(Completed) && status != Some(Cancelled) && scheduledAt.value < now + 1800000
      ensures r == Done ==>
                && calls.Keys == old(calls).Keys && (forall k :: k in calls && k != id ==> calls[k] == old(calls)[k])
                && calls[id].status == (if status.Some? then status.value else old(calls)[id].status)
                && calls[id].scheduledAt == (if scheduledAt.Some? then scheduledAt.value
                                             else old(calls)[id].scheduledAt)
                && calls[id].createdAt == old(calls)[id].createdAt
                && calls[id].rescheduledAt == (if calls[id].scheduledAt != old(calls)[id].scheduledAt then Some(now)
                                               else old(calls)[id].rescheduledAt)
      ensures running == old(running)
    {
      if id !in calls { return NotFound; }
      var call := calls[id];
      var timeChanged := scheduledAt.Some? && scheduledAt.value != call.scheduledAt;
      if timeChanged && status != Some(Cancelled) && status != Some(Completed) {
        if scheduledAt.value < now + MIN_LEAD_MS { return TooSoon; }
      }
      var row := call;
      if scheduledAt.Some? { row := row.(scheduledAt := scheduledAt.value); }
      if status.Some? { row := row.(status := status.value); }
      if timeChanged { row := row.(rescheduledAt := Some(now), version := row.version + 1); }
      calls := calls[id := row];
      if timeChanged { stamps := WithoutStampsOf(stamps, id); }
      r := Done;
    }

    method Remove(id: nat) returns (r: Result)
      modifies this
      ensures State() == Removed(old(State()), id)
      ensures r == if id in old(calls) then Done else NotFound
      ensures calls == old(calls) - {id}
      ensures forall k :: k in stamps <==> k in old(stamps) && (r == NotFound || k.0 != id)
      ensures running == old(running)
    {
      if id !in calls { return NotFound; }
      calls := calls - {id};
      stamps := WithoutStampsOf(stamps, id);
      r := Done;
    }

    /** Stamp first, then queue the event; take the stamp back if queueing fails. */
    method SendReminderIdempotent(id: nat, t: ReminderType, now: int, outcome: Outcome)
      requires id in calls
      modifies this`stamps, this`events, this`loose
      ensures State() == Attempted(old(State()), id, t, now, outcome)
    {
      if (id, t) in stamps || outcome == StampFailed { return; }
      ghost var before := stamps;
      stamps := stamps[(id, t) := calls[id].version];
      if outcome == Queued || outcome == QueuedUnstamped {
        events := events + [Event(id, t, calls[id].version, now, calls[id].scheduledAt, Anchor(calls[id]))];
      }
      if outcome == RolledBack || outcome == QueuedUnstamped {
        stamps := stamps - {(id, t)};
        assert stamps == before;
      }
      if outcome == QueuedUnstamped { loose := loose + {Reminder(id, t, calls[id].version)}; }
    }

    method RunTick(ids: seq<nat>, now: int, outcome: (nat, ReminderType) -> Outcome)
      modifies this
      ensures State() == if old(running) then old(State()) else Ticked(old(State()), ids, now, outcome)
      ensures running == old(running)
    {
      if running { return; }
      Tick(ids, now, outcome);
    }

    /** `ids` is the order in which the query returns the calls; rows outside the window are not returned. */
    method Tick(ids: seq<nat>, now: int, outcome: (nat, ReminderType) -> Outcome)
      requires !running
      modifies this
      ensures State() == Ticked(old(State()), ids, now, outcome) && !running
    {
      running := true;
      var windows := [Min60, Min10];
      ghost var start := State();
      var w := 0;
      while w < 2
        invariant 0 <= w <= 2
        invariant State() == if w == 0 then start
                             else if w == 1 then WindowHandled(start, ids, Min60, now, outcome)
                             else Ticked(start, ids, now, outcome)
      {
        var t := windows[w];
        ghost var atWindow := State();
        var i := 0;
        while i < |ids|
          invariant 0 <= i <= |ids|
          invariant State() == WindowHandled(atWindow, ids[..i], t, now, outcome)
        {
          assert ids[..i + 1][..i] == ids[..i];
          var id := ids[i];
          if id in calls && InWindow(calls[id], t, now) {
            if calls[id].scheduledAt > now && calls[id].scheduledAt - Anchor(calls[id]) >= ThresholdMs(t) {
              SendReminderIdempotent(id, t, now, outcome(id, t));
            }
          }
          i := i + 1;
        }
        assert ids[..i] == ids;
        w := w + 1;
      }
      running := false;
    }
  }

  // ---------- runs: any interleaving, one call handled at a time ----------

  datatype Step =
    | Create(scheduledAt: int, now: int)
    | Update(id: nat, newTime: Option<int>, status: Option<CallStatus>, now: int)
    | Remove(id: nat)
    | Handle(id: nat, kind: ReminderType, now: int, outcome: Outcome)

  function Apply(d: Desk, step: Step): Desk {
    match step
    case Create(scheduledAt, now) => Created(d, scheduledAt, now)
    case Update(id, newTime, status, now) => Updated(d, id, newTime, status, now)
    case Remove(id) => Removed(d, id)
    case Handle(id, t, now, outcome) => Handled(d, id, t, now, outcome)
  }

  function Run(d: Desk, steps: seq<Step>): Desk
    decreases |steps|
  {
    if steps == [] then d else Run(Apply(d, steps[0]), steps[1..])
  }

  const EMPTY_DESK := Desk(map[], map[], [], 0, {})

  /** Queued for a call that had not started, inside its window, with enough notice given. */
  predicate WellTimed(e: Event) {
    && e.tickAt < e.scheduledAt
    && OffsetMs(e.kind) - CATCHUP_WINDOW_MS <= e.scheduledAt - e.tickAt <= OffsetMs(e.kind) + CRON_INTERVAL_MS
    && e.scheduledAt - e.anchor >= ThresholdMs(e.kind)
  }

  function ReminderOf(e: Event): Reminder { Reminder(e.callId, e.kind, e.version) }

  ghost predicate StampsCurrent(d: Desk) {
    forall k :: k in d.stamps ==> k.0 in d.calls && d.stamps[k] == d.calls[k.0].version
  }

  /** What the event says about the call, as long as the call exists and was not moved since. */
  predicate EventFits(d: Desk, e: Event) {
    && WellTimed(e)
    && e.callId < d.nextId
    && (e.callId in d.calls ==>
          var call := d.calls[e.callId];
          && e.version <= call.version
          && (e.version == call.version ==>
                && ((e.callId, e.kind) in d.stamps || ReminderOf(e) in d.loose)
                && e.scheduledAt == call.scheduledAt && e.anchor == Anchor(call)))
  }

  ghost predicate DeskInv(d: Desk) {
    && (forall id :: id in d.calls ==> id < d.nextId)
    && StampsCurrent(d)
    && (forall p :: 0 <= p < |d.events| ==> EventFits(d, d.events[p]))
    && (forall r :: r in d.loose ==> exists p :: 0 <= p < |d.events| && ReminderOf(d.events[p]) == r)
  }

  lemma EventStillFits(d: Desk, step: Step, e: Event)
    requires DeskInv(d) && EventFits(d, e)
    ensures EventFits(Apply(d, step), e)
  {
  }

  lemma NewEventFits(d: Desk, step: Step)
    requires DeskInv(d) && Queues(d, step)
    ensures EventFits(Apply(d, step), Apply(d, step).events[|d.events|])
  {
  }

  lemma DeskStep(d: Desk, step: Step)
    requires DeskInv(d)
    ensures DeskInv(Apply(d, step))
  {
    var d' := Apply(d, step);
    StepEvents(d, step);
    forall p | 0 <= p < |d'.events| ensures EventFits(d', d'.events[p]) {
      if p < |d.events| { EventStillFits(d, step, d.events[p]); } else { NewEventFits(d, step); }
    }
    forall r | r in d'.loose ensures exists p :: 0 <= p < |d'.events| && ReminderOf(d'.events[p]) == r {
      if r in d.loose {
        var p :| 0 <= p < |d.events| && ReminderOf(d.events[p]) == r;
        assert d'.events[p] == d.events[p];
      } else {
        assert ReminderOf(d'.events[|d.events|]) == r;
      }
    }
  }

  lemma {:induction false} DeskAlways(d: Desk, steps: seq<Step>)
    requires DeskInv(d)
    ensures DeskInv(Run(d, steps))
    decreases |steps|
  {
    if steps == [] {
    } else {
      DeskStep(d, steps[0]);
      DeskAlways(Apply(d, steps[0]), steps[1..]);
    }
  }

  // ---------- no reminder twice, and exactly when there is one ----------

  /** No two events remind of the same schedule of a call. */
  ghost predicate Once(events: seq<Event>) {
    forall p, q :: 0 <= p < q < |events| ==> ReminderOf(events[p]) != ReminderOf(events[q])
  }

  /** The step queues an event. */
  predicate Queues(d: Desk, step: Step) {
    && step.Handle? && step.id in d.calls && Due(d.calls[step.id], step.kind, step.now)
    && (step.id, step.kind) !in d.stamps && step.outcome in {Queued, QueuedUnstamped}
  }

  function QueuedBy(d: Desk, step: Step): Reminder
    requires Queues(d, step)
  {
    Reminder(step.id, step.kind, d.calls[step.id].version)
  }

  lemma StepEvents(d: Desk, step: Step)
    ensures Queues(d, step) ==> |Apply(d, step).events| == |d.events| + 1
                                && Apply(d, step).events[..|d.events|] == d.events
                                && ReminderOf(Apply(d, step).events[|d.events|]) == QueuedBy(d, step)
                                && Apply(d, step).events[|d.events|].tickAt == step.now
    ensures !Queues(d, step) ==> Apply(d, step).events == d.events
    ensures Apply(d, step).loose
         == d.loose + if Queues(d, step) && step.outcome == QueuedUnstamped then {QueuedBy(d, step)} else {}
  {
  }

  /** A step repeats a reminder exactly when it queues one that was queued before and lost its stamp. */
  lemma RepeatsExactlyWhen(d: Desk, step: Step)
    requires DeskInv(d)
    ensures Once(Apply(d, step).events) <==> Once(d.events) && !(Queues(d, step) && QueuedBy(d, step) in d.loose)
  {
    StepEvents(d, step);
    var events' := Apply(d, step).events;
    if Queues(d, step) {
      var n := |d.events|;
      assert forall p :: 0 <= p < n ==> events'[p] == d.events[p];
      if QueuedBy(d, step) in d.loose {
        var p :| 0 <= p < n && ReminderOf(d.events[p]) == QueuedBy(d, step);
        assert ReminderOf(events'[p]) == ReminderOf(events'[n]);
      } else {
        forall p | 0 <= p < n ensures ReminderOf(events'[p]) != QueuedBy(d, step) {
          assert EventFits(d, d.events[p]);
        }
      }
    }
  }

  /** The desk after the first i steps of a run from nothing. */
  function After(steps: seq<Step>, i: nat): Desk
    requires i <= |steps|
  {
    Run(EMPTY_DESK, steps[..i])
  }

  lemma AfterNext(steps: seq<Step>, i: nat)
    requires i < |steps|
    ensures After(steps, i + 1) == Apply(After(steps, i), steps[i])
  {
    assert steps[..i + 1] == steps[..i] + [steps[i]];
    RunAppend(EMPTY_DESK, steps[..i], [steps[i]]);
    assert [steps[i]][1..] == [];
  }

  predicate QueuesAt(steps: seq<Step>, i: nat, r: Reminder) {
    i < |steps| && Queues(After(steps, i), steps[i]) && QueuedBy(After(steps, i), steps[i]) == r
  }

  /** Step i queues the reminder, yet its call throws and the stamp is taken back. */
  predicate LosesStampAt(steps: seq<Step>, i: nat, r: Reminder) {
    QueuesAt(steps, i, r) && steps[i].outcome == QueuedUnstamped
  }

  lemma {:induction false} LooseMeans(steps: seq<Step>, n: nat, r: Reminder)
    requires n <= |steps|
    ensures r in After(steps, n).loose <==> exists i :: 0 <= i < n && LosesStampAt(steps, i, r)
  {
    if n == 0 {
    } else {
      LooseMeans(steps, n - 1, r);
      AfterNext(steps, n - 1);
      StepEvents(After(steps, n - 1), steps[n - 1]);
      assert r in After(steps, n).loose <==> r in After(steps, n - 1).loose || LosesStampAt(steps, n - 1, r);
    }
  }

  /** A later step queues again what an earlier one queued without keeping the stamp. */
  ghost predicate RepeatsBefore(steps: seq<Step>, n: nat) {
    exists i, k, r :: 0 <= i < k < n && LosesStampAt(steps, i, r) && QueuesAt(steps, k, r)
  }

  lemma AfterInv(steps: seq<Step>, n: nat)
    requires n <= |steps|
    ensures DeskInv(After(steps, n))
  {
    DeskAlways(EMPTY_DESK, steps[..n]);
  }

  lemma {:induction false} OnceUpTo(steps: seq<Step>, n: nat)
    requires n <= |steps|
    ensures Once(After(steps, n).events) <==> !RepeatsBefore(steps, n)
  {
    if n == 0 {
    } else {
      var d, step := After(steps, n - 1), steps[n - 1];
      OnceUpTo(steps, n - 1);
      AfterNext(steps, n - 1);
      AfterInv(steps, n - 1);
      RepeatsExactlyWhen(d, step);
      RepeatsNext(steps, n - 1);
    }
  }

  lemma RepeatsNext(steps: seq<Step>, n: nat)
    requires n < |steps|
    ensures RepeatsBefore(steps, n + 1)
       <==> (RepeatsBefore(steps, n)
             || (Queues(After(steps, n), steps[n]) && QueuedBy(After(steps, n), steps[n]) in After(steps, n).loose))
  {
    var d, step := After(steps, n), steps[n];
    if Queues(d, step) {
      var r := QueuedBy(d, step);
      LooseMeans(steps, n, r);
      assert QueuesAt(steps, n, r);
    }
    if RepeatsBefore(steps, n + 1) {
      var i, k, r :| 0 <= i < k < n + 1 && LosesStampAt(steps, i, r) && QueuesAt(steps, k, r);
      if k == n { LooseMeans(steps, n, r); }
    }
  }

  /**
   * Over every run: a stamp always belongs to the call's current schedule, every reminder was queued in time for a
   * call that had not started, and no schedule gets the same reminder twice, except exactly when a step queues
   * again what an earlier one queued while its call threw and the stamp was taken back.
   */
  lemma RemindersAreSafe(steps: seq<Step>)
    ensures var d := Run(EMPTY_DESK, steps);
            && StampsCurrent(d)
            && (forall p :: 0 <= p < |d.events| ==> WellTimed(d.events[p]))
            && (Once(d.events) <==> !RepeatsBefore(steps, |steps|))
  {
    var d := Run(EMPTY_DESK, steps);
    DeskAlways(EMPTY_DESK, steps);
    forall p | 0 <= p < |d.events| ensures WellTimed(d.events[p]) { assert EventFits(d, d.events[p]); }
    OnceUpTo(steps, |steps|);
    assert steps[..|steps|] == steps;
  }

  // ---------- what an operator last said about a call ----------

  /** The step creates the call or moves it, and is not refused for coming too late. */
  predicate SetsStart(d: Desk, step: Step, id: nat) {
    match step
    case Create(start, now) => id == d.nextId && start >= now + 1800000
    case Update(i, newTime, _, _) =>
      && i == id && GoesThrough(d, step) && newTime.Some? && newTime.value != d.calls[id].scheduledAt
    case _ => false
  }

  /** A move within the next half hour is refused, unless the same update finishes or cancels the call. */
  predicate GoesThrough(d: Desk, step: Step) {
    && step.Update? && step.id in d.calls
    && (step.newTime.None? || step.newTime.value == d.calls[step.id].scheduledAt
        || step.status == Some(Completed) || step.status == Some(Cancelled)
        || step.newTime.value >= step.now + 1800000)
  }

  predicate SetsStatus(d: Desk, step: Step, id: nat) {
    (step.Create? && SetsStart(d, step, id)) || (GoesThrough(d, step) && step.id == id && step.status.Some?)
  }

  function StartSet(step: Step): int
    requires step.Create? || (step.Update? && step.newTime.Some?)
  {
    if step.Create? then step.scheduledAt else step.newTime.value
  }

  function StatusSet(step: Step): CallStatus
    requires step.Create? || (step.Update? && step.status.Some?)
  {
    if step.Create? then Scheduled else step.status.value
  }

  /** Step j set the start the call still has before step n. */
  ghost predicate LastStart(steps: seq<Step>, j: nat, n: nat, id: nat)
    requires n <= |steps|
  {
    && j < n && SetsStart(After(steps, j), steps[j], id)
    && forall k :: j < k < n ==> !SetsStart(After(steps, k), steps[k], id)
  }

  ghost predicate LastStatus(steps: seq<Step>, j: nat, n: nat, id: nat)
    requires n <= |steps|
  {
    && j < n && SetsStatus(After(steps, j), steps[j], id)
    && forall k :: j < k < n ==> !SetsStatus(After(steps, k), steps[k], id)
  }

  lemma StepSets(d: Desk, step: Step, id: nat)
    requires DeskInv(d) && id in Apply(d, step).calls
    ensures var call := Apply(d, step).calls[id];
            && (SetsStart(d, step, id) ==> call.scheduledAt == StartSet(step) && Anchor(call) == step.now)
            && (SetsStatus(d, step, id) ==> call.status == StatusSet(step))
            && (!SetsStart(d, step, id) ==>
                  id in d.calls && call.scheduledAt == d.calls[id].scheduledAt && Anchor(call) == Anchor(d.calls[id]))
            && (!SetsStatus(d, step, id) ==> id in d.calls && call.status == d.calls[id].status)
  {
  }

  /** A call has the start, the anchor and the status that the last steps to set them gave it. */
  lemma {:induction false} CallIsAsLastSet(steps: seq<Step>, n: nat, id: nat) returns (start: nat, status: nat)
    requires n <= |steps| && id in After(steps, n).calls
    ensures LastStart(steps, start, n, id) && LastStatus(steps, status, n, id)
    ensures var call := After(steps, n).calls[id];
            && call.scheduledAt == StartSet(steps[start]) && Anchor(call) == steps[start].now
            && call.status == StatusSet(steps[status])
  {
    if n > 0 {
      var d, step := After(steps, n - 1), steps[n - 1];
      AfterNext(steps, n - 1);
      AfterInv(steps, n - 1);
      StepSets(d, step, id);
      start, status := n - 1, n - 1;
      if id in d.calls {
        var start', status' := CallIsAsLastSet(steps, n - 1, id);
        if !SetsStart(d, step, id) { start := start'; }
        if !SetsStatus(d, step, id) { status := status'; }
      }
    }
  }

  /**
   * Over every run, a step queues a reminder exactly when its attempt goes well and no stamp of it is left, the
   * status last set for the call is scheduled, and the start last set for it lies at least an hour (ten minutes)
   * after the step that set it, in the future, and 50 to 65 minutes (up to 15 minutes) ahead.
   */
  lemma ReminderIsQueuedExactlyWhen(steps: seq<Step>, k: nat, start: nat, status: nat)
    requires k < |steps| && steps[k].Handle? && steps[k].id in After(steps, k).calls
    requires LastStart(steps, start, k, steps[k].id) && LastStatus(steps, status, k, steps[k].id)
    ensures Queues(After(steps, k), steps[k]) <==>
            var step, at := steps[k], StartSet(steps[start]);
            && step.outcome in {Queued, QueuedUnstamped} && (step.id, step.kind) !in After(steps, k).stamps
            && StatusSet(steps[status]) == Scheduled
            && step.now < at
            && (if step.kind == Min60 then 3000000 <= at - step.now <= 3900000 else at - step.now <= 900000)
            && at - steps[start].now >= if step.kind == Min60 then 3600000 else 600000
  {
    var start', status' := CallIsAsLastSet(steps, k, steps[k].id);
    assert start == start' && status == status';
  }

  /** Ids are never used again, so a removed call is gone for the rest of the run and gets no reminder any more. */
  lemma {:induction false} RemovedIsNotReminded(steps: seq<Step>, j: nat, k: nat, r: Reminder)
    requires j < k < |steps| && steps[j] == Remove(r.callId) && r.callId < After(steps, j).nextId
    ensures r.callId !in After(steps, k).calls && r.callId < After(steps, k).nextId
    ensures !QueuesAt(steps, k, r)
    decreases k
  {
    AfterNext(steps, k - 1);
    if j < k - 1 { RemovedIsNotReminded(steps, j, k - 1, r); }
  }

  /** Once a call is finished or cancelled, no attempt does anything until an update schedules it again. */
  lemma FinishedIsNotReminded(
      d: Desk, id: nat, newTime: Option<int>, status: CallStatus, now: int, t: ReminderType, later: int, o: Outcome)
    requires id in d.calls && status != Scheduled
    ensures var done := Updated(d, id, newTime, Some(status), now);
            && id in done.calls && done.calls[id].status == status
            && Handled(done, id, t, later, o) == done
  {
  }

  /** One landed event whose call threw, five minutes before the next tick, is enough for two reminders. */
  lemma LandedThrowRepeats() returns (steps: seq<Step>)
    ensures !Once(Run(EMPTY_DESK, steps).events)
    ensures |steps| == 3 && steps[1] == Handle(0, Min60, 0, QueuedUnstamped)
    ensures steps[2] == Handle(0, Min60, CRON_INTERVAL_MS, Queued)
  {
    var create, first, second :=
      Create(3600000, 0), Handle(0, Min60, 0, QueuedUnstamped), Handle(0, Min60, CRON_INTERVAL_MS, Queued);
    steps := [create, first, second];
    var d1 := Apply(EMPTY_DESK, create);
    var d2 := Apply(d1, first);
    var d3 := Apply(d2, second);
    assert steps[1..] == [first, second] && [first, second][1..] == [second] && [second][1..] == [];
    assert Run(EMPTY_DESK, steps) == Run(d1, [first, second]) == Run(d2, [second]) == Run(d3, []) == d3;
    assert ReminderOf(d3.events[0]) == ReminderOf(d3.events[1]);
  }

  /** A tick of the service is such a run, so the invariant holds between and inside ticks. */
  lemma {:induction false} WindowIsARun(
      d: Desk, ids: seq<nat>, t: ReminderType, now: int, outcome: (nat, ReminderType) -> Outcome)
    returns (steps: seq<Step>)
    ensures Run(d, steps) == WindowHandled(d, ids, t, now, outcome)
    ensures |steps| == |ids| && forall i :: 0 <= i < |ids| ==> steps[i] == Handle(ids[i], t, now, outcome(ids[i], t))
  {
    steps := [];
    if ids == [] {
    } else {
      var id := ids[|ids| - 1];
      var before := WindowIsARun(d, ids[..|ids| - 1], t, now, outcome);
      var last := Handle(id, t, now, outcome(id, t));
      RunAppend(d, before, [last]);
      assert [last][1..] == [];
      assert Run(Run(d, before), [last]) == Apply(Run(d, before), last);
      steps := before + [last];
    }
  }

  /** A whole tick is a run as well: all the calls in the 60-minute window, then all of them in the 10-minute one. */
  lemma TickIsARun(d: Desk, ids: seq<nat>, now: int, outcome: (nat, ReminderType) -> Outcome)
    returns (steps: seq<Step>)
    ensures Run(d, steps) == Ticked(d, ids, now, outcome)
    ensures |steps| == 2 * |ids|
    ensures forall i :: 0 <= i < |ids| ==> steps[i] == Handle(ids[i], Min60, now, outcome(ids[i], Min60))
    ensures forall i :: 0 <= i < |ids| ==> steps[|ids| + i] == Handle(ids[i], Min10, now, outcome(ids[i], Min10))
  {
    var hour := WindowIsARun(d, ids, Min60, now, outcome);
    var ten := WindowIsARun(Run(d, hour), ids, Min10, now, outcome);
    RunAppend(d, hour, ten);
    steps := hour + ten;
  }

  lemma {:induction false} RunAppend(d: Desk, a: seq<Step>, b: seq<Step>)
    ensures Run(d, a + b) == Run(Run(d, a), b)
    decreases |a|
  {
    if a == [] {
      assert a + b == b;
    } else {
      assert (a + b)[1..] == a[1..] + b;
      RunAppend(Apply(d, a[0]), a[1..], b);
    }
  }
}
