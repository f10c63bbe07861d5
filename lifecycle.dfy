/** The record-level logic of the home screen: the remaining time a timer
    shows, its status, the one-second tick, the play/pause toggle, reset, and
    the bulk run/pause/reset map. Every clock reading is the parameter `now`
    (milliseconds since the epoch). */
module Lifecycle {
  import opened Timers

  /** `actualRemainingTime`: the stored value when paused, otherwise the
      stored value minus the time elapsed since `startTime`. */
  function ActualRemaining(t: Timer, now: int): (r: int)
    ensures IsPaused(t) ==> r == t.remainingDuration
    ensures !IsPaused(t) ==> r == t.remainingDuration - (now - StartMs(t))
  {
    if IsPaused(t) then t.remainingDuration else StartMs(t) - now + t.remainingDuration
  }

  /** The `time` a timer card shows when it is mounted. */
  function ShownTime(t: Timer, now: int): (r: int)
    ensures r >= 0 && r >= ActualRemaining(t, now)
    ensures r == ActualRemaining(t, now) || r == 0
  {
    var actual := ActualRemaining(t, now);
    if actual > 0 then actual else 0
  }

  datatype Status = Completed | Paused | Running

  /** The status label of a card, from its `pause` and `time` state. */
  function StatusOf(pause: bool, time: int): (s: Status)
    ensures s == Completed <==> time <= 0
    ensures s == Paused <==> pause && time > 0
    ensures s == Running <==> !pause && time > 0
  {
    if pause && time > 0 then Paused
    else if time > 0 then Running
    else Completed
  }

  /** `Math.ceil(time / 1000)`, the whole seconds a card prints. */
  function DisplaySeconds(time: int): (secs: int)
    ensures (secs - 1) * 1000 < time <= secs * 1000
  {
    if time >= 0 then (time + 999) / 1000 else -((-time) / 1000)
  }

  /** A card never prints a negative number of seconds while its time stays above -1000. */
  lemma DisplayNeverNegative(time: int)
    requires time > -1000
    ensures DisplaySeconds(time) >= 0
  {
  }

  /** What one firing of the interval does to `time`, and whether it is the
      firing that detects completion (and so stops the interval and appends
      the timer to history). */
  datatype TickResult = TickResult(next: int, completes: bool)

  function TickStep(prev: int): (r: TickResult)
    ensures r.completes <==> prev <= 0
    ensures r.completes ==> r.next == 0
    ensures !r.completes ==> r.next == prev - 1000
    ensures prev > -1000 ==> r.next > -1000
  {
    if prev <= 0 then TickResult(0, true) else TickResult(prev - 1000, false)
  }

  /** The number of firings, from a card showing `time`, up to and including
      the one that detects completion. Completion is detected one firing
      after the shown time first drops to zero or below. */
  function TicksToComplete(time: int): (n: nat)
    ensures n == if time <= 0 then 1 else (time + 999) / 1000 + 1
    decreases if time > 0 then time else 0
  {
    var step := TickStep(time);
    if step.completes then 1 else 1 + TicksToComplete(step.next)
  }

  /** `resumeTimer`'s new record: paused toggled, restarted at `now`, and
      the card's current `time` stored as the remaining duration. */
  function Resumed(item: Timer, time: int, now: int): (r: Timer)
    ensures SameIdentity(r, item)
    ensures IsPaused(r) == !IsPaused(item) && r.paused.Some?
    ensures r.startTime == Some(now) && r.remainingDuration == time
    ensures ActualRemaining(r, now) == time
  {
    item.(paused := Some(!IsPaused(item)), startTime := Some(now), remainingDuration := time)
  }

  /** The reset record (single `reset` and `updateAll('reset')`): paused at
      full duration, with the start time set to `now` rather than cleared. */
  function Reset(item: Timer, now: int): (r: Timer)
    ensures SameIdentity(r, item)
    ensures IsPaused(r) && r.startTime == Some(now) && r.remainingDuration == item.duration
    ensures forall later :: ActualRemaining(r, later) == item.duration
  {
    item.(paused := Some(true), startTime := Some(now), remainingDuration := item.duration)
  }

  /** Resetting a reset record at the same instant gives it back unchanged. */
  lemma ResetIdempotent(item: Timer, now: int)
    ensures Reset(Reset(item, now), now) == Reset(item, now)
  {
  }

  datatype BulkOp = RunAll | PauseAll | ResetAll

  /** One record under `updateAll(op)`. */
  function BulkUpdated(op: BulkOp, t: Timer, now: int): (r: Timer)
    ensures SameIdentity(r, t)
    ensures op == RunAll && !IsPaused(t) ==> r == t
    ensures op == RunAll && IsPaused(t) ==>
      !IsPaused(r) && r.startTime == Some(now) && r.remainingDuration == t.remainingDuration
    ensures op == PauseAll && IsPaused(t) ==> r == t
    ensures op == PauseAll && !IsPaused(t) ==>
      IsPaused(r) && r.startTime == t.startTime && r.remainingDuration == ShownTime(t, now)
    ensures op == PauseAll ==> r.remainingDuration >= 0 || r == t
    ensures op == ResetAll ==> r == Reset(t, now)
  {
    match op
    case RunAll =>
      if !IsPaused(t) then t else t.(paused := Some(false), startTime := Some(now))
    case PauseAll =>
      if IsPaused(t) then t
      else
        var actual := StartMs(t) - now + t.remainingDuration;
        t.(paused := Some(true), remainingDuration := if actual > 0 then actual else 0)
    case ResetAll => Reset(t, now)
  }

  /** `updateAll(op)` over the whole list: a map, so length and order are kept. */
  function UpdateAllList(op: BulkOp, ts: seq<Timer>, now: int): (r: seq<Timer>)
    ensures |r| == |ts|
    ensures forall i :: 0 <= i < |ts| ==> r[i] == BulkUpdated(op, ts[i], now)
  {
    if ts == [] then [] else [BulkUpdated(op, ts[0], now)] + UpdateAllList(op, ts[1..], now)
  }

  /** Every bulk operation keeps each position's id, name, category and duration. */
  lemma UpdateAllKeepsIdentity(op: BulkOp, ts: seq<Timer>, now: int)
    ensures |UpdateAllList(op, ts, now)| == |ts|
    ensures forall i :: 0 <= i < |ts| ==> SameIdentity(UpdateAllList(op, ts, now)[i], ts[i])
  {
  }

  /** Running or pausing everything does not change the time any card would
      show at that instant; resetting shows the full duration. */
  lemma BulkKeepsShownTime(op: BulkOp, t: Timer, now: int)
    ensures op != ResetAll ==> ShownTime(BulkUpdated(op, t, now), now) == ShownTime(t, now)
    ensures op == ResetAll ==> ActualRemaining(BulkUpdated(op, t, now), now) == t.duration
  {
  }

  /** Applying the same bulk operation twice at one instant is the same as applying it once. */
  lemma {:induction false} UpdateAllIdempotent(op: BulkOp, ts: seq<Timer>, now: int)
    ensures UpdateAllList(op, UpdateAllList(op, ts, now), now) == UpdateAllList(op, ts, now)
  {
    var once := UpdateAllList(op, ts, now);
    var twice := UpdateAllList(op, once, now);
    forall i | 0 <= i < |ts|
      ensures twice[i] == once[i]
    {
      assert once[i] == BulkUpdated(op, ts[i], now);
    }
  }

  /** Elapsed time adds up across a pause and a restart: running, pausing,
      running and pausing again leaves what one pause over the two running
      stretches would leave. */
  lemma PauseResumeAdditive(t: Timer, t1: int, t2: int, t3: int, t4: int)
    requires IsPaused(t) && t.remainingDuration >= 0
    requires t3 <= t4
    ensures var r1 := BulkUpdated(RunAll, t, t1);
            var r2 := BulkUpdated(PauseAll, r1, t2);
            var r3 := BulkUpdated(RunAll, r2, t3);
            var r4 := BulkUpdated(PauseAll, r3, t4);
            var single := t.remainingDuration - (t2 - t1) - (t4 - t3);
            r4.remainingDuration == (if single > 0 then single else 0)
  {
  }

  /** A 300000 ms timer, reset and then started with the Play control at
      t = 0: at t = 120000 it has 180000 ms left and is running. Paused by
      "Pause All" at t = 50000 it keeps 250000 ms; run again by "Run All" at
      t = 80000, it has 230000 ms left at t = 100000. A 1000 ms timer started
      at t = 0 shows 0, "Completed", from t = 1000 on. */
  lemma TeaScenario(t: Timer, resetAt: int)
    requires t.duration == 300000
    ensures var started := Resumed(Reset(t, resetAt), 300000, 0);
            && ActualRemaining(started, 120000) == 180000
            && StatusOf(IsPaused(started), ShownTime(started, 120000)) == Running
            && BulkUpdated(PauseAll, started, 50000).remainingDuration == 250000
            && ActualRemaining(BulkUpdated(RunAll, BulkUpdated(PauseAll, started, 50000), 80000), 100000) == 230000
    ensures forall later :: later >= 1000 ==>
              var short := Resumed(Reset(t.(duration := 1000), resetAt), 1000, 0);
              ShownTime(short, later) == 0 && StatusOf(IsPaused(short), ShownTime(short, later)) == Completed
  {
  }

  /** The position `findIndex` returns for `id`, -1 when no timer has it. */
  function IndexOf(ts: seq<Timer>, id: string): (k: int)
    ensures -1 <= k < |ts|
    ensures k == -1 <==> forall i :: 0 <= i < |ts| ==> ts[i].id != id
    ensures k >= 0 ==> ts[k].id == id && forall j :: 0 <= j < k ==> ts[j].id != id
  {
    if ts == [] then -1
    else if ts[0].id == id then 0
    else
      var k := IndexOf(ts[1..], id);
      if k == -1 then -1 else k + 1
  }

  predicate HasId(ts: seq<Timer>, id: string) {
    exists i :: 0 <= i < |ts| && ts[i].id == id
  }

  /** `timers[index] = r` where `index` is the first position holding `id`. */
  function ReplaceById(ts: seq<Timer>, id: string, r: Timer): (out: seq<Timer>)
    requires HasId(ts, id)
    ensures |out| == |ts|
    ensures out[IndexOf(ts, id)] == r
    ensures forall i :: 0 <= i < |ts| && i != IndexOf(ts, id) ==> out[i] == ts[i]
  {
    ts[IndexOf(ts, id) := r]
  }

  /** Putting a record with the same id at that position leaves the id's position unchanged. */
  lemma IndexOfAfterReplace(ts: seq<Timer>, id: string, r: Timer)
    requires HasId(ts, id) && r.id == id
    ensures HasId(ReplaceById(ts, id, r), id)
    ensures IndexOf(ReplaceById(ts, id, r), id) == IndexOf(ts, id)
  {
    var k := IndexOf(ts, id);
    var out := ReplaceById(ts, id, r);
    assert out[k].id == id;
  }

  /** Pressing reset twice at one instant leaves the list as one press does,
      whether the second press uses the card's old record or the reset one. */
  lemma ResetTwice(ts: seq<Timer>, item: Timer, now: int)
    requires HasId(ts, item.id)
    ensures var once := ReplaceById(ts, item.id, Reset(item, now));
            HasId(once, item.id)
            && ReplaceById(once, item.id, Reset(item, now)) == once
            && ReplaceById(once, item.id, Reset(Reset(item, now), now)) == once
  {
    IndexOfAfterReplace(ts, item.id, Reset(item, now));
  }
}
