/**
 * The Timer record and the changes the store makes to one timer: flipping
 * `isRunning`, the once-per-second tick, restarting, and merging an edit.
 */
module Timers {
  import opened Wrappers

  /** Timer identifiers are opaque strings (the store draws them from `crypto.randomUUID()`). */
  type Id = string

  /** One countdown. `remainingTime` is an `int`: ticking a running timer at 0 drives it to -1. */
  datatype Timer = Timer(
    id: Id,
    name: string,
    createdAt: int,
    duration: int,
    remainingTime: int,
    isRunning: bool)

  /** What a caller passes to `addTimer`: a Timer without `id` and `createdAt`. */
  datatype TimerFields = TimerFields(
    name: string,
    duration: int,
    remainingTime: int,
    isRunning: bool)

  /** What a caller passes to `editTimer`: any subset of the fields except `id`. */
  datatype TimerUpdates = TimerUpdates(
    name: Option<string>,
    createdAt: Option<int>,
    duration: Option<int>,
    remainingTime: Option<int>,
    isRunning: Option<bool>)

  const NoUpdates := TimerUpdates(None, None, None, None, None)

  /** The record `addTimer` pushes: the caller's fields, then the store's id and timestamp. */
  function NewTimer(fields: TimerFields, id: Id, createdAt: int): (t: Timer)
    ensures t.id == id && t.createdAt == createdAt
    ensures t.name == fields.name && t.duration == fields.duration
    ensures t.remainingTime == fields.remainingTime && t.isRunning == fields.isRunning
  {
    Timer(id, fields.name, createdAt, fields.duration, fields.remainingTime, fields.isRunning)
  }

  /** `toggleTimer` on the timer it found. */
  function Toggle(t: Timer): (r: Timer)
    ensures r.isRunning != t.isRunning
    ensures r.(isRunning := t.isRunning) == t
  {
    t.(isRunning := !t.isRunning)
  }

  /** `updateTimer` on the timer it found: a running timer loses one second and stops once nothing is left. */
  function Tick(t: Timer): (r: Timer)
    ensures r.isRunning ==> r.remainingTime > 0
    ensures !t.isRunning ==> r == t
    ensures t.isRunning ==> r.remainingTime == t.remainingTime - 1
    ensures t.isRunning ==> (r.isRunning <==> r.remainingTime > 0)
    ensures t.isRunning && t.remainingTime > 1 ==> r.isRunning
    ensures r.(remainingTime := t.remainingTime, isRunning := t.isRunning) == t
  {
    if t.isRunning then
      var left := t.remainingTime - 1;
      t.(remainingTime := left, isRunning := left > 0)
    else
      t
  }

  /** `restartTimer` on the timer it found. */
  function Restart(t: Timer): (r: Timer)
    ensures r.remainingTime == r.duration && !r.isRunning
    ensures r.(remainingTime := t.remainingTime, isRunning := t.isRunning) == t
  {
    t.(remainingTime := t.duration, isRunning := false)
  }

  /** `Object.assign(timer, updates)`: every field the updates carry overwrites the timer's. */
  function Merge(t: Timer, u: TimerUpdates): (r: Timer)
    ensures r.id == t.id
    ensures r.name == u.name.GetOr(t.name) && r.createdAt == u.createdAt.GetOr(t.createdAt)
    ensures r.duration == u.duration.GetOr(t.duration)
    ensures r.remainingTime == u.remainingTime.GetOr(t.remainingTime)
    ensures r.isRunning == u.isRunning.GetOr(t.isRunning)
    ensures u == NoUpdates ==> r == t
  {
    Timer(
      t.id,
      u.name.GetOr(t.name),
      u.createdAt.GetOr(t.createdAt),
      u.duration.GetOr(t.duration),
      u.remainingTime.GetOr(t.remainingTime),
      u.isRunning.GetOr(t.isRunning))
  }

  /**
   * `editTimer` on the timer it found: merge, then reset `remainingTime` to
   * `updates.duration || timer.duration` (JavaScript's `||`, under which 0 is
   * falsy) and stop the timer.
   */
  function Edit(t: Timer, u: TimerUpdates): (r: Timer)
    ensures r.id == t.id
    ensures !r.isRunning && r.remainingTime == r.duration
    ensures r.duration == u.duration.GetOr(t.duration)
    ensures r.name == u.name.GetOr(t.name) && r.createdAt == u.createdAt.GetOr(t.createdAt)
  {
    var merged := Merge(t, u);
    var reset := if u.duration.Some? && u.duration.value != 0 then u.duration.value else merged.duration;
    merged.(remainingTime := reset, isRunning := false)
  }

  /** The timer after `k` ticks. */
  function TickTimes(t: Timer, k: nat): Timer
  {
    if k == 0 then t else Tick(TickTimes(t, k - 1))
  }

  /** The bound a restart or an edit establishes. */
  predicate Bounded(t: Timer)
  {
    t.remainingTime <= t.duration
  }

  /** Toggling twice gives back the timer. */
  lemma ToggleTwice(t: Timer)
    ensures Toggle(Toggle(t)) == t
  {
  }

  /** Restarting a timer a second time changes nothing more. */
  lemma RestartIdempotent(t: Timer)
    ensures Restart(Restart(t)) == Restart(t)
  {
  }

  /** An edit that carries no field is a restart. */
  lemma EditWithoutUpdatesIsRestart(t: Timer)
    ensures Edit(t, NoUpdates) == Restart(t)
  {
  }

  /** Editing twice with the same updates is editing once. */
  lemma EditIdempotent(t: Timer, u: TimerUpdates)
    ensures Edit(Edit(t, u), u) == Edit(t, u)
  {
  }

  /** `editTimer(id, {duration: d})` leaves `remainingTime == d` and the timer stopped, whatever it was before. */
  lemma EditDuration(t: Timer, d: int)
    ensures Edit(t, NoUpdates.(duration := Some(d))).remainingTime == d
    ensures !Edit(t, NoUpdates.(duration := Some(d))).isRunning
  {
  }

  /** A stopped timer is unaffected by any number of ticks. */
  lemma {:induction false} TickStopped(t: Timer, k: nat)
    requires !t.isRunning
    ensures TickTimes(t, k) == t
  {
    if k > 0 {
      TickStopped(t, k - 1);
    }
  }

  /**
   * A running timer with `n > 0` seconds left counts down one second per tick,
   * runs while anything is left, stops after exactly `n` ticks at 0 and then stays there.
   */
  lemma {:induction false} Countdown(t: Timer, k: nat)
    requires t.isRunning && t.remainingTime > 0
    ensures k <= t.remainingTime ==> TickTimes(t, k).remainingTime == t.remainingTime - k
    ensures k <= t.remainingTime ==> TickTimes(t, k).isRunning == (k < t.remainingTime)
    ensures k >= t.remainingTime ==> TickTimes(t, k).remainingTime == 0 && !TickTimes(t, k).isRunning
    ensures TickTimes(t, k).(remainingTime := t.remainingTime, isRunning := t.isRunning) == t
  {
    if k > 0 {
      Countdown(t, k - 1);
    }
  }

  /** Ticking never changes a timer's id. */
  lemma {:induction false} TickTimesKeepsId(t: Timer, k: nat)
    ensures TickTimes(t, k).id == t.id
  {
    if k > 0 {
      TickTimesKeepsId(t, k - 1);
    }
  }

  /** Toggle and tick keep the bound; restart and edit establish it. */
  lemma BoundedKept(t: Timer, u: TimerUpdates)
    ensures Bounded(t) ==> Bounded(Toggle(t)) && Bounded(Tick(t))
    ensures Bounded(Restart(t)) && Bounded(Edit(t, u))
  {
  }
}
