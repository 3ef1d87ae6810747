/**
 * The timer list as a value: the first-match search every reducer starts with,
 * the list each reducer leaves behind, the reducer as a whole over a sequence
 * of actions, and what these keep (unique ids, the other timers, the order).
 */
module TimerList {
  import opened Wrappers
  import opened Timers

  /** No two timers in the list share an id. */
  predicate UniqueIds(ts: seq<Timer>)
  {
    forall i, j :: 0 <= i < j < |ts| ==> ts[i].id != ts[j].id
  }

  /** No timer in the list has this id. */
  predicate Absent(ts: seq<Timer>, id: Id)
  {
    forall j :: 0 <= j < |ts| ==> ts[j].id != id
  }

  /** Both lists have the same ids at the same positions. */
  predicate SameIds(a: seq<Timer>, b: seq<Timer>)
  {
    |a| == |b| && forall j :: 0 <= j < |a| ==> a[j].id == b[j].id
  }

  /** `Array.find` by id: the position of the first timer with this id, if any. */
  function FirstIndex(ts: seq<Timer>, id: Id): (r: Option<nat>)
    ensures r.Some? ==> r.value < |ts| && ts[r.value].id == id
    ensures r.Some? ==> forall j :: 0 <= j < r.value ==> ts[j].id != id
    ensures r.None? <==> Absent(ts, id)
  {
    if ts == [] then None
    else if ts[0].id == id then Some(0)
    else
      match FirstIndex(ts[1..], id)
      case None => None
      case Some(k) => Some(k + 1)
  }

  /**
   * `r` is `ts` with at most the first timer carrying `id` replaced: same length,
   * same ids, every other position untouched, and nothing changed if no timer has the id.
   */
  predicate OnlyFirstChanged(ts: seq<Timer>, r: seq<Timer>, id: Id)
  {
    SameIds(ts, r)
    && (Absent(ts, id) ==> r == ts)
    && forall j: nat :: j < |ts| && FirstIndex(ts, id) != Some(j) ==> r[j] == ts[j]
  }

  /** `state.timers.filter(timer => timer.id !== id)`. */
  function Without(ts: seq<Timer>, id: Id): (r: seq<Timer>)
    ensures forall t :: t in r <==> t in ts && t.id != id
    ensures |r| <= |ts|
    ensures Absent(r, id)
  {
    if ts == [] then []
    else (if ts[0].id == id then [] else [ts[0]]) + Without(ts[1..], id)
  }

  /** The list after `toggleTimer(id)`. */
  function Toggled(ts: seq<Timer>, id: Id): (r: seq<Timer>)
    ensures OnlyFirstChanged(ts, r, id)
    ensures FirstIndex(ts, id).Some? ==>
      r[FirstIndex(ts, id).value] == Toggle(ts[FirstIndex(ts, id).value])
    ensures FirstIndex(ts, id).Some? ==>
      r[FirstIndex(ts, id).value].isRunning != ts[FirstIndex(ts, id).value].isRunning
  {
    match FirstIndex(ts, id)
    case None => ts
    case Some(i) => ts[i := Toggle(ts[i])]
  }

  /** The list after `updateTimer(id)`, the per-second tick. */
  function Ticked(ts: seq<Timer>, id: Id): (r: seq<Timer>)
    ensures OnlyFirstChanged(ts, r, id)
    ensures FirstIndex(ts, id).Some? && !ts[FirstIndex(ts, id).value].isRunning ==> r == ts
    ensures FirstIndex(ts, id).Some? && ts[FirstIndex(ts, id).value].isRunning ==>
      r[FirstIndex(ts, id).value].remainingTime == ts[FirstIndex(ts, id).value].remainingTime - 1
    ensures FirstIndex(ts, id).Some? ==>
      r[FirstIndex(ts, id).value] == Tick(ts[FirstIndex(ts, id).value])
    ensures FirstIndex(ts, id).Some? && ts[FirstIndex(ts, id).value].isRunning ==>
      (r[FirstIndex(ts, id).value].isRunning <==> r[FirstIndex(ts, id).value].remainingTime > 0)
  {
    match FirstIndex(ts, id)
    case None => ts
    case Some(i) => if ts[i].isRunning then ts[i := Tick(ts[i])] else ts
  }

  /** The list after `restartTimer(id)`. */
  function Restarted(ts: seq<Timer>, id: Id): (r: seq<Timer>)
    ensures OnlyFirstChanged(ts, r, id)
    ensures FirstIndex(ts, id).Some? ==>
      var i := FirstIndex(ts, id).value;
      r[i].remainingTime == r[i].duration && !r[i].isRunning
      && r[i].(remainingTime := ts[i].remainingTime, isRunning := ts[i].isRunning) == ts[i]
  {
    match FirstIndex(ts, id)
    case None => ts
    case Some(i) => ts[i := Restart(ts[i])]
  }

  /** The list after `editTimer({id, updates})`. */
  function Edited(ts: seq<Timer>, id: Id, u: TimerUpdates): (r: seq<Timer>)
    ensures OnlyFirstChanged(ts, r, id)
    ensures FirstIndex(ts, id).Some? ==>
      var i := FirstIndex(ts, id).value;
      !r[i].isRunning && r[i].remainingTime == r[i].duration
      && r[i].duration == u.duration.GetOr(ts[i].duration)
      && r[i] == Restart(Merge(ts[i], u))
  {
    match FirstIndex(ts, id)
    case None => ts
    case Some(i) => ts[i := Edit(ts[i], u)]
  }

  /** The list after `k` ticks of the timer with this id. */
  function TickedTimes(ts: seq<Timer>, id: Id, k: nat): seq<Timer>
  {
    if k == 0 then ts else Ticked(TickedTimes(ts, id, k - 1), id)
  }

  /** The actions the slice's reducer handles; `Add` carries the id and timestamp the store would draw. */
  datatype Action =
    | Add(fields: TimerFields, newId: Id, createdAt: int)
    | Delete(id: Id)
    | ToggleAction(id: Id)
    | TickAction(id: Id)
    | RestartAction(id: Id)
    | EditAction(id: Id, updates: TimerUpdates)

  /**
   * `timerSlice.reducer` on one action: an add appends one timer and keeps the rest,
   * a delete leaves no timer with the id, and the other four keep every id in place.
   */
  function Step(ts: seq<Timer>, a: Action): (r: seq<Timer>)
    ensures a.Add? ==> |r| == |ts| + 1 && r[..|ts|] == ts
    ensures a.Add? ==> r[|ts|].id == a.newId && r[|ts|].createdAt == a.createdAt
    ensures a.Delete? ==> Absent(r, a.id) && |r| <= |ts|
    ensures !a.Add? && !a.Delete? ==> SameIds(ts, r)
  {
    match a
    case Add(fields, newId, createdAt) => ts + [NewTimer(fields, newId, createdAt)]
    case Delete(id) => Without(ts, id)
    case ToggleAction(id) => Toggled(ts, id)
    case TickAction(id) => Ticked(ts, id)
    case RestartAction(id) => Restarted(ts, id)
    case EditAction(id, u) => Edited(ts, id, u)
  }

  /** The reducer over a sequence of actions: only adds lengthen the list, each by one timer. */
  function Run(ts: seq<Timer>, actions: seq<Action>): (r: seq<Timer>)
    ensures |r| <= |ts| + |actions|
    ensures (forall k :: 0 <= k < |actions| ==> !actions[k].Add?) ==> |r| <= |ts|
    decreases |actions|
  {
    if actions == [] then ts else Run(Step(ts, actions[0]), actions[1..])
  }

  /** Every `Add` in the run draws an id that is not in the list at that point. */
  predicate FreshAdds(ts: seq<Timer>, actions: seq<Action>)
    decreases |actions|
  {
    actions == []
    || ((actions[0].Add? ==> Absent(ts, actions[0].newId))
        && FreshAdds(Step(ts, actions[0]), actions[1..]))
  }

  // ---------------------------------------------------------------- lemmas

  /** The first match depends only on the ids, so it survives any change that keeps them. */
  lemma FirstIndexSameIds(a: seq<Timer>, b: seq<Timer>, id: Id)
    requires SameIds(a, b)
    ensures FirstIndex(a, id) == FirstIndex(b, id)
  {
  }

  /** Filtering distributes over concatenation: the kept timers stay in their relative order. */
  lemma {:induction false} WithoutConcat(a: seq<Timer>, b: seq<Timer>, id: Id)
    ensures Without(a + b, id) == Without(a, id) + Without(b, id)
  {
    if a == [] {
      assert a + b == b;
    } else {
      assert (a + b)[1..] == a[1..] + b;
      WithoutConcat(a[1..], b, id);
    }
  }

  /** Deleting an id no timer has leaves the list as it was. */
  lemma {:induction false} WithoutAbsent(ts: seq<Timer>, id: Id)
    requires Absent(ts, id)
    ensures Without(ts, id) == ts
  {
    if ts != [] {
      WithoutAbsent(ts[1..], id);
      assert [ts[0]] + ts[1..] == ts;
    }
  }

  /** Filtering cannot introduce two timers with one id. */
  lemma {:induction false} WithoutUnique(ts: seq<Timer>, id: Id)
    requires UniqueIds(ts)
    ensures UniqueIds(Without(ts, id))
  {
    if ts != [] {
      WithoutUnique(ts[1..], id);
      var rest := Without(ts[1..], id);
      forall t | t in rest
        ensures t.id != ts[0].id
      {
        var j :| 0 <= j < |ts[1..]| && ts[1..][j] == t;
        assert ts[j + 1] == t;
      }
    }
  }

  /** Appending a timer whose id is not in the list keeps ids unique. */
  lemma AppendUnique(ts: seq<Timer>, t: Timer)
    requires UniqueIds(ts) && Absent(ts, t.id)
    ensures UniqueIds(ts + [t])
  {
  }

  /** Adding a timer and then deleting its id gives back the list. */
  lemma AddThenDelete(ts: seq<Timer>, fields: TimerFields, id: Id, createdAt: int)
    requires Absent(ts, id)
    ensures Without(ts + [NewTimer(fields, id, createdAt)], id) == ts
  {
    var t := NewTimer(fields, id, createdAt);
    WithoutConcat(ts, [t], id);
    WithoutAbsent(ts, id);
    assert Without([t], id) == [];
  }

  /** Toggling the same id twice gives back the list. */
  lemma ToggledTwice(ts: seq<Timer>, id: Id)
    ensures Toggled(Toggled(ts, id), id) == ts
  {
    FirstIndexSameIds(ts, Toggled(ts, id), id);
  }

  /** Restarting the same id a second time changes nothing more. */
  lemma RestartedTwice(ts: seq<Timer>, id: Id)
    ensures Restarted(Restarted(ts, id), id) == Restarted(ts, id)
  {
    FirstIndexSameIds(ts, Restarted(ts, id), id);
  }

  /** Ticking a timer that is stopped, or that is not there, leaves the whole list as it was. */
  lemma TickedStopped(ts: seq<Timer>, id: Id)
    requires forall j :: 0 <= j < |ts| && ts[j].id == id ==> !ts[j].isRunning
    ensures Ticked(ts, id) == ts
  {
  }

  /** One tick replaces the first timer with the id by its ticked self (a stopped timer ticks to itself). */
  lemma TickedAtFirst(ts: seq<Timer>, id: Id, i: nat)
    requires FirstIndex(ts, id) == Some(i)
    ensures Ticked(ts, id) == ts[i := Tick(ts[i])]
  {
    if !ts[i].isRunning {
      assert ts[i := Tick(ts[i])] == ts;
    }
  }

  /** Ticking after the first match was replaced by a timer with the same id ticks the replacement. */
  lemma TickedReplaced(ts: seq<Timer>, id: Id, i: nat, x: Timer)
    requires FirstIndex(ts, id) == Some(i) && x.id == id
    ensures Ticked(ts[i := x], id) == ts[i := Tick(x)]
  {
    var prev := ts[i := x];
    assert SameIds(ts, prev);
    FirstIndexSameIds(ts, prev, id);
    TickedAtFirst(prev, id, i);
    assert prev[i := Tick(x)] == ts[i := Tick(x)];
  }

  /** `k` ticks of one id act on the first timer with that id as `k` ticks of that timer alone. */
  lemma {:induction false} TickedTimesAt(ts: seq<Timer>, id: Id, i: nat, k: nat)
    requires FirstIndex(ts, id) == Some(i)
    ensures TickedTimes(ts, id, k) == ts[i := TickTimes(ts[i], k)]
  {
    if k == 0 {
      assert ts[i := ts[i]] == ts;
    } else {
      var before := TickTimes(ts[i], k - 1);
      TickedTimesAt(ts, id, i, k - 1);
      TickTimesKeepsId(ts[i], k - 1);
      TickedReplaced(ts, id, i, before);
      assert TickTimes(ts[i], k) == Tick(before);
    }
  }

  /**
   * A running timer with `n > 0` seconds left, ticked `n` times, stops at exactly 0;
   * after any `k < n` ticks it is still running with `n - k` seconds left.
   * No other timer changes.
   */
  lemma ListCountdown(ts: seq<Timer>, id: Id, k: nat)
    requires FirstIndex(ts, id).Some?
    requires ts[FirstIndex(ts, id).value].isRunning && ts[FirstIndex(ts, id).value].remainingTime > 0
    ensures var i, n := FirstIndex(ts, id).value, ts[FirstIndex(ts, id).value].remainingTime;
      var r := TickedTimes(ts, id, k);
      |r| == |ts|
      && (k <= n ==> r[i].remainingTime == n - k && r[i].isRunning == (k < n))
      && (k >= n ==> r[i].remainingTime == 0 && !r[i].isRunning)
      && forall j :: 0 <= j < |ts| && j != i ==> r[j] == ts[j]
  {
    var i := FirstIndex(ts, id).value;
    TickedTimesAt(ts, id, i, k);
    Countdown(ts[i], k);
  }

  /** Every reducer step keeps ids unique, given a fresh id for an `Add`. */
  lemma StepUnique(ts: seq<Timer>, a: Action)
    requires UniqueIds(ts)
    requires a.Add? ==> Absent(ts, a.newId)
    ensures UniqueIds(Step(ts, a))
  {
    match a
    case Add(fields, newId, createdAt) => AppendUnique(ts, NewTimer(fields, newId, createdAt));
    case Delete(id) => WithoutUnique(ts, id);
    case ToggleAction(id) =>
    case TickAction(id) =>
    case RestartAction(id) =>
    case EditAction(id, u) =>
  }

  /** For every sequence of actions whose adds draw fresh ids, the list never holds two timers with one id. */
  lemma {:induction false} RunUnique(ts: seq<Timer>, actions: seq<Action>)
    requires UniqueIds(ts) && FreshAdds(ts, actions)
    ensures UniqueIds(Run(ts, actions))
    decreases |actions|
  {
    if actions != [] {
      StepUnique(ts, actions[0]);
      RunUnique(Step(ts, actions[0]), actions[1..]);
    }
  }
}
