/**
 * The timer store: the in-memory list of timers the reducers mutate in place,
 * and the snapshot of it that is written to durable storage after every action.
 */
module TimerStore {
  import opened Wrappers
  import opened Timers
  import opened TimerList

  class Store {
    /** The in-memory list, in insertion order. */
    var timers: seq<Timer>
    /** What durable storage holds if every write succeeded: the last list written, or None when no readable list is stored. */
    ghost var persisted: Option<seq<Timer>>

    /** `loadState`: the stored list when there is one that parses, otherwise an empty list. */
    constructor (stored: Option<seq<Timer>>)
      ensures timers == stored.GetOr([])
      ensures stored.None? ==> timers == []
      ensures persisted == stored
    {
      timers := stored.GetOr([]);
      persisted := stored;
    }

    /** `persistState` when the write succeeds: storage then holds the whole in-memory list. */
    method Persist()
      modifies this`persisted
      ensures persisted == Some(timers)
    {
      persisted := Some(timers);
    }

    /** `Array.find` by id: a linear search for the first timer with this id. */
    method Find(id: Id) returns (r: Option<nat>)
      ensures r.Some? ==> r.value < |timers| && timers[r.value].id == id
      ensures r.Some? ==> forall j :: 0 <= j < r.value ==> timers[j].id != id
      ensures r.None? <==> Absent(timers, id)
      ensures r == FirstIndex(timers, id)
    {
      var i := 0;
      while i < |timers|
        invariant 0 <= i <= |timers|
        invariant forall j :: 0 <= j < i ==> timers[j].id != id
      {
        if timers[i].id == id {
          return Some(i);
        }
        i := i + 1;
      }
      return None;
    }

    /** `addTimer`: push the caller's fields with a fresh id and the current time. */
    method AddTimer(fields: TimerFields, id: Id, createdAt: int)
      requires Absent(timers, id)
      modifies this
      ensures timers == old(timers) + [NewTimer(fields, id, createdAt)]
      ensures |timers| == |old(timers)| + 1 && timers[..|old(timers)|] == old(timers)
      ensures timers[|old(timers)|].id == id && timers[|old(timers)|].createdAt == createdAt
      ensures UniqueIds(old(timers)) ==> UniqueIds(timers)
      ensures persisted == Some(timers)
    {
      var t := NewTimer(fields, id, createdAt);
      if UniqueIds(timers) {
        AppendUnique(timers, t);
      }
      timers := timers + [t];
      Persist();
    }

    /** `deleteTimer`: replace the list by the timers whose id differs. */
    method DeleteTimer(id: Id)
      modifies this
      ensures timers == Without(old(timers), id)
      ensures Absent(old(timers), id) ==> timers == old(timers)
      ensures UniqueIds(old(timers)) ==> UniqueIds(timers)
      ensures persisted == Some(timers)
    {
      if Absent(timers, id) {
        WithoutAbsent(timers, id);
      }
      if UniqueIds(timers) {
        WithoutUnique(timers, id);
      }
      timers := Without(timers, id);
      Persist();
    }

    /** `toggleTimer`: flip `isRunning` of the first timer with this id. */
    method ToggleTimer(id: Id)
      modifies this
      ensures timers == Toggled(old(timers), id)
      ensures OnlyFirstChanged(old(timers), timers, id)
      ensures UniqueIds(old(timers)) ==> UniqueIds(timers)
      ensures persisted == Some(timers)
    {
      var found := Find(id);
      if found.Some? {
        var i := found.value;
        timers := timers[i := timers[i].(isRunning := !timers[i].isRunning)];
      }
      Persist();
    }

    /** `updateTimer`: if the first timer with this id runs, take one second off and stop it at zero. */
    method UpdateTimer(id: Id)
      modifies this
      ensures timers == Ticked(old(timers), id)
      ensures OnlyFirstChanged(old(timers), timers, id)
      ensures (forall j :: 0 <= j < |old(timers)| && old(timers)[j].id == id ==> !old(timers)[j].isRunning)
        ==> timers == old(timers)
      ensures UniqueIds(old(timers)) ==> UniqueIds(timers)
      ensures persisted == Some(timers)
    {
      var found := Find(id);
      if found.Some? && timers[found.value].isRunning {
        var i := found.value;
        var left := timers[i].remainingTime - 1;
        timers := timers[i := timers[i].(remainingTime := left)];
        timers := timers[i := timers[i].(isRunning := timers[i].remainingTime > 0)];
      }
      Persist();
    }

    /** `restartTimer`: the first timer with this id gets its full duration back and stops. */
    method RestartTimer(id: Id)
      modifies this
      ensures timers == Restarted(old(timers), id)
      ensures OnlyFirstChanged(old(timers), timers, id)
      ensures UniqueIds(old(timers)) ==> UniqueIds(timers)
      ensures persisted == Some(timers)
    {
      var found := Find(id);
      if found.Some? {
        var i := found.value;
        timers := timers[i := timers[i].(remainingTime := timers[i].duration)];
        timers := timers[i := timers[i].(isRunning := false)];
      }
      Persist();
    }

    /** `editTimer`: merge the updates into the first timer with this id, then reset and stop it. */
    method EditTimer(id: Id, updates: TimerUpdates)
      modifies this
      ensures timers == Edited(old(timers), id, updates)
      ensures OnlyFirstChanged(old(timers), timers, id)
      ensures UniqueIds(old(timers)) ==> UniqueIds(timers)
      ensures persisted == Some(timers)
    {
      var found := Find(id);
      if found.Some? {
        var i := found.value;
        timers := timers[i := Merge(timers[i], updates)];
        var reset := if updates.duration.Some? && updates.duration.value != 0
          then updates.duration.value else timers[i].duration;
        timers := timers[i := timers[i].(remainingTime := reset)];
        timers := timers[i := timers[i].(isRunning := false)];
      }
      Persist();
    }
  }

  /**
   * A five-second timer: added stopped, toggled on, then ticked five times,
   * ends at 0 and stopped; reloading what was persisted gives the same list.
   */
  method FiveSecondScenario(id: Id, now: int)
  {
    var store := new Store(None);
    store.AddTimer(TimerFields("tea", 5, 5, false), id, now);
    assert |store.timers| == 1 && store.timers[0].remainingTime == 5 && !store.timers[0].isRunning;
    store.ToggleTimer(id);
    assert store.timers[0].isRunning;
    store.UpdateTimer(id);
    store.UpdateTimer(id);
    store.UpdateTimer(id);
    store.UpdateTimer(id);
    assert store.timers[0].remainingTime == 1 && store.timers[0].isRunning;
    store.UpdateTimer(id);
    assert store.timers[0].remainingTime == 0 && !store.timers[0].isRunning;
    assert store.persisted == Some(store.timers);
    var reloaded := new Store(Some(store.timers));
    assert reloaded.timers == store.timers;
  }
}
