# Timer store model

A Dafny model of the timer store of a small timer-management UI
(`src/store/useTimerStore.ts`). The store holds an ordered list of `Timer`
records and has six reducers: `addTimer`, `deleteTimer`, `toggleTimer`,
`updateTimer` (the per-second tick), `restartTimer` and `editTimer`. Every
reducer ends by writing the whole list to the browser's local storage.

The model has four modules:

- `Wrappers` (`wrappers.dfy`): `Option`.
- `Timers` (`timer.dfy`): the `Timer` record and what each reducer does to
  the one timer it finds.
- `TimerList` (`timer_list.dfy`): the list as a value. It has the
  first-match search (`Array.find`), the list each reducer leaves behind, the
  reducer over a sequence of actions, and lemmas about all of these.
- `TimerStore` (`timer_store.dfy`): class `Store`, whose `timers` field the
  methods update in place. This is how the code mutates Immer's draft
  state. The ghost field `persisted` holds what storage contains when every
  write succeeds. Every method sets it to the new list, as a successful
  `persistState` does.

The `Timer` type comes from `src/types/timer`, which is not part of this
model. It is given the fields the reducers touch (`id`, `createdAt`,
`duration`, `remainingTime`, `isRunning`) plus a `name` that stands for the
caller's own fields. `remainingTime` is an `int` because ticking a running
timer at 0 takes it to -1.

`crypto.randomUUID()` and `Date.now()` are parameters of `AddTimer`. The
requirement that the new id is not already in the list stands in for the
uniqueness of a random UUID.

An edit without a `duration` does not leave `remainingTime` alone. Line 68
sets it to `updates.duration || timer.duration`, and it reads
`timer.duration` after `Object.assign`, so the value is the duration after the
merge. So after an edit, `remainingTime` always equals the timer's duration
(`Timers.Edit`). The `||` is modelled as written, with 0 treated as falsy,
and proved to give the merged duration in every case.

## Model

| member | source | states |
|---|---|---|
| `Timers.NewTimer` | src/store/useTimerStore.ts:30-34 | the pushed record has the caller's fields and the supplied id and createdAt |
| `Timers.Toggle` | src/store/useTimerStore.ts:44 | `isRunning` is flipped and every other field is kept |
| `Timers.Tick` | src/store/useTimerStore.ts:50-53 | a running timer loses exactly one second and afterwards runs exactly when time is left; so after any tick `isRunning` implies `remainingTime > 0`; a stopped timer is unchanged; no other field changes |
| `Timers.Restart` | src/store/useTimerStore.ts:59-60 | `remainingTime == duration` and `isRunning == false`; no other field changes |
| `Timers.Merge` | src/store/useTimerStore.ts:67 | `Object.assign`: each field the updates carry overwrites the timer's and each field they omit is kept; updates carry no `id`, so the id is kept; empty updates change nothing |
| `Timers.Edit` | src/store/useTimerStore.ts:67-69 | keeps the id, stops the timer and sets `remainingTime` to the post-merge duration, with or without a `duration` in the updates; the duration is the updated one if given; name and createdAt follow the updates |
| `Timers.ToggleTwice` | src/store/useTimerStore.ts:44 | toggling a timer twice gives it back |
| `Timers.RestartIdempotent` | src/store/useTimerStore.ts:59-60 | a second restart changes nothing |
| `Timers.EditWithoutUpdatesIsRestart` | src/store/useTimerStore.ts:67-69 | an edit with no fields is a restart |
| `Timers.EditIdempotent` | src/store/useTimerStore.ts:67-69 | editing twice with the same updates is editing once |
| `Timers.EditDuration` | src/store/useTimerStore.ts:67-69 | an edit with `{duration: d}` gives `remainingTime == d` and a stopped timer, whatever the prior state |
| `Timers.TickStopped` | src/store/useTimerStore.ts:50 | any number of ticks leave a stopped timer unchanged |
| `Timers.Countdown` | src/store/useTimerStore.ts:50-53 | a running timer with n > 0 seconds has n - k left after k <= n ticks and runs exactly while k < n; from n ticks on it stays stopped at 0; only `remainingTime` and `isRunning` change |
| `Timers.BoundedKept` | src/store/useTimerStore.ts:44-69 | toggle and tick keep `remainingTime <= duration`; restart and edit establish it |
| `TimerList.FirstIndex` | src/store/useTimerStore.ts:42 | the first position whose timer has the id, or None exactly when no timer has it |
| `TimerList.Without` | src/store/useTimerStore.ts:38 | the result holds exactly the timers of the list whose id differs, no timer with the id remains, and it is no longer than the list |
| `TimerList.Toggled` | src/store/useTimerStore.ts:41-45 | only the first timer with the id changes; it becomes `Toggle` of itself, so its `isRunning` is flipped and its other fields are kept; ids and length are kept; with no match the list is unchanged |
| `TimerList.Ticked` | src/store/useTimerStore.ts:48-53 | only the first timer with the id can change, and it becomes `Tick` of itself; if it is stopped the list is unchanged; if it runs it loses one second and afterwards runs exactly when time is left |
| `TimerList.Restarted` | src/store/useTimerStore.ts:56-60 | only the first timer with the id changes, to `remainingTime == duration` and stopped, its other fields kept |
| `TimerList.Edited` | src/store/useTimerStore.ts:64-69 | only the first timer with the id changes, to the merged timer restarted, so it is stopped with `remainingTime` equal to its new duration |
| `TimerList.Step` | src/store/useTimerStore.ts:29-72 | the reducer on one action: an add appends one timer with the drawn id and timestamp and keeps the earlier entries; a delete leaves no timer with the id and does not lengthen the list; toggle, tick, restart and edit keep every id at its position |
| `TimerList.Run` | src/store/useTimerStore.ts:29-72 | the reducer over a sequence of actions grows the list by at most one timer per action, and a run without adds never lengthens it |
| `TimerList.FirstIndexSameIds` | src/store/useTimerStore.ts:42 | the first match depends only on the ids at each position |
| `TimerList.WithoutConcat` | src/store/useTimerStore.ts:38 | the filter distributes over concatenation, so the kept timers keep their relative order |
| `TimerList.WithoutAbsent` | src/store/useTimerStore.ts:38 | deleting an id no timer has leaves the list unchanged |
| `TimerList.WithoutUnique` | src/store/useTimerStore.ts:38 | deleting keeps ids unique |
| `TimerList.AppendUnique` | src/store/useTimerStore.ts:30-34 | appending a timer with a fresh id keeps ids unique |
| `TimerList.AddThenDelete` | src/store/useTimerStore.ts:29-38 | adding a timer with a fresh id and then deleting that id gives back the list |
| `TimerList.ToggledTwice` | src/store/useTimerStore.ts:41-45 | toggling the same id twice gives back the list |
| `TimerList.RestartedTwice` | src/store/useTimerStore.ts:56-60 | restarting the same id twice is restarting it once |
| `TimerList.TickedStopped` | src/store/useTimerStore.ts:49-50 | a tick for an id whose timers are all stopped, or for an id no timer has, leaves the whole list unchanged |
| `TimerList.TickedAtFirst` | src/store/useTimerStore.ts:49-53 | one tick replaces the first timer with the id by the ticked timer |
| `TimerList.TickedTimesAt` | src/store/useTimerStore.ts:49-53 | k ticks of one id act on its first timer as k ticks of that timer alone |
| `TimerList.ListCountdown` | src/store/useTimerStore.ts:48-53 | in the list, a running timer with n > 0 seconds has n - k left after k <= n ticks and stops at exactly 0 after n; no other timer changes |
| `TimerList.StepUnique` | src/store/useTimerStore.ts:29-72 | each of the six reducers keeps ids unique, given a fresh id for an add |
| `TimerList.RunUnique` | src/store/useTimerStore.ts:29-72 | after any sequence of actions whose adds draw fresh ids, no two timers share an id |
| `TimerStore.Store.constructor` | src/store/useTimerStore.ts:5-15 | the initial list is the stored list, or empty when the key is missing, its value is empty, or parsing fails |
| `TimerStore.Store.Persist` | src/store/useTimerStore.ts:17-23 | after a successful write, storage holds the in-memory list and nothing else changes |
| `TimerStore.Store.Find` | src/store/useTimerStore.ts:42 | the linear search returns the first position with the id, or None exactly when no timer has it, which is `FirstIndex` |
| `TimerStore.Store.AddTimer` | src/store/useTimerStore.ts:29-35 | appends exactly one timer at the end with the supplied id and createdAt; earlier entries are unchanged; unique ids stay unique; storage holds the new list |
| `TimerStore.Store.DeleteTimer` | src/store/useTimerStore.ts:37-39 | the list becomes `Without` of the old list, and is unchanged if no timer has the id; unique ids stay unique; storage holds the new list |
| `TimerStore.Store.ToggleTimer` | src/store/useTimerStore.ts:41-46 | the list becomes `Toggled` of the old list; only the first match changes; storage holds the new list, also when nothing matched |
| `TimerStore.Store.UpdateTimer` | src/store/useTimerStore.ts:48-54 | the list becomes `Ticked` of the old list, and is unchanged when the timer is stopped or absent; storage holds the new list |
| `TimerStore.Store.RestartTimer` | src/store/useTimerStore.ts:56-62 | the list becomes `Restarted` of the old list; only the first match changes; storage holds the new list |
| `TimerStore.Store.EditTimer` | src/store/useTimerStore.ts:64-71 | the list becomes `Edited` of the old list; only the first match changes; storage holds the new list |

`TimerStore.FiveSecondScenario` is a verified client of `Store`. It adds a
stopped five-second timer, toggles it on and ticks it five times. It asserts
that the timer is running with one second left after four ticks, and stopped
at 0 after five. It then reloads a store from what was persisted and gets the
same list.

## Left out

- Reading and writing `localStorage` and the JSON (de)serialisation in `loadState` and `persistState` (lines 5-23): these are browser I/O and a foreign parser. Storage is the ghost `persisted`. Logging a failed read or write is not modelled.
- TimerStore.Store.Persist: models only a successful write. When `setItem` fails (lines 18-22), storage keeps its earlier content while the in-memory list moves on. The model does not capture this, because `persisted` always becomes the new list.
- TimerStore.Store.constructor: `stored` is what parsing the stored key produced. `None` covers only a missing key, an empty value or a parse error. A stored JSON value that parses to something other than a list of timers (such as `null`, which line 8 would install as the list) is not modelled.
- `crypto.randomUUID()` and `Date.now()` (lines 32-33): these are nondeterministic foreign calls, so `AddTimer` takes them as parameters. A freshness precondition stands in for the uniqueness of a random UUID.
- Redux wiring (`createSlice`, `configureStore`, the exported action creators, the `useTimerStore` hook with `useDispatch`/`useSelector`, lines 1-2, 25-28, 76-104): this is library plumbing with no logic of its own. `TimerList.Step` and `TimerList.Run` give the reducer's meaning over actions.
- `src/components/ModalButtons.tsx` and `src/components/ModalButtonsProps.tsx`: stateless UI markup with nothing to verify.
- JavaScript dynamic typing in `editTimer`: `Object.assign` copying arbitrary keys, keys whose value is `undefined`, and an `id` inside `updates`. Updates are a typed record of optional fields without `id`.
- Non-integer numbers (fractions, `NaN`) in the fields: the model uses mathematical integers.
- The periodic caller that ticks running timers once per second: it is not in the store and is scheduling, not logic.
- Immer's aliasing of draft objects: the list is a `seq` field that each method reassigns, with the found element replaced by position.
