# Signal dispatch, modelled in Dafny

This project models the signal-dispatch core of the PHP library `shoppingflux/module-signal`.

- **SignalHandler** is the dispatcher of one signal number. It keeps an ordered list of subscribers (callback, group tag, one-shot flag) and installs itself as the OS handler when the list goes from empty to non-empty. When `clear` or `handle` leaves the list empty, it puts back the previous handler or re-raises the signal, as its flag bits say.
- **MultiSignalHandler** fans `append`, `prepend` and `clear` out to a fixed, keyed set of dispatchers. It hands `handle` only to the dispatcher whose key equals the signal number.
- **GroupHandler** is a named view on a pool of dispatchers (an `ArrayObject` keyed by signal number). It creates a dispatcher lazily for every number it touches and tags its subscribers with its name. Its `clear` removes only its own subscribers and drops dispatchers left empty.
- **GlobalHandler** hands out memoised groups and dispatchers over one shared pool. It tears them down by name, by number, or all at once.
- **SignalHandlerFallback** is the no-op stand-in used when `pcntl_signal` does not exist.

The model has two layers.

- **Value layer.** Modules `DispatchSpec`, `GroupSpec`, `GlobalSpec` and the functions at the top of `Multi` say what each operation does. They work on values: a dispatcher's `Stack`, the pool's `Table` and the OS state `OsState`. Lemmas state what these functions guarantee.
- **Classes.** The classes `Dispatch.SignalHandler`, `Multi.MultiSignalHandler`, `Grouping.Pool`, `Grouping.GroupHandler` and `Global.GlobalHandler` update their fields in place with loops, as the PHP does. Each method is proved to leave exactly the state the corresponding function computes.

The OS is a value held by a `Host` object. It records:
- the table of signal dispositions (`pcntl_signal`, `pcntl_signal_get_handler`);
- the signals raised to the own process (`posix_kill`);
- the callbacks invoked, in order;
- whether asynchronous signals are on;
- a counter that gives every dispatcher object its identity.

Callbacks are opaque numbers. Their calls are recorded in the trace, and they have no other effect.

Where the code and its documentation differ, the model follows the code:
- **`SIG_IGN` is truthy.** `install` refuses under `PREV_ERROR` whenever `previous` is truthy. `SIG_IGN` is the integer 1, so it refuses over an ignored signal too, and not only over a foreign handler (`src/SignalHandler.php:129`).
- **`PREV_ERROR` restores.** `PREV_ERROR` is 3, so it carries the `PREV_RESTORE` bit. `PREV_REPLACE` (1) makes `restore` do nothing, and the dispatcher stays installed.
- **`clear` re-raises signal 0.** `clear` calls `restore()` with no signal number. Under `PREV_RECALL`, `posix_kill` then receives `null`, which is the integer 0.
- **`handle` follows the literal `SplDoublyLinkedList` traversal** (`Walk`). The foreach `$key` counts positions handed out. `unset($list[$key])` removes that position of the list as it is now. The iterator keeps its own node. So a second one-shot subscriber in the same pass unsets a shifted position. With exactly two one-shot subscribers, at positions `i < j`, every subscriber up to `j` fires and `i` is unset (`DispatchProps.TwoOnce`):
  - when `j` is the last position, the second unset is past the end and the list throws an out-of-range exception, which escapes `handle`; `j` stays registered;
  - otherwise the second unset removes the subscriber after `j`, which never fires, and `j` stays registered.

  `DispatchProps.TwoOnceOverrun` and `DispatchProps.SecondOnceRemovesNeighbour` are the smallest instances. With at most one one-shot subscriber, `handle` behaves as documented (`DispatchProps.HandleSingleOnce`).
- **A failed `append` leaves an empty dispatcher in the pool.** `getSignals` is a generator, so a dispatcher is created just before it is used. When `append` or `prepend` of a group throws on a `PREV_ERROR` conflict, the dispatcher just created stays in the pool with no subscriber (`GroupSpec.GroupInsertedStrands`).
- **A group's `clear` of a number the pool lacks first creates the dispatcher.** The new dispatcher is cleared at once, which runs `restore`. It is then unset again.

## Model

| member | source | states |
|---|---|---|
| Policy.ModeBits | src/SignalHandlerInterface.php:6-24 | PREV_ERROR (3) has the PREV_RESTORE bit and not PREV_RECALL; PREV_REPLACE (1) has neither; PREV_RESTORE and PREV_RECALL are single bits |
| Os.WithHandler | src/SignalHandler.php:120 | pcntl_signal changes the disposition of that signal only, and nothing else in the OS |
| DispatchSpec.CreateSubscriber | src/SignalHandler.php:138-145 | the subscriber carries the callback; group is '' and once is false unless the options set them; once holds only for a literal true |
| DispatchSpec.Names | src/SignalHandler.php:76 | `(array) $groups`: a single group name becomes a one-element list |
| DispatchSpec.Created | src/SignalHandler.php:37-46 | a new dispatcher has no subscriber and captures the current OS handler as previous; asynchronous signals are on; no disposition changes |
| Dispatch.SignalHandler.Factory | src/SignalHandler.php:6-13 | a fresh dispatcher built by the constructor when pcntl exists, the fallback with the OS untouched otherwise |
| Dispatch.SignalHandler.constructor | src/SignalHandler.php:37-46 | the dispatcher and OS state are those `Created` computes |
| Dispatch.SignalHandler.IsEmpty | src/SignalHandler.php:98-101 | true exactly when no subscriber is registered |
| Dispatch.SignalHandler.Append | src/SignalHandler.php:48-59 | new list and OS are those of `Inserted` at the tail; the receiver on success, the install exception otherwise |
| Dispatch.SignalHandler.Prepend | src/SignalHandler.php:61-72 | new list and OS are those of `Inserted` at the head; the receiver on success, the install exception otherwise |
| Dispatch.SignalHandler.Install | src/SignalHandler.php:127-136 | throws and changes nothing when the mode is exactly PREV_ERROR and previous is truthy; otherwise this dispatcher becomes the OS handler of its signal |
| Dispatch.SignalHandler.Restore | src/SignalHandler.php:117-125 | the OS afterwards is `Restored`: previous is put back under the restore bit, the signal (0 for none) raised under the recall bit when posix_kill exists |
| Dispatch.SignalHandler.Clear | src/SignalHandler.php:74-96 | the list and OS afterwards are those of `Cleared`: matching subscribers removed, restore run whenever the list ends empty; returns the receiver |
| Dispatch.SignalHandler.MatchingIndexes | src/SignalHandler.php:79-83 | the collected indexes are exactly `MatchPositions` of the current list |
| Dispatch.SignalHandler.UnsetFromBottom | src/SignalHandler.php:86-89 | popping and unsetting the collected indexes from highest to lowest leaves exactly `Kept` of the old list |
| Dispatch.SignalHandler.Handle | src/SignalHandler.php:103-115 | list, OS and outcome are those of `Handled`: the literal traversal, then restore with the signal when the list is empty; an overrun escapes before restore |
| Dispatch.SignalHandler.Traverse | src/SignalHandler.php:105-110 | the foreach calls the subscribers `Walk` fires, in order, with (signal, info), and leaves the list `Walk` leaves, or stops at the offset it overruns |
| DispatchProps.InsertedPlacesOne | src/SignalHandler.php:48-72 | when the insert does not throw, exactly one subscriber is added, at the tail for append and at the head for prepend; the others are unchanged and in order; nothing but the list changes |
| DispatchProps.InstallOnlyWhenEmpty | src/SignalHandler.php:50-52 | inserting into a non-empty list leaves the OS alone; a successful insert into an empty list makes this dispatcher the handler of its signal and leaves other signals' handlers alone |
| DispatchProps.ConflictChangesNothing | src/SignalHandler.php:129-133 | on an empty list the insert throws if and only if the mode is PREV_ERROR and previous is not SIG_DFL; when it throws, neither the list nor the OS changes |
| DispatchProps.RestoreByFlags | src/SignalHandler.php:117-125 | previous comes back exactly under the restore bit, the signal or 0 is raised exactly under the recall bit with posix_kill; other signals, the trace and identities are untouched |
| DispatchProps.ErrorModeRestoresPrevious | src/SignalHandler.php:117-121 | an error-mode dispatcher puts previous back and raises nothing |
| DispatchProps.ReplaceModeRestoresNothing | src/SignalHandler.php:117-125 | in PREV_REPLACE mode restore leaves the OS exactly as it was |
| DispatchProps.KeptMembers | src/SignalHandler.php:79-89 | a subscriber survives clear if and only if it was registered and its group is not named |
| DispatchProps.KeptNothing | src/SignalHandler.php:80 | clear with no group names removes every subscriber |
| DispatchProps.KeptAppend | src/SignalHandler.php:79-89 | filtering by group works piecewise over a concatenation, so relative order is kept |
| DispatchProps.KeptUnmatched | src/SignalHandler.php:79-89 | with no matching subscriber clear leaves the list as it was |
| DispatchProps.KeptIdempotent | src/SignalHandler.php:74-96 | clearing the same groups twice removes nothing more |
| DispatchProps.MatchPositionsExact | src/SignalHandler.php:79-86 | the collected indexes ascend, so `sort` leaves them in place, and are exactly the in-range positions of matching subscribers |
| DispatchProps.LastMatch | src/SignalHandler.php:87 | the index `array_pop` returns matches, nothing between it and the bound matches, and the rest of the array is what remains to pop |
| DispatchProps.UnsetHighest | src/SignalHandler.php:87-88 | unsetting the highest remaining index keeps the list equal to the untouched prefix followed by the filtered suffix |
| DispatchProps.UnsetDone | src/SignalHandler.php:87-89 | once no index remains, the list is exactly the filtered original |
| DispatchProps.ClearRestoresWhenEmpty | src/SignalHandler.php:91-93 | when clear leaves the list empty, restore runs with no signal, even if nothing was removed |
| DispatchProps.ClearAll | src/SignalHandler.php:74-96 | clear with no groups empties the list and runs restore with no signal |
| DispatchProps.WalkWithoutOnce | src/SignalHandler.php:105-110 | without one-shot subscribers the traversal calls every subscriber from the current one on and removes none |
| DispatchProps.WalkSingleOnce | src/SignalHandler.php:105-110 | with exactly one one-shot subscriber the traversal calls every subscriber and removes only that one |
| DispatchProps.HandleWithoutOnce | src/SignalHandler.php:103-115 | handle on a non-empty list with no one-shot subscriber calls all in order with (signal, info) and changes nothing else |
| DispatchProps.HandleSingleOnce | src/SignalHandler.php:103-115 | with one one-shot subscriber, handle calls all in order and removes it; a later handle calls only the others and changes the list no further |
| DispatchProps.TwoOnce | src/SignalHandler.php:105-109 | with exactly two one-shot subscribers at i < j, all up to j fire and i is unset; if j is last the second unset throws at offset j and the list keeps everything but i; otherwise the subscriber after j is removed without firing, and no exception escapes |
| DispatchProps.TwoOnceOverrun | src/SignalHandler.php:105-109 | the list [a, b] of two one-shot subscribers: both fire, a is removed, and the second unset is past the end and throws |
| DispatchProps.SecondOnceRemovesNeighbour | src/SignalHandler.php:105-109 | with one-shot a, b before c, d, the pass calls a, b, d, and the list keeps b, d |
| Fallback.SignalHandlerFallback.Handle | src/SignalHandlerFallback.php:9-11 | calls no callback and leaves the OS as it was |
| Fallback.SignalHandlerFallback.Append | src/SignalHandlerFallback.php:13-16 | returns the receiver |
| Fallback.SignalHandlerFallback.Prepend | src/SignalHandlerFallback.php:18-21 | returns the receiver |
| Fallback.SignalHandlerFallback.Clear | src/SignalHandlerFallback.php:23-26 | returns the receiver |
| Fallback.SignalHandlerFallback.IsEmpty | src/SignalHandlerFallback.php:28-31 | always true, whatever was appended |
| Multi.Reached | src/MultiSignalHandler.php:25-41 | the same keys as before: a fan-out never adds or removes an entry |
| Multi.FanInsertedQuiet | src/MultiSignalHandler.php:25-41 | append and prepend fan-outs raise no signal and call no callback |
| Multi.FanInsertedReachesEach | src/MultiSignalHandler.php:25-41 | when no child throws, every entry receives the same subscriber exactly once, at the tail or the head |
| Multi.FanInsertedStopsAtConflict | src/MultiSignalHandler.php:25-41 | when a child throws, it is an empty child that refuses to install; the entries before it got the subscriber, it and the rest did not |
| Multi.FanClearedReachesEach | src/MultiSignalHandler.php:43-50 | clear hands the same groups to every entry: each keeps exactly its subscribers of other groups; the entry set is unchanged |
| Multi.MultiSignalHandler.constructor | src/MultiSignalHandler.php:11-14 | the entries are those given, fixed from then on |
| Multi.MultiSignalHandler.Handle | src/MultiSignalHandler.php:16-23 | only the entry keyed by the signal number handles it; with no such key nothing changes |
| Multi.MultiSignalHandler.Append | src/MultiSignalHandler.php:25-32 | children and OS become those of `FanInserted` at the tail; the receiver, or the first exception |
| Multi.MultiSignalHandler.Prepend | src/MultiSignalHandler.php:34-41 | children and OS become those of `FanInserted` at the head; the receiver, or the first exception |
| Multi.MultiSignalHandler.Clear | src/MultiSignalHandler.php:43-50 | children and OS become those of `FanCleared`; returns the receiver |
| Multi.MultiSignalHandler.IsEmpty | src/MultiSignalHandler.php:52-59 | true if and only if every entry is empty, so true with no entries |
| Multi.ProperSubsetSmaller | src/MultiSignalHandler.php:56 | a proper subset has a smaller count, so the two counts compared are equal only when every entry is empty |
| GroupSpec.Ensured | src/GroupHandler.php:133-136 | afterwards the number has a dispatcher; entries already there, every subscriber list and the OS handlers are unchanged; a well-formed pool stays well formed |
| GroupSpec.Without | src/GroupHandler.php:115 | the keys after unset are the others, still unique |
| GroupSpec.Removed | src/GroupHandler.php:115 | unset removes that number's dispatcher and keeps the pool well formed |
| GroupSpec.GroupInsertedWf | src/GroupHandler.php:65-89 | append and prepend keep the pool well formed, whether they throw or not |
| GroupSpec.GroupInsertedCovers | src/GroupHandler.php:127-140 | append and prepend never remove a dispatcher and keep existing keys in front; on success every target has one |
| GroupSpec.GroupInsertedPushes | src/GroupHandler.php:65-89 | on success, for any target list, repeats included, each number's list gets the group's subscriber once per occurrence of that number among the targets, at the tail (append) or head (prepend); a number not listed keeps its list |
| GroupSpec.GroupInsertedPushesOnce | src/GroupHandler.php:65-89 | with no repeated target, each target's list gets the subscriber exactly once and every other list is unchanged |
| GroupSpec.GroupInsertedStrands | src/GroupHandler.php:65-72 | a throwing append names a target whose dispatcher stays in the pool, empty and refusing to install |
| GroupSpec.GroupClearedWf | src/GroupHandler.php:110-120 | clear keeps the pool well formed |
| GroupSpec.GroupClearedKeepsOthers | src/GroupHandler.php:110-120 | for any target list, repeats included, a target keeps exactly its other groups' subscribers in order and stays in the pool if and only if one remains; other numbers' dispatchers are untouched |
| GroupSpec.GroupClearAll | src/GroupHandler.php:110-131 | clear with no argument leaves no empty dispatcher and no subscriber of the group anywhere in the pool |
| GroupSpec.GroupHandledAbsent | src/GroupHandler.php:94-101 | handle of numbers the pool lacks changes nothing and creates no dispatcher |
| GroupSpec.GroupHandledKeepsKeys | src/GroupHandler.php:94-101 | handle never adds a dispatcher to the pool nor removes one |
| Grouping.Pool.ValidTable | src/GroupHandler.php:21 | a valid pool is a well-formed table, with a distinct dispatcher under each key |
| Grouping.Pool.Keys | src/GroupHandler.php:130 | `array_keys` of the pool is its keys in insertion order |
| Grouping.Pool.Put | src/GroupHandler.php:135 | a new number goes last, with the given dispatcher |
| Grouping.Pool.Unset | src/GroupHandler.php:115 | the number leaves the keys and the entries, as `Removed` says; validity is kept |
| Grouping.Pool.Empty | src/GlobalHandler.php:98 | `exchangeArray([])` empties the same pool object |
| Grouping.GroupHandler.constructor | src/GroupHandler.php:45-50 | name and mode as given, with an empty pool of its own |
| Grouping.GroupHandler.WithSignals | src/GroupHandler.php:30-43 | the group uses the very pool object it is given, not a copy |
| Grouping.GroupHandler.GetName | src/GroupHandler.php:52-55 | returns the name given at construction |
| Grouping.GroupHandler.Ensure | src/GroupHandler.php:133-138 | the number gets a fresh dispatcher in the pool only if it had none; otherwise the pool is unchanged; the result is the pool's entry |
| Grouping.GroupHandler.TargetsOf | src/GroupHandler.php:129-133 | a falsy argument (0 or the empty array) means every number in the pool, in order; otherwise the listed numbers |
| Grouping.GroupHandler.Append | src/GroupHandler.php:65-72 | pool and OS become those of `GroupInserted` at the tail; the receiver, or the first exception |
| Grouping.GroupHandler.Prepend | src/GroupHandler.php:82-89 | pool and OS become those of `GroupInserted` at the head; the receiver, or the first exception |
| Grouping.GroupHandler.Handle | src/GroupHandler.php:94-101 | pool, OS and outcome become those of `GroupHandled`, with no info, and the pool keeps its keys |
| Grouping.GroupHandler.Clear | src/GroupHandler.php:110-120 | pool and OS become those of `GroupCleared`; returns the receiver |
| GlobalSpec.SignalsClearedRemoves | src/GlobalHandler.php:81-91 | clearSignal removes exactly the listed numbers that were present, leaves the dispatchers of all other numbers unchanged, and keeps the pool well formed |
| GlobalSpec.SignalStepRestores | src/GlobalHandler.php:84-86 | each dispatcher clearSignal reaches is emptied and runs restore with no signal |
| GlobalSpec.GlobalClearedEmpties | src/GlobalHandler.php:93-101 | after clear the pool holds no dispatcher |
| GlobalSpec.GroupsClearedWf | src/GlobalHandler.php:52-62 | clearGroup keeps the pool well formed |
| GlobalSpec.GroupsClearedPurges | src/GlobalHandler.php:52-62 | after clearGroup no dispatcher holds a subscriber of a listed group that was present |
| GlobalSpec.GroupsClearedKeeps | src/GlobalHandler.php:52-62 | every subscriber of a group not listed (or not present) survives clearGroup, on the same signal |
| GlobalSpec.GroupsClearedShrinks | src/GlobalHandler.php:52-62 | clearGroup only ever removes subscribers |
| GlobalSpec.GroupClearedShrinks | src/GlobalHandler.php:56 | one group's clear over the whole pool only ever removes subscribers |
| Global.GlobalHandler.constructor | src/GlobalHandler.php:21-26 | an empty pool, no group, and the default mode |
| Global.GlobalHandler.Group | src/GlobalHandler.php:36-43 | a known name returns the same group and changes nothing; a new one gets a fresh group over the shared pool, with the given mode or the default |
| Global.GlobalHandler.Signal | src/GlobalHandler.php:64-71 | a known number returns the same dispatcher; otherwise a new one joins the shared pool; groups are untouched |
| Global.GlobalHandler.Forget | src/GlobalHandler.php:57 | the group leaves the map and the name list, nothing else |
| Global.GlobalHandler.ClearGroup | src/GlobalHandler.php:52-62 | exactly the listed present groups are forgotten, the others kept; pool and OS become those of `GroupsCleared`; returns the receiver |
| Global.GlobalHandler.ClearSignal | src/GlobalHandler.php:81-91 | pool and OS become those of `SignalsCleared`; groups untouched; returns the receiver |
| Global.GlobalHandler.Clear | src/GlobalHandler.php:93-101 | no group remains and the same pool object is empty; the OS is that of `GlobalCleared` |

## Left out

- `SignalHandlerInterface` is not a type of its own. Each class states the five operations of that contract with its own types. `Factory` returns a union of a real dispatcher and the fallback.
- The pools of `GroupHandler` and `GlobalHandler` hold real dispatchers only. The model builds them with `pcntl_signal` present, since a fallback has no subscriber list to clear or handle.
- `GroupHandler.withSignals` with a plain PHP array is not modelled. The array would be wrapped in a new `ArrayObject`. The model takes the `ArrayObject` form, which is the one `GlobalHandler` uses. The model also requires every pool entry to be keyed by its own signal number.
- Grouping.Pool.Valid: pool entries of other types, and keys that differ from the entry's signal, are not modelled.
- Multi.MultiSignalHandler: its entries are `SignalHandler` objects only. The source accepts any `SignalHandlerInterface`, so a fallback or a nested MultiSignalHandler as an entry is not modelled.
- Multi.MultiSignalHandler.constructor: requires a distinct dispatcher object under each key. The source accepts any iterable, so two keys sharing one dispatcher are not modelled.
- `once` options other than a boolean are not modelled. The source compares with `true ===`, and `CreateSubscriber` keeps only `Some(true)` as one-shot.
- The OS primitives are not called. `pcntl_async_signals`, `pcntl_signal`, `pcntl_signal_get_handler`, `posix_kill` and `posix_getpid` are updates of the `OsState` value. `function_exists` checks become the flag `hasPcntl` and the field `hasPosixKill`.
- Os.WithHandler: accepts every integer signal. The real `pcntl_signal` and `pcntl_signal_get_handler` refuse numbers outside 1 to NSIG-1. PHP 8 throws a ValueError there, so the constructor and `install` would throw. PHP 7 warns and returns false. Neither error is modelled.
- Asynchronous delivery is not modelled. Neither are callbacks that change a dispatcher while its own `handle` runs, or callbacks that throw. Callbacks are opaque numbers recorded in a trace.
- The re-entry that a real `PREV_RECALL` raise would cause is not modelled. Only the raise is recorded.
- A signal number of 0 passed to a group's `append`, `prepend` or `clear` counts as falsy, as `! $signals` does. Other falsy values of other types (`null`, `false`, `'0'`) are not modelled.
- GlobalSpec.GlobalClearedEmpties: states only that no dispatcher is left. The OS state after `clear` is given by `Global.GlobalHandler.Clear` through `GlobalCleared`.
- The dependency-injection configuration and the unit tests are not part of this model.
