# source.watch.js in Dafny

A model of the reactive runtime in `source.watch.js`, with proofs about it:

- the tick scheduler `addTickEvent`;
- sources and watchers, which record who read which property and re-run
  readers when the property is pushed;
- the `Waiter`;
- the `makeGetter`/`makeSetter`/`makeProperty` accessors;
- the reactive `List` and `Dictionary`.

## Layout

| file | module | what |
|---|---|---|
| `values.dfy` | `Values` | JavaScript values (`undefined`, `null`, booleans, integers, strings, object references), property keys, errors, and the `Outcome` of an operation that can throw part-way. |
| `arrays.dfy` | `Arrays` | `indexInArray`, `removeFromArray`, and the ECMAScript `Array.prototype.splice` used as a reference. |
| `tick.dfy` | `Tick` | `addTickEvent`: the pending map in insertion order, and the "flush requested" flag. |
| `runtime.dfy` | `Runtime` | `Source`, `Watcher`, `watch`, `unwatch`, and the flush that runs pending watchers. |
| `waiter.dfy` | `Waiters` | `allSetInObject` and `Waiter`. |
| `accessors.dfy` | `Accessors` | `makeGetter`, `makeSetter`, `makeProperty`. |
| `list.dfy` | `Lists` | `List` and its `ListValue` holders. |
| `dictionary.dfy` | `Dictionaries` | `Dictionary`. |

## How the model works

Sources and watchers are integer ids in one immutable `Runtime.State`. The
state also holds the id counters, the tick scheduler and the active watcher.
It records the calls a watcher body makes to the outside world in `out`.

A watcher's code is not a closure. It is a trace of what one run does:
- `Read(src, key)` is a `pull`;
- `Write(src, key)` is a `push`;
- `Spawn(code)` is a nested `watch`;
- `Untracked(code)` is an `unwatch`;
- `Emit(tag)` is a callback to the outside world;
- `Throw` raises an error.

The host timer is not modelled. `Runtime.Flush` is the explicit step that runs
the pending batch.

A thrown error is a flag, or an `Outcome` with an `error`. In both cases the
state holds every change made before the throw, as it does in JavaScript.

`List` and `Dictionary` operations return the properties they pulled or pushed,
in order, as a log of their own source's keys. For a list holder, the entry
names the holder's own source. Wiring a log into the runtime means applying
`Runtime.Pull` or `Runtime.Push` to each entry in turn. The accessors show that
wiring for one property.

The source behaves in some surprising ways. The model keeps each one as
written, and a lemma exhibits it:
- The guards of `List.set` (line 282) and `List.del` (line 308) test
  `~index < 0`, which holds for every non-negative 32-bit integer.
  - Both therefore reject every real position and accept negative indices.
  - `set` at a negative index writes a property of the array, not an element.
  - `del` of a negative index splices, pushes `'_size'`, then throws in
    `_pushIndices`.
  - `remove` throws whenever it finds the value.
- `pop` is `splice(length, 1)`, which removes nothing.
- `splice` never pushes `'_size'`, so a reader of `size()` is not notified
  (`Lists.PushLeavesSizeStale`).
- A splice that starts past the end gives its holders an `_index` that is
  not their position (`Lists.SpliceBeyondEndMisindexes`).
- `Dictionary.set(k, undefined)` on a new key counts and lists the key but
  stores nothing. Doing it twice lists the key twice
  (`Dictionaries.SetUndefinedTwice`).

So the dictionary invariant `Dictionaries.Valid` is proved preserved only by
writes of defined values.

## Model

| member | source | states |
|---|---|---|
| Arrays.IndexInArray | source.watch.js:32-39 | -1 exactly when the value is absent; otherwise a position holding it with no earlier occurrence |
| Arrays.RemoveFromArray | source.watch.js:41-46 | an absent value leaves the array as it is; a present one is removed once: one element fewer, the multiset minus that value, the elements before its first occurrence in place and those after it moved down one, in order |
| Arrays.Without | source.watch.js:202-206 | deleting a key leaves exactly the other entries, without repeats when there were none, and an absent key leaves the list as it is |
| Arrays.WithoutIsRemove | source.watch.js:202-206 | on a list without repeats, deleting a key keeps the others in order, exactly as `removeFromArray` does |
| Arrays.RemoveKeepsDistinct | source.watch.js:41-46 | on an array without repeats, the result has no repeats and holds exactly the other elements |
| Arrays.SpliceSeq | source.watch.js:332-337 | the standard splice: the elements before the clamped start are kept, the inserts follow, then the elements after the clamped removed count; the length changes by inserts minus removed |
| Tick.Schedule | source.watch.js:71-76 | the thunk is stored under the id, replacing an earlier one; the id joins the order only if new; a flush is requested exactly when none was pending; one entry per id is kept |
| Tick.Flush | source.watch.js:64-69 | the scheduler is left empty with no flush pending before anything runs, and the batch is the pending thunks in first-scheduled order |
| Tick.LastWriterWins | source.watch.js:71-76 | scheduling an id twice keeps one entry in its first position with the second thunk, and asks for no second flush |
| Tick.OneFlushRequest | source.watch.js:73-75 | any sequence of schedules makes at most one flush request, none when one was already pending, and keeps the scheduler valid |
| Tick.ScheduleAfterFlush | source.watch.js:64-76 | a thunk scheduled after a flush lands in the fresh map and requests a new flush |
| Runtime.NewSource | source.watch.js:198-201 | a fresh id with no subscribers; existing sources, watchers, scheduler and active watcher untouched; invariants kept |
| Runtime.Init | source.watch.js:53-62 | the runtime starts with both id counters at zero, no watcher or source, no pending callback and no flush requested, no active watcher, and satisfies the invariants |
| Runtime.NewWatcher | source.watch.js:100-108 | a fresh inert watcher whose parent is the active watcher, appended to that watcher's children, with a larger id than every existing watcher; all else unchanged |
| Runtime.Pull | source.watch.js:207-214 | with no active watcher nothing changes; otherwise the active watcher becomes subscribed under the property and its source map gains exactly the source; the subscriptions afterwards are exactly the old ones plus that one; every other watcher is untouched; the two-way link is kept |
| Runtime.RemoveWatcher | source.watch.js:202-206 | the watcher is deleted under every property and every other entry stays |
| Runtime.RemoveWatcherKeepsOrder | source.watch.js:202-206 | on subscriber lists without repeats, deleting the watcher leaves the other subscribers in their insertion order, the order `push` later visits them |
| Runtime.Unsubscribe | source.watch.js:123-127 | the watcher's subscriptions are exactly the ones removed; its source map is emptied; other watchers and the scheduler are untouched; invariants kept |
| Runtime.Cleanup | source.watch.js:122-132 | the invariants hold after the recursive disposal; no watcher or source appears or vanishes, and the counters, the active watcher and the outside calls are untouched |
| Runtime.CleanupFacts | source.watch.js:122-132 | after `_cleanup` the watcher keeps its code with no sources and no children; every former child is disposed, and so is every watcher removed from any parent's children; every watcher outside its subtree keeps its record and all its subscriptions; no subscription is added; every subscription lost belongs to the watcher itself or to a watcher below it, now disposed |
| Runtime.ClearChildren | source.watch.js:131 | the watcher's children list is emptied and nothing else changes; when every former child is already disposed, every watcher that left a children list is disposed |
| Runtime.ClearCode | source.watch.js:134 | the watcher's code is cleared and nothing else changes |
| Runtime.DisposeChildren | source.watch.js:128-130 | the invariants and the shape of the state are kept |
| Runtime.Dispose | source.watch.js:133-136 | the invariants and the shape of the state are kept |
| Runtime.DisposeFacts | source.watch.js:133-136 | the watcher is disposed (no code, sources or children), and so are its former children and every watcher removed from any parent's children; every watcher outside its subtree keeps its record and all its subscriptions; no subscription is added; every subscription lost belongs to the watcher or a watcher below it, now disposed |
| Runtime.DisposeDisposesDescendants | source.watch.js:128-136 | `dispose` leaves every watcher reachable from the watcher through `_children` links disposed, at any depth |
| Runtime.DisposeChildrenFacts | source.watch.js:128-130 | every child in the list is disposed, and so is every watcher removed from any parent's children; the parent and older watchers are untouched, and so is every watcher outside all the children's subtrees, subscriptions included; every subscription lost belongs to a watcher now disposed, within one child's subtree |
| Runtime.Schedule | source.watch.js:109-121 | the watcher id is pending and a flush is requested; the order gains at most that id; nothing but the scheduler changes |
| Runtime.Invalidate | source.watch.js:141-144 | the invariants and the shape of the state are kept |
| Runtime.InvalidateFacts | source.watch.js:141-144 | the watcher is subscribed nowhere, has no sources and no children but keeps its code, and is pending, the order gaining at most its id; its former children and every watcher removed from any parent's children are disposed; every watcher outside its subtree keeps its record and all its subscriptions; every other subscription lost belongs to a watcher below it, now disposed |
| Runtime.InvalidateDisposesDescendants | source.watch.js:141-144 | `invalidate` leaves every watcher below the watcher, at any depth, disposed |
| Runtime.Watch | source.watch.js:137-140 | the invariants and the shape of the state are kept |
| Runtime.Install | source.watch.js:138 | the invariants hold with the code installed on the watcher |
| Runtime.WatchFacts | source.watch.js:137-140 | after `watch(code)` the watcher holds the new code, is subscribed nowhere, has no sources or children, and is pending with a thunk that runs it; no subscription is added; every watcher outside its former subtree keeps its record and all its subscriptions |
| Runtime.WatchDisposesDescendants | source.watch.js:137-140 | `watch(code)` leaves the watcher's whole former subtree disposed |
| Runtime.WatchNew | source.watch.js:148-152 | a new watcher id exists afterwards and no other watcher appears; the active watcher is unchanged |
| Runtime.WatchNewFacts | source.watch.js:148-152 | the new watcher holds the code, records the active watcher as its parent, is appended to that watcher's children, and is pending; every other watcher is unchanged apart from that append, and the subscriptions are exactly as before |
| Runtime.FirstWatch | source.watch.js:148-152 | the first `watch(code)` of a fresh runtime makes the only watcher, a root holding the code, and schedules its run |
| Runtime.PushEach | source.watch.js:216-218 | the invariants and the shape of the state are kept |
| Runtime.PushEachFacts | source.watch.js:216-218 | nothing is scheduled but listed watchers, and pending entries stay; no subscription is added, no childless watcher gains children, and every watcher that leaves a parent's children is disposed; every subscription lost belongs to a pending or disposed watcher; a watcher outside the subtrees of the listed subscribers keeps its record and all its subscriptions |
| Runtime.PushEachSubscribers | source.watch.js:216-218 | each listed watcher subscribed under the property when the loop starts ends pending or disposed, without children, and subscribed nowhere |
| Runtime.Push | source.watch.js:215-219 | the invariants and the shape of the state are kept |
| Runtime.PushFacts | source.watch.js:215-219 | every subscriber is scheduled unless an earlier invalidation disposed it, is left without children, and is subscribed nowhere afterwards, so the property is left without subscribers; every watcher that leaves a parent's children is disposed; only subscribers are newly scheduled; pending entries stay; no subscribers means no change; subscriptions go only with their watcher's invalidation or disposal; a watcher that is neither a subscriber nor below one keeps its record and all its subscriptions |
| Runtime.PushDisposesDescendants | source.watch.js:215-219 | every watcher below a subscriber of the property, at any depth, ends disposed |
| Runtime.Exec | source.watch.js:116 | running a body keeps the invariants and the active watcher, and never removes a watcher |
| Runtime.Step | source.watch.js:116 | one action of a running body: only a `throw` or an untracked block can throw; a read never schedules anything or calls out; a write calls nothing and creates no watcher; a call out is recorded; the active watcher is restored and no watcher is removed |
| Runtime.Unwatch | source.watch.js:153-163 | the previous active watcher is restored, also when the code throws; invariants kept |
| Runtime.RunThunk | source.watch.js:111-120 | the previous active watcher is restored, also on a throw; a watcher without code makes the thunk a no-op |
| Runtime.RunBatch | source.watch.js:68 | running the captured thunks keeps the invariants and the active watcher |
| Runtime.Flush | source.watch.js:64-69 | a flush keeps the invariants and the active watcher |
| Runtime.ExecReads | source.watch.js:207-214 | a body of reads never throws and subscribes the active watcher under exactly the properties it reads; it changes nothing else observable, and nothing at all with no active watcher |
| Runtime.UntrackedReadInvisible | source.watch.js:153-163 | reads inside `unwatch` leave the whole state as it was |
| Runtime.RunSubscribesExactly | source.watch.js:111-120 | running an unsubscribed watcher whose code reads leaves it subscribed under exactly those reads |
| Runtime.RerunSubscribesExactly | source.watch.js:141-144 | after invalidate and re-run, a watcher's dependencies are exactly the reads of the new run |
| Runtime.DisposedThunkNoop | source.watch.js:112 | the pending thunk of a disposed watcher changes nothing when it runs |
| Runtime.BatchStopsAtThrow | source.watch.js:64-69 | once a thunk throws, the later thunks of the batch never run |
| Runtime.FlushOfDisposed | source.watch.js:64-69 | a flush whose pending watchers all lack code only empties the scheduler |
| Waiters.AllSetInObject | source.watch.js:14-24 | throws a TypeError exactly when the object has an own `hasOwnProperty`; otherwise true exactly when no own value is `null` or `undefined` |
| Waiters.AllSet | source.watch.js:15-21 | true exactly when no own value is `null` or `undefined` |
| Waiters.NewWaiter | source.watch.js:167-169 | the waiter owns a fresh watcher without code |
| Waiters.Await | source.watch.js:170-179 | the invariants hold, and no watcher, calls or active watcher change when `await` is called |
| Waiters.DisposeWaiter | source.watch.js:180-182 | the waiter's watcher and its whole subtree end disposed; every watcher outside that subtree keeps its record and its subscriptions |
| Waiters.InvalidateWaiter | source.watch.js:183-185 | the waiter's watcher keeps its code, loses its sources and children, is subscribed nowhere and is pending; its former subtree is disposed; every watcher outside that subtree keeps its record and its subscriptions |
| Waiters.AwaitBody | source.watch.js:171-178 | a run reads what `buildObject` reads, then throws if the object has an own `hasOwnProperty`, else runs `code` when every own value is set and `elseCode` (or nothing) when one is not |
| Waiters.AwaitInstalls | source.watch.js:170-171 | after `await` the watcher holds the waiting body and a run is pending |
| Waiters.AwaitChoosesBranch | source.watch.js:172-177 | the run throws and calls nothing exactly when the object has an own `hasOwnProperty`; otherwise it calls `code` if and only if every own value is set, and `elseCode` otherwise |
| Waiters.AwaitWithoutElse | source.watch.js:175-177 | without `elseCode` a run over an incomplete object, or one with an own `hasOwnProperty`, calls nothing |
| Waiters.AwaitFiresEveryRun | source.watch.js:171-178 | two runs over a complete object call `code` twice, as there is no deduplication; with an own `hasOwnProperty` both runs throw and call nothing |
| Accessors.Get | source.watch.js:224-229 | returns the field; with no active watcher nothing changes; otherwise the active watcher is subscribed under the field's name, and only that subscription is added |
| Accessors.Set | source.watch.js:230-239 | afterwards the field holds the value and the other fields are unchanged; writing the current value changes nothing |
| Accessors.SetNotifies | source.watch.js:230-239 | writing a new value schedules every watcher subscribed under the field's name that is not disposed on the way, schedules nothing else, and leaves the field without subscribers; each subscriber is left without children, and every watcher below one is disposed; no subscription is added; a watcher that is neither a subscriber nor below one keeps its record and all its subscriptions |
| Accessors.Property | source.watch.js:240-253 | `undefined` reads exactly as the getter does and returns the field; any other value writes exactly as the setter does and returns the object; other fields are unchanged |
| Accessors.PropertyRoundTrip | source.watch.js:240-253 | writing through the property and reading back yields the written value |
| Lists.BitNot | source.watch.js:282 | the 32-bit complement is negative exactly for non-negative inputs |
| Lists.SetRejects | source.watch.js:282 | the guard of `set` rejects exactly the non-negative 32-bit indices |
| Lists.DelRejects | source.watch.js:308 | the guard of `del` lets through exactly the negative 32-bit indices |
| Lists.ReindexData | source.watch.js:302-305 | the reindex keeps every holder and value, leaves holders before the start alone, and gives every later holder its position as `_index` |
| Lists.Reindex | source.watch.js:302-305 | the reindex keeps the number of holders; what it does to each holder is `Lists.ReindexData` |
| Lists.ReindexPositions | source.watch.js:302-305 | the positions from the start to the end are pushed, in order |
| Lists.ReindexLogKinds | source.watch.js:302-305 | besides positions only holders' `'_index'` are pushed |
| Lists.ReindexNotifiesMoved | source.watch.js:303 | a holder's `'_index'` is pushed exactly when the reindex changes it |
| Lists.PushIndices | source.watch.js:299-306 | a negative start throws before any change; otherwise the values are unchanged, positions from the start are pushed in order, and the tail is reindexed |
| Lists.PushIndicesNotifiesHolders | source.watch.js:299-306 | a holder's `'_index'` is pushed exactly when it sits at or past the start with an `_index` that is not its position |
| Lists.NewHolders | source.watch.js:329-331 | the k-th new holder has identity `uid + k`, `_index` start + k with the start as given, and the k-th value |
| Lists.ReindexKeepsValid | source.watch.js:299-306 | reindexing a list whose prefix is in place makes every `_index` equal to its position, with distinct holders |
| Lists.Splice | source.watch.js:323-342 | the values are the standard splice of the values, and the holders' identities the standard splice of the old identities with fresh ones for the inserts; it throws exactly when it reindexes from a negative position; otherwise the positions from where the reindex starts are pushed in order, and `'_data'` is pushed once, last; without a reindex `'_data'` is all it pushes; `'_size'` is never pushed; the only other entries are holders' `'_index'` |
| Lists.SpliceNotifiesHolders | source.watch.js:323-342 | a completed splice that reindexes pushes a holder's `'_index'` exactly when the holder, after the array splice, sits at or past the reindex start with an `_index` that is not its position |
| Lists.SpliceNotifies | source.watch.js:323-342 | a completed splice pushes position `j` exactly when it reindexes and `j` lies between the reindex start and the new end |
| Lists.SpliceHolders | source.watch.js:323-342 | after a completed splice each holder is the one the array splice left at that position, with `_index` set to the position exactly when it lies at or past the reindex start |
| Lists.SpliceKeepsValid | source.watch.js:323-342 | a splice starting inside the list completes and keeps every `_index` equal to its position |
| Lists.SpliceInserts | source.watch.js:327-332 | the k-th insert sits at start + k with `_index` start + k, its value and a fresh source |
| Lists.SpliceBeyondEndMisindexes | source.watch.js:330 | a splice past the end appends a holder whose `_index` is not its position |
| Lists.NewList | source.watch.js:266-270 | the new list holds the initial values, is valid, and pushed only `'_data'` |
| Lists.Push | source.watch.js:343-345 | the value is appended in a holder with a fresh identity, the other holders stay in order, only `'_data'` is pushed, and validity is kept |
| Lists.Pop | source.watch.js:346-348 | nothing is removed and only `'_data'` is pushed |
| Lists.Shift | source.watch.js:349-351 | the first value and its holder are dropped and the others keep their order, every remaining position is pushed, then `'_data'`; validity is kept |
| Lists.Unshift | source.watch.js:352-354 | the value is prepended in a holder with a fresh identity, every old position shifted up is pushed, then `'_data'`; validity is kept |
| Lists.Append | source.watch.js:355-357 | the values are appended in holders with fresh identities, in order, only `'_data'` is pushed, and validity is kept |
| Lists.Get | source.watch.js:276-280 | an element pulls its position and its holder's `'_value'` and returns the value; elsewhere a falsy property is returned and a truthy one throws |
| Lists.Size | source.watch.js:272-275 | pulls `'_size'` and returns the number of values |
| Lists.Data | source.watch.js:271 | pulls `'_data'` and returns the list's own holders |
| Lists.GetReadsValues | source.watch.js:276-280 | reading an element returns its value |
| Lists.PushThenGet | source.watch.js:343-345 | after `push(v)` the new last element reads `v` and the others read as before |
| Lists.UnshiftThenGet | source.watch.js:352-354 | after `unshift(v)` the first element reads `v` and every other reads the value one position earlier |
| Lists.PushLeavesSizeStale | source.watch.js:272-275 | `push` grows the size by one without pushing `'_size'` |
| Lists.Set | source.watch.js:281-298 | throws exactly for non-negative 32-bit indices; never changes the elements; otherwise the property at the index holds the value, and the pushes are the index and `'_data'`: preceded by `'_size'` above the 32-bit range, and absent when a negative index already held the value |
| Lists.SetThenGet | source.watch.js:281-298 | reading back a value `set` accepted returns it when falsy and throws when truthy |
| Lists.Del | source.watch.js:307-322 | never completes: throws before any change except for negative 32-bit indices; those splice one holder out (values and identities alike), leave the other properties and the identity counter alone, push `'_size'`, then throw |
| Lists.Remove | source.watch.js:358-366 | throws without any change when the value is present, and changes nothing otherwise |
| Dictionaries.EmptyDict | source.watch.js:389-394 | the new dictionary has no data, no keys and a zero count, and satisfies the invariant |
| Dictionaries.IsReserved | source.watch.js:403-406 | the refused keys are exactly the three bookkeeping names the dictionary pushes and `hasOwnProperty` |
| Dictionaries.Get | source.watch.js:398-401 | pulls the key and returns its value, `undefined` when absent |
| Dictionaries.SizeOf | source.watch.js:396 | pulls `'_size'`; on a valid dictionary the size is the number of keys |
| Dictionaries.KeysOf | source.watch.js:397 | pulls `'_keys'` and returns the key array in insertion order; on a valid dictionary these are exactly the stored keys |
| Dictionaries.DataOf | source.watch.js:395 | pulls `'_data'`; the data agrees with `get` on every key |
| Dictionaries.Set | source.watch.js:402-424 | throws before any change exactly for reserved keys; afterwards the key reads the value and the other keys are unchanged; a new key is counted and appended to the key order, pushing `'_size'` and `'_keys'`; an existing key leaves the key order and count alone; the data gains or changes an own property only when the value differs, so `undefined` on a new key stores nothing; a changed value pushes the key and `'_data'`; an unchanged value pushes nothing; a defined value keeps the invariant |
| Dictionaries.Del | source.watch.js:425-438 | an absent key changes nothing; a present key is removed from the data (which otherwise stays) and from the key order (the rest keep their order) and uncounted, pushing `'_size'`, `'_keys'`, the key and `'_data'`; the invariant is kept |
| Dictionaries.Extend | source.watch.js:457-463 | an own `hasOwnProperty` throws a TypeError before anything is set; otherwise it is the loop of `set` over the pairs, which throws exactly when some key is reserved; with defined values the invariant is kept |
| Dictionaries.ExtendEach | source.watch.js:457-463 | the loop of `extend` throws `ReservedKey` exactly when some key is reserved; with defined values the invariant is kept; its pushes, data and key order are those of `set` applied pair by pair (`Dictionaries.ExtendEachOne`, `Dictionaries.ExtendEachAppend`) |
| Dictionaries.ExtendEachOne | source.watch.js:457-463 | the loop over one pair is exactly one `set` |
| Dictionaries.ExtendEachAppend | source.watch.js:457-463 | the loop over two runs of pairs is the loop over the first, then, unless that threw, the loop over the second from where it stopped, with the pushes of the first followed by those of the second |
| Dictionaries.ExtendLookup | source.watch.js:457-463 | without reserved keys, every key ends with the value of its last assignment, or keeps its old value |
| Dictionaries.SetThenDel | source.watch.js:402-438 | setting a new key to a defined value and deleting it restores the dictionary exactly |
| Dictionaries.SetUndefinedTwice | source.watch.js:411-420 | setting a new key to `undefined` twice lists it twice, counts two, stores nothing, and breaks the invariant |

## Left out

- Host timers: `setTimeout` and `nextTick` are not modelled; the flush is the explicit step `Runtime.Flush`.
- `makeClass` and its prototype plumbing, the module-level factory functions and the export object are not modelled. The factories are `watcher`, `source`, `waiter`, `await`, `list` and `dictionary`; each is a constructor, or a constructor followed by `Waiters.Await`.
- `List.each`/`eachWatch` and `Dictionary.each`/`eachWatch` are not modelled, because they call arbitrary callbacks. Their reads are not modelled either: `List.each` pulls `'_data'`, and `Dictionary.each` pulls `'_keys'` and `'_data'`. `eachWatch` creates one watcher per element with `watch`, and the dictionary version pulls the element's key inside it. The model's own pulls, `Runtime.WatchNew` and watcher bodies express the same effects.
- Watcher code is a fixed trace, not a closure, so a body cannot branch on what it reads. `Waiters.Await` takes the object `buildObject` returns as a snapshot fixed for every run.
- JavaScript coercion of property keys is not modelled. Keys are integers or names. `List.del` on numeric strings and non-integer indices are left out.
- Objects passed as values are assumed to have no `value` or `index` methods. So a truthy raw value read through `List.get` always throws.
- Properties inherited from `Object.prototype` are not modelled: a `Dictionary` key like `toString` reads as absent.
- Runtime.Pull: property names inherited from `Object.prototype` (`toString`, `constructor`, …) are treated as ordinary names. In the source, `pwMap[name] ||` finds the shared inherited function and stores the watcher on it. So a push of that name on any source reaches the watcher, and `_removeWatcher` never deletes it. Only own names are modelled.
- No value is a function. An own `hasOwnProperty` of an object given to `allSetInObject` or `eachInObject` therefore always makes the call throw a TypeError. A function stored there would instead be called, with results the model does not follow.
- Numbers are unbounded integers (`Num`). Fractions, infinities and `NaN` are not modelled. Because `NaN !== NaN`, writing `NaN` over `NaN` pushes in the source: in the setter (line 233), `makeProperty` (line 247), `List.set` (line 292) and `Dictionary.set` (line 418). In the model, writing an equal value pushes nothing.
- `Dictionary.extend` takes its object as a sequence of pairs in enumeration order. JavaScript's ordering of integer-like keys is not modelled.
- Lists.Set: an index above 2^31 - 1 is modelled as past the end, and its raw value is stored as a property. A list with more elements than that index is excluded by the precondition. So is the growth of `length` that such an index causes for values below 2^32 - 1.
- Lists.Reindex: its contract states only the length; what it does is stated by `Lists.ReindexData`, `Lists.ReindexPositions`, `Lists.ReindexLogKinds` and `Lists.ReindexNotifiesMoved`.
- Runtime.Cleanup: its contract states only the invariants and the shape of the state; what cleanup achieves is `Runtime.CleanupFacts`. The same split holds for Runtime.DisposeChildren with `Runtime.DisposeChildrenFacts`, for Runtime.Dispose with `Runtime.DisposeFacts`, for Runtime.Invalidate with `Runtime.InvalidateFacts`, for Runtime.Watch with `Runtime.WatchFacts`, and for Runtime.PushEach and Runtime.Push with `Runtime.PushEachFacts`, `Runtime.PushEachSubscribers`, `Runtime.PushFacts` and `Runtime.PushDisposesDescendants`.
- Runtime.DisposeChildren: its own contract states the invariants and the shape of the state only; what the loop achieves is `Runtime.DisposeChildrenFacts`.
- Runtime.Frame does not constrain the `parent` field. Inside the subtree that is torn down, `parent` is not followed; outside it, `Runtime.Kept` pins the whole watcher record.
- Runtime.Flush: only invariant preservation, the stop at a throw and the no-op for disposed watchers are proved. No liveness property (every pending watcher eventually runs) is stated.
- Runtime.Exec: it states that watchers are never removed, but not which new ones appear.
- Id counters are unbounded integers. The source builds ids as `'_watcher_' + n` and `'_source_' + n` strings; the model uses the numbers.
