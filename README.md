# hooks-emitter in Dafny

A model of `index.js` of hooks-emitter, an event-emitter capability that is
mixed into objects. The listener storage (`callbacks`) lives on
`Emitter.prototype` and is shared by every object that receives the
capability. An object gets its own copy only when it first writes:
- `thisCallbacks` promotes the shared registry into a child registry owned
  by the object, made with `objectCreate`;
- `thisHandlers` copies an inherited listener array before changing it.

This lets an instance share class-level defaults while its own `on`, `once`
and `off` never change what a sibling or its prototype lists. The `_off`
property that `once` sets is the exception: it lives on the function, which
every emitter shares (see Findings).

The model is a heap model. `lists.dfy` holds the array operations
(`indexOf`, `splice`) on sequences. `emitter.dfy` holds four classes:

- `Handler` is a listener function, compared by identity. Its field `off` is
  the `_off` property that `once` sets. A once-adapter remembers the
  emitter, the event and the function it forwards to.
- `ListCell` is a listener array together with its `__owner` stamp.
- `Registry` is a `callbacks` object. It has its own entries (an array, or
  `null` after `off(event)`), its `__owner`, and the registry it was created
  from (`parent`). A lookup that misses its own entries falls through to
  `parent`, as a JavaScript prototype lookup does.
- `Emitter` is an object carrying the capability. It has its own `callbacks`
  property, or none, in which case it reads its JavaScript prototype's
  (`proto`). `Emitter.prototype` is the object built by the constructor
  `Prototype`.

`Listeners(e)` is what `listeners(event)` returns: the contents of
`this.callbacks[event] || []`. It is the specification function that all
contracts are stated in. `HasListeners(e)` is `hasListeners(event)`.

Each write method has a *write set* `Writable(e)`:
- the object itself;
- the registry it owns, if it owns one;
- its own array for `e`, if it has one.

`on` and `off` may modify only that set. `once` and the creation of its
adapter may in addition modify `fn`, whose `_off` property they set. Each
write method keeps the invariant `Valid()`, says exactly how `Listeners(e)`
changes, and says that no other event changes.

Isolation is proved from frames:
- `Unrelated(b)` says that `b` neither reads `callbacks` through this object
  nor reads a registry this object owns. Siblings sharing a default are
  unrelated, and so is an ancestor seen from its heir.
- `Separated` shows that such a `b` reads nothing in the writer's write set.
- The `*Isolated` methods of `properties.dfy` then prove, for `on`, `once`,
  `off(event, fn)` as written, the corrected `off(event, fn)` and
  `off(event)`, that a write on an emitter changes nothing an unrelated
  emitter lists, for any event.

`scenarios.dfy` builds concrete object graphs from a fresh
`Emitter.prototype` and proves the behaviours the library is meant to have:
- a "tick" example on two mixed siblings;
- class-level defaults shared by instances;
- two misbehaviours of `_off` (see Findings).

Two behaviours of the code that the model keeps as written:

- `off(event)` calls `thisCallbacks()` before storing `null` (index.js:104).
  A clear is therefore local to the object it is called on. The shared
  default registry is never written by `off(event)` on any object other than
  `Emitter.prototype`, whose own registry it is (index.js:20, index.js:29).
  `OffAllIsolated` proves the first part, and `Scenarios.PrototypeClears`
  shows the exception.
- Promotion does not copy the registry's mapping. `objectCreate` makes a
  child whose lookups fall through to the old registry. The model keeps that
  link (`Registry.parent`), so an event the instance never wrote still reads
  through to what its ancestor holds, including what the ancestor writes
  later. `Scenarios.PromotedReadsThrough` shows this.

## Model

| member | source | states |
|---|---|---|
| Lists.IndexOf | index.js:110 | the result is -1 exactly when the element is absent; otherwise it is a position holding the element, with no copy of it before that position |
| Lists.RemoveAt | index.js:111 | `splice(i, 1)` shortens the array by one and keeps every other element in its order |
| Lists.RemoveFirst | index.js:110-111 | `indexOf` then `splice(i, 1)` when found: an absent handler leaves the array as it is, and a present one shortens it by exactly one |
| Lists.RemoveAbsent | index.js:110-111 | removing a handler that is not listed leaves the array unchanged |
| Lists.RemoveFirstCount | index.js:110-111 | removing a listed handler takes exactly one copy of it out: the multiset loses that one element and the length drops by one |
| Lists.RemoveFirstOrder | index.js:110-111 | the removal cuts the first occurrence out, and the surviving handlers keep their order |
| Lists.RemoveOnlyCopy | index.js:110-111 | a handler listed once is gone after it is removed |
| Lists.RemoveAppended | index.js:110-111 | removing a handler just appended to a list that did not hold it gives back the list as it was (`on` undone by `off`) |
| Lists.AppendFresh | index.js:64 | a freshly created handler that is pushed occurs exactly once |
| HooksEmitter.OffTarget | index.js:110 | `fn._off \|\| fn`: the adapter when `_off` is set, otherwise the function itself |
| HooksEmitter.RemovalTarget | index.js:110 | the corrected target: `fn._off` only while that adapter is still in the list, otherwise `fn` |
| HooksEmitter.Registry.constructor | index.js:30-31 | a new registry has no entries of its own; it records its owner and the registry it inherits from, and its chain stays finite and consistently stamped |
| HooksEmitter.Registry.Find | index.js:43 | `cbs[event]` through the prototype chain: a registry's own entry (an array or `null`) wins, and a miss on a registry with no parent finds nothing |
| HooksEmitter.Registry.FindFacts | index.js:43 | an array found through the chain was stored under that event and belongs to the owner of one of the chain's registries |
| HooksEmitter.Registry.EmptyFallsThrough | index.js:30 | a just-promoted registry answers every lookup exactly as its parent does |
| HooksEmitter.Registry.CellOwners | index.js:46-49 | every array on a registry chain is stamped with the owner of a registry on that chain |
| HooksEmitter.Registry.Put | index.js:104 | storing an entry changes the lookup of that event only, and keeps stamps consistent |
| HooksEmitter.Registry.Install | index.js:45-49 | a new array, stamped with the registry's owner, becomes that event's entry; nothing else any lookup returns changes |
| HooksEmitter.Emitter.Prototype | index.js:20 | `Emitter.prototype` owns an empty default registry |
| HooksEmitter.Emitter.Mixin | index.js:3-12 | a mixed object reads the default registry itself, which it does not own |
| HooksEmitter.Emitter.Mix | index.js:7-12 | mixing into an object that already inherits the capability makes it read the default registry, and it lists what the prototype lists |
| HooksEmitter.Emitter.Inherit | index.js:3-5 | an object created from an emitter has no `callbacks` of its own and reads its prototype's registry |
| HooksEmitter.Emitter.Callbacks | index.js:29 | `this.callbacks`: the object's own property when it has one, otherwise its prototype's, and nothing at the end of the chain |
| HooksEmitter.Emitter.Listeners | index.js:146-148 | `this.callbacks[event] \|\| []`: nothing when the lookup finds no array (missing or cleared), otherwise that array's contents |
| HooksEmitter.Emitter.HasListeners | index.js:158-160 | true exactly when `listeners(event)` is non-empty |
| HooksEmitter.Emitter.Separated | index.js:28-52 | an unrelated emitter reads nothing that a write by this emitter may change |
| HooksEmitter.Emitter.ThisCallbacks | index.js:28-33 | returns a registry the emitter owns. It is the current one when already owned, else a fresh child of it. A second call returns the same one. No listener of any event changes |
| HooksEmitter.Emitter.ThisHandlers | index.js:41-52 | returns an array for `e` that the emitter owns in its own registry, holding exactly the listeners `e` had. It is fresh when the array was missing or not owned, and the existing one otherwise. Nothing any event lists changes; a registry the emitter already owned is kept, and otherwise the new one is a child of the old one |
| HooksEmitter.Emitter.Rewrite | index.js:64 | an in-place change of the emitter's own array changes what `e` lists to the new contents and no other event |
| HooksEmitter.Emitter.On | index.js:63-66 | `e` lists what it listed before plus `fn` at the end; no other event changes; writes stay within the emitter's write set; a registry the emitter already owned is kept, and otherwise the new one is a child of the old one |
| HooksEmitter.Emitter.NewAdapter | index.js:81-86 | creates the adapter for `fn` on this emitter and event and records it as `fn._off`; no listener changes |
| HooksEmitter.Emitter.Once | index.js:78-89 | a fresh adapter that forwards to `fn` becomes `fn._off` and is appended to `e`; no other event changes; a registry the emitter already owned is kept, and otherwise the new one is a child of the old one |
| HooksEmitter.Emitter.RemoveHandler | index.js:109-111 | `thisHandlers(event)`, then `indexOf` and `splice`: `e` loses the first occurrence of the given handler (nothing if absent); no other event changes; afterwards the emitter owns its registry and its array for `e`; a registry the emitter already owned is kept, and otherwise the new one is a child of the old one |
| HooksEmitter.Emitter.OffAsWritten | index.js:108-112 | `e` loses the first occurrence of `fn._off \|\| fn` (nothing if absent); no other event changes; a registry the emitter already owned is kept, and otherwise the new one is a child of the old one |
| HooksEmitter.Emitter.Off | index.js:108-112 | the corrected `off(e, fn)`: `e` loses the first occurrence of `RemovalTarget(fn, list)`; no other event changes; a registry the emitter already owned is kept, and otherwise the new one is a child of the old one |
| HooksEmitter.Emitter.OffAll | index.js:103-106 | after promotion, the emitter's own entry for `e` is `null`, so `e` lists nothing even if an ancestor's array holds handlers; no other event changes; a registry the emitter already owned is kept, and otherwise the new one is a child of the old one |
| HooksEmitter.Emitter.Emit | index.js:124-136 | delivers exactly the snapshot of what `e` lists, in order, and changes nothing (an absent or cleared list delivers nothing) |
| HooksEmitter.CallOnceAdapter | index.js:81-84 | calling the adapter runs `self.off(event, on)` as written, which removes the first occurrence of `on._off \|\| on`, and then forwards to `fn` |
| HooksEmitter.CallCorrectedAdapter | index.js:81-84 | the corrected adapter removes the first occurrence of itself, whatever its own `_off` holds, and then forwards to `fn` |
| EmitterProperties.OnIsolated | index.js:63-66 | `a.on(e, fn)` appends `fn` for `a` while an unrelated emitter lists exactly what it listed before, for every event |
| EmitterProperties.OnceIsolated | index.js:78-89 | `a.once(e, fn)` appends the adapter for `a` and leaves an unrelated emitter unchanged |
| EmitterProperties.OffIsolated | index.js:108-112 | `a.off(e, fn)` as written removes the first occurrence of `fn._off \|\| fn` for `a` and leaves an unrelated emitter unchanged |
| EmitterProperties.CorrectedOffIsolated | index.js:108-112 | the corrected `a.off(e, fn)` removes the first occurrence of `RemovalTarget(fn, list)` for `a` and leaves an unrelated emitter unchanged |
| EmitterProperties.OffAllIsolated | index.js:103-106 | `a.off(e)` empties `e` for `a` and leaves an unrelated emitter unchanged, even one reading the same inherited array |
| EmitterProperties.PromoteTwice | index.js:28-33 | two calls of `thisCallbacks()` return the same owned registry and change no listener |
| EmitterProperties.OnceFiresOnce | index.js:78-89 | after `once`, the first emit delivers the adapter exactly once; calling it runs `fn` and unregisters it; the second emit does not deliver it; the listeners are back to what they were |
| EmitterProperties.OnceThenOff | index.js:78-112 | `once(e, fn)` then `off(e, fn)` as written, before any emit, removes the adapter; the emit delivers what was listed before `once` |
| EmitterProperties.OnceThenCorrectedOff | index.js:78-112 | the same with the corrected `off(e, fn)` |
| EmitterProperties.ClearThenOn | index.js:101-106 | after `off(e)`, `hasListeners(e)` is false; a following `on(e, g)` makes the emit deliver exactly `[g]`, whatever was inherited before |
| EmitterProperties.FiredThenOn | index.js:81-87 | after the adapter has fired, `on(e, fn)` lists `fn` again while `fn._off` still names the unlisted adapter |
| EmitterProperties.OffAsWrittenMissesStale | index.js:110 | in that state `off(e, fn)` as written removes nothing, and the next emit still delivers `fn` |
| EmitterProperties.OffRemovesAfterStale | index.js:110 | in that state the corrected `off(e, fn)` removes `fn` |
| EmitterProperties.AdapterKeptAsWritten | index.js:82 | an adapter whose own `_off` names a different, unlisted adapter does not remove itself when it fires: `e` still lists it, and the next emit delivers it again |
| EmitterProperties.AdapterRemovedCorrected | index.js:82 | the corrected adapter removes itself when it fires, and the next emit delivers what was listed before it |
| Scenarios.Siblings | index.js:3-20 | two objects mixed from `Emitter.prototype` share its empty default registry and are unrelated to each other |
| Scenarios.TickOn | index.js:63-66 | `a` registers `f1`, `f2` for "tick": `b`'s emit delivers nothing and `a`'s delivers `f1` then `f2` |
| Scenarios.Tick | index.js:124-136 | the same, from a fresh `Emitter.prototype` and two mixed siblings |
| Scenarios.Mixed | index.js:7-12 | an object mixed from a fresh prototype reads the empty default registry |
| Scenarios.Heir | index.js:3-5 | an object created from emitter `p` lists what `p` lists, may write only to itself, and leaves `p` unchanged |
| Scenarios.InstanceOn | index.js:63-66 | an instance of `p` that registers `g` lists `p`'s handlers plus `g`, and `p` is unchanged |
| Scenarios.ClassWithInstance | index.js:41-52 | a class prototype lists `[f]`, and an instance that added `g` lists `[f, g]` |
| Scenarios.ClassDefaults | index.js:124-136 | in that setting the prototype delivers `[f]`, the instance delivers `[f, g]`, and a later instance delivers `[f]` |
| Scenarios.EmitThree | index.js:124-136 | emits on three emitters in turn, each delivering what it listed before |
| Scenarios.StaleOff | index.js:86 | `once`, a fired adapter, then `on("t", f)`: `off("t", f)` as written leaves `[f]` listed, and the corrected `off` leaves `[]` |
| Scenarios.PromotedReadsThrough | index.js:28-33 | an object mixed from `Emitter.prototype` promotes its registry; after `Emitter.prototype.on("tick", f)` both list `[f]`, the promoted object through its registry's parent |
| Scenarios.PrototypeClears | index.js:103-106 | `Emitter.prototype.off("x")` stores `null` in the default registry it owns, so a mixed object that listed `[f]` for "x" lists nothing |
| Scenarios.StaleOnSibling | index.js:110 | on an emitter that lists nothing for "x", with `f._off` naming another handler: `on("x", f)` then `off("x", f)` as written leaves `[f]`, and the corrected `off` leaves `[]` |
| Scenarios.SiblingOnce | index.js:78-89 | `a.once("y", f)` on one of two fresh siblings sets `f._off` to an adapter, while the other sibling still lists nothing for "x" |
| Scenarios.SiblingStaleOff | index.js:86 | `a.once("y", f)` on one sibling sets `f._off`, so the other sibling's `on("x", f)` and `off("x", f)` as written leave `[f]` listed there; the corrected `off` leaves `[]` |
| Scenarios.OnceOnAdapter | index.js:78-89 | on two siblings, `a.once("t", f)` and then `b.once("u", f._off)`: `a` lists the adapter `on` for `f`, and `on._off` is a different adapter |
| Scenarios.ReusedAdapter | index.js:82 | from there, `a.emit("t")` with the adapter as written leaves `[on]` listed, so `f` runs on every later emit; the corrected adapter leaves `[]` |

## Left out

- Invoking handlers: `Emit` returns the sequence of handlers it would call,
  in order, instead of calling them. Effects of a handler during an emit are
  not modelled: nested `emit`, `on` and `off`, and exceptions that stop
  delivery. The once-adapter's own effect is modelled by `CallOnceAdapter`,
  applied to a handler that an emit delivered.
- HooksEmitter.CallOnceAdapter: returns `fn` instead of calling it, because
  `fn.apply(this, arguments)` runs code the library does not define. The
  same holds for HooksEmitter.CallCorrectedAdapter.
- HooksEmitter.Emitter.Off: the correction covers only a stale `_off` (an
  adapter no longer listed). After `once(e1, f); once(e2, f)`, `f._off` names
  the adapter for `e2`, which is listed on `e2`, so `off(e1, f)` removes
  nothing from `e1`, both as written and corrected. The model does not
  correct that case, since the library keeps a single `_off` per function.
- Missing handlers: `Handler` parameters are never `null`. In the library,
  `off(event, undefined)` still promotes the registry and copies the array
  (index.js:109) before it throws on `fn._off` (index.js:110), and
  `once(event, undefined)` throws on `fn._off = on` (index.js:86). The model
  does not represent thrown exceptions.
- Call arguments and `this` binding of handlers (`apply`, `arguments`), and
  the extra arguments of `emit`.
- The fluent `return this` of `on`, `once`, `off` and `emit`. The methods
  return nothing, since the result would only be the receiver.
- The `arguments.length` dispatch of `off`. Its two forms are separate
  methods: `OffAll` for `off(event)`, and `OffAsWritten`/`Off` for
  `off(event, fn)`.
- The `objectCreate` fallback for engines without `Object.create`. Both
  forms yield an object that inherits from a given prototype, which is
  `Registry.parent`.
- The `for ... in` copy of `mixin`. Only the `callbacks` property matters to
  the state; the copied methods are the Dafny methods themselves.
- Event names that collide with `__owner` or with properties of
  `Object.prototype`. Events are arbitrary strings kept apart from a
  registry's owner.
- `listeners(event)` returns the live array, which a caller could mutate
  behind the emitter's back. The model returns its contents as a value.
- Isolation is proved for each writer and each emitter unrelated to it
  (`*Isolated`), not as one statement over every object of a heap.

## Findings

| source | as written | input that shows it | evidently intended | confidence | as-written member | corrected member |
|---|---|---|---|---|---|---|
| index.js:110 | `off(event, fn)` removes `fn._off \|\| fn`. `_off` is set by `once` (index.js:86) and never cleared, so it can name an adapter that has already unregistered itself | `once("t", f)`; `emit("t")` (the adapter runs and removes itself); `on("t", f)`; `off("t", f)` leaves `f` registered, and the next emit still calls it. Across emitters as well: `a.once("y", f)`; `b.on("x", f)`; `b.off("x", f)` leaves `f` registered on the sibling `b` (`Scenarios.SiblingStaleOff`) | `off(event, fn)` removes `fn` when its adapter is no longer listed | medium, not executed | EmitterProperties.OffAsWrittenMissesStale | EmitterProperties.OffRemovesAfterStale |
| index.js:82 | the adapter unregisters itself by `self.off(event, on)`, which removes `on._off \|\| on`. When `on` was itself passed to `once`, its `_off` names another adapter (index.js:86), so `on` stays listed | `a.once("t", f)`; `b.once("u", f._off)`; `a.emit("t")`: the adapter for `f` stays registered on `a`, and `f` runs on every later `a.emit("t")` | the adapter removes itself | medium, not executed | EmitterProperties.AdapterKeptAsWritten | EmitterProperties.AdapterRemovedCorrected |
