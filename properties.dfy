/** What the emitter promises across calls, for arbitrary emitters: a write
    by one emitter changes nothing that an emitter unrelated to it lists, a
    `once` handler fires at most once, and `off` undoes `on`/`once`. The
    `_off` that `once` sets on a function is not isolated: it belongs to the
    function, which every emitter shares. */
module EmitterProperties {
  import opened Lists
  import opened HooksEmitter

  /** `a.on(e, fn)` changes nothing that an unrelated emitter `b` lists, and
      `b` stays unrelated to `a`. */
  method OnIsolated(a: Emitter, b: Emitter, e: string, fn: Handler)
    requires a.Valid() && b.Valid() && a.Unrelated(b)
    modifies a.Writable(e)
    ensures a.Valid() && a.Listeners(e) == old(a.Listeners(e)) + [fn]
    ensures b.Valid() && a.Unrelated(b) && fresh(a.Writable(e) - old(a.Writable(e)))
    ensures forall x :: b.Listeners(x) == old(b.Listeners(x))
  {
    a.Separated(b, e);
    b.FootprintAllocated();
    a.On(e, fn);
    b.Undisturbed(old(b.Footprint()));
  }

  /** `a.once(e, fn)` likewise leaves an unrelated emitter untouched. */
  method OnceIsolated(a: Emitter, b: Emitter, e: string, fn: Handler)
    requires a.Valid() && b.Valid() && a.Unrelated(b)
    modifies a.Writable(e), fn
    ensures a.Valid() && fn.off != null && fresh(fn.off) && a.Listeners(e) == old(a.Listeners(e)) + [fn.off]
    ensures fn.off.IsOnceAdapter() && fn.off.self == a && fn.off.event == e && fn.off.wrapped == fn
    ensures a.Callbacks().Owners() == old(a.Callbacks().Owners()) + {a}
    ensures b.Valid() && a.Unrelated(b) && fresh(a.Writable(e) - old(a.Writable(e)))
    ensures forall x :: b.Listeners(x) == old(b.Listeners(x)) && b.Writable(x) == old(b.Writable(x))
  {
    a.Separated(b, e);
    b.FootprintAllocated();
    a.Once(e, fn);
    b.Undisturbed(old(b.Footprint()));
  }

  /** `a.off(e, fn)` as index.js writes it likewise leaves an unrelated
      emitter untouched. */
  method OffIsolated(a: Emitter, b: Emitter, e: string, fn: Handler)
    requires a.Valid() && b.Valid() && a.Unrelated(b)
    modifies a.Writable(e)
    ensures a.Valid() && a.Listeners(e) == RemoveFirst(old(a.Listeners(e)), old(OffTarget(fn)))
    ensures b.Valid() && a.Unrelated(b) && fresh(a.Writable(e) - old(a.Writable(e)))
    ensures forall x :: b.Listeners(x) == old(b.Listeners(x))
  {
    a.Separated(b, e);
    b.FootprintAllocated();
    a.OffAsWritten(e, fn);
    b.Undisturbed(old(b.Footprint()));
  }

  /** So does the corrected `a.off(e, fn)`. */
  method CorrectedOffIsolated(a: Emitter, b: Emitter, e: string, fn: Handler)
    requires a.Valid() && b.Valid() && a.Unrelated(b)
    modifies a.Writable(e)
    ensures a.Valid() && a.Listeners(e) == RemoveFirst(old(a.Listeners(e)), old(RemovalTarget(fn, a.Listeners(e))))
    ensures b.Valid() && a.Unrelated(b) && fresh(a.Writable(e) - old(a.Writable(e)))
    ensures forall x :: b.Listeners(x) == old(b.Listeners(x))
  {
    a.Separated(b, e);
    b.FootprintAllocated();
    a.Off(e, fn);
    b.Undisturbed(old(b.Footprint()));
  }

  /** `a.off(e)` empties `e` for `a` alone, even when the array was
      inherited from a default or a prototype that `b` still reads. */
  method OffAllIsolated(a: Emitter, b: Emitter, e: string)
    requires a.Valid() && b.Valid() && a.Unrelated(b)
    modifies a.Writable(e)
    ensures a.Valid() && a.Listeners(e) == []
    ensures b.Valid() && a.Unrelated(b) && fresh(a.Writable(e) - old(a.Writable(e)))
    ensures forall x :: b.Listeners(x) == old(b.Listeners(x))
  {
    a.Separated(b, e);
    b.FootprintAllocated();
    a.OffAll(e);
    b.Undisturbed(old(b.Footprint()));
  }

  /** A second `thisCallbacks()` returns the registry the first one made,
      and promotion changes no listener. */
  method PromoteTwice(em: Emitter) returns (r1: Registry, r2: Registry)
    requires em.Valid()
    modifies em
    ensures em.Valid() && r1 == r2 == em.Callbacks() && r1.owner == em
    ensures forall x :: em.Listeners(x) == old(em.Listeners(x))
  {
    r1 := em.ThisCallbacks();
    r2 := em.ThisCallbacks();
  }

  /** `once(e, fn)` followed by two `emit(e)`: the adapter is delivered by the
      first emit exactly once, calling it runs `fn` and unregisters it, the
      second emit no longer delivers it, and the listeners are back to what
      they were before `once`. */
  method OnceFiresOnce(em: Emitter, e: string, fn: Handler)
    returns (a: Handler, first: seq<Handler>, called: Handler, second: seq<Handler>)
    requires em.Valid()
    modifies em.Writable(e), fn
    ensures em.Valid() && a.wrapped == fn
    ensures multiset(first)[a] == 1 && called == fn && a !in second
    ensures second == old(em.Listeners(e)) == em.Listeners(e)
  {
    em.FootprintAllocated();
    ghost var before := em.Listeners(e);
    em.Once(e, fn);
    a := fn.off;
    assert a !in before && em.Listeners(e) == before + [a];
    em.FootprintAllocated();
    label armed:
    first := em.Emit(e);
    em.Undisturbed@armed(old@armed(em.Footprint()));
    assert first == before + [a];
    AppendFresh(before, a);
    called := CallOnceAdapter(a);
    RemoveAppended(before, a);
    assert em.Listeners(e) == before;
    em.FootprintAllocated();
    label fired:
    second := em.Emit(e);
    em.Undisturbed@fired(old@fired(em.Footprint()));
  }

  /** `once(e, fn)` then `off(e, fn)`, as index.js writes it, before any
      emit: the adapter is removed and the listeners are back to what they
      were. */
  method OnceThenOff(em: Emitter, e: string, fn: Handler) returns (a: Handler, seen: seq<Handler>)
    requires em.Valid()
    modifies em.Writable(e), fn
    ensures em.Valid() && a.wrapped == fn
    ensures a !in seen && seen == old(em.Listeners(e)) == em.Listeners(e)
  {
    em.FootprintAllocated();
    ghost var before := em.Listeners(e);
    em.Once(e, fn);
    a := fn.off;
    assert a !in before;
    em.OffAsWritten(e, fn);
    RemoveAppended(before, a);
    em.FootprintAllocated();
    seen := em.Emit(e);
  }

  /** The corrected `off(e, fn)` does the same in that situation. */
  method OnceThenCorrectedOff(em: Emitter, e: string, fn: Handler) returns (a: Handler, seen: seq<Handler>)
    requires em.Valid()
    modifies em.Writable(e), fn
    ensures em.Valid() && a.wrapped == fn
    ensures a !in seen && seen == old(em.Listeners(e)) == em.Listeners(e)
  {
    em.FootprintAllocated();
    ghost var before := em.Listeners(e);
    em.Once(e, fn);
    a := fn.off;
    assert a !in before;
    em.Off(e, fn);
    RemoveAppended(before, a);
    em.FootprintAllocated();
    seen := em.Emit(e);
  }

  /** `off(e)` then `on(e, g)`: nothing is listed in between, and afterwards
      exactly `g` is, whatever was listed or inherited before. */
  method ClearThenOn(em: Emitter, e: string, g: Handler) returns (had: bool, after: seq<Handler>)
    requires em.Valid()
    modifies em.Writable(e)
    ensures em.Valid() && !had && after == [g]
  {
    em.OffAll(e);
    had := em.HasListeners(e);
    em.On(e, g);
    em.FootprintAllocated();
    after := em.Emit(e);
  }

  /** The adapter of `once(e, fn)` fires, unregistering itself, and `fn` is
      registered again with `on(e, fn)`: `fn` is listed, while `fn._off`
      still names the adapter, which no longer is. The library does not need
      `em.Settled(e)`: it is required only so that no promotion or copy
      happens along the way, which keeps the proof small. */
  method FiredThenOn(em: Emitter, e: string, fn: Handler, ghost before: seq<Handler>)
    requires em.Valid() && em.Settled(e)
    requires fn.off != null && fn.off.IsOnceAdapter() && fn.off.self == em && fn.off.event == e
    requires fn.off.off == null
    requires em.Listeners(e) == before + [fn.off] && fn.off !in before
    modifies em.Writable(e)
    ensures em.Valid() && em.Settled(e) && em.Writable(e) == old(em.Writable(e))
    ensures em.Listeners(e) == before + [fn] && fn.off == old(fn.off)
  {
    var a := fn.off;
    var called := CallOnceAdapter(a);
    assert em.Valid() && em.Settled(e) && em.Writable(e) == old(em.Writable(e));
    RemoveAppended(before, a);
    assert em.Listeners(e) == before;
    assert fn !in em.Writable(e);
    em.On(e, fn);
    assert fn.off == a;
  }

  /** After `FiredThenOn`, `off(e, fn)` as index.js writes it searches for
      the stale adapter `fn._off`, removes nothing, and `fn` is still
      delivered by the next emit. As for `FiredThenOn`, `em.Settled(e)` is
      required only to keep the proof small; the library does not need it. */
  method OffAsWrittenMissesStale(em: Emitter, e: string, fn: Handler, ghost before: seq<Handler>)
    returns (stale: seq<Handler>)
    requires em.Valid() && em.Settled(e)
    requires em.Listeners(e) == before + [fn] && fn.off != null && fn.off !in before + [fn]
    modifies em.Writable(e)
    ensures em.Valid() && em.Settled(e) && em.Writable(e) == old(em.Writable(e))
    ensures stale == em.Listeners(e) == before + [fn] && fn.off == old(fn.off)
  {
    var a := fn.off;
    assert fn !in em.Writable(e);
    em.OffAsWritten(e, fn);
    assert fn.off == a;
    RemoveAbsent(before + [fn], a);
    assert em.Listeners(e) == before + [fn];
    em.FootprintAllocated();
    label stillListed:
    stale := em.Emit(e);
    em.Undisturbed@stillListed(old@stillListed(em.Footprint()));
  }

  /** In the same situation the corrected `off(e, fn)` falls back to `fn`,
      since its `_off` is no longer listed, and removes it. */
  method OffRemovesAfterStale(em: Emitter, e: string, fn: Handler, ghost before: seq<Handler>)
    returns (left: seq<Handler>)
    requires em.Valid()
    requires em.Listeners(e) == before + [fn] && fn.off != null && fn.off !in before + [fn] && fn !in before
    modifies em.Writable(e)
    ensures em.Valid() && left == em.Listeners(e) == before
  {
    assert RemovalTarget(fn, before + [fn]) == fn;
    em.Off(e, fn);
    RemoveAppended(before, fn);
    em.FootprintAllocated();
    left := em.Emit(e);
  }

  /** A once-adapter `on` whose own `_off` names a handler that is not
      listed, as after `once(other, on)`, does not unregister itself when it
      fires: `off(e, on)` as index.js writes it searches for `on._off`. It is
      still listed, so every later emit delivers it, and its `fn`, again. */
  method AdapterKeptAsWritten(em: Emitter, e: string, on: Handler, ghost before: seq<Handler>)
    returns (stale: seq<Handler>)
    requires em.Valid()
    requires on.IsOnceAdapter() && on.self == em && on.event == e
    requires em.Listeners(e) == before + [on] && on.off != null && on.off !in before + [on]
    modifies em.Writable(e)
    ensures em.Valid() && fresh(em.Writable(e) - old(em.Writable(e)))
    ensures stale == em.Listeners(e) == before + [on]
  {
    var called := CallOnceAdapter(on);
    RemoveAbsent(before + [on], old(on.off));
    assert em.Listeners(e) == before + [on];
    em.FootprintAllocated();
    label fired:
    stale := em.Emit(e);
    em.Undisturbed@fired(old@fired(em.Footprint()));
  }

  /** The corrected adapter removes itself in the same situation. */
  method AdapterRemovedCorrected(em: Emitter, e: string, on: Handler, ghost before: seq<Handler>)
    returns (left: seq<Handler>)
    requires em.Valid() && on.IsOnceAdapter() && on.self == em && on.event == e
    requires em.Listeners(e) == before + [on] && on !in before
    modifies em.Writable(e)
    ensures em.Valid() && left == em.Listeners(e) == before
  {
    var called := CallCorrectedAdapter(on);
    RemoveAppended(before, on);
    em.FootprintAllocated();
    left := em.Emit(e);
  }
}
