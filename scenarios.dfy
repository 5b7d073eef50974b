/** Concrete uses of the emitter, each starting from a fresh
    `Emitter.prototype`: the behaviours the library is meant to show, and the
    ones where it misbehaves. */
module Scenarios {
  import opened HooksEmitter
  import opened EmitterProperties

  /** `Emitter.prototype` and two objects mixed from it: both share its
      empty default registry, and neither owns a registry the other reads. */
  method Siblings() returns (a: Emitter, b: Emitter)
    ensures a.Valid() && b.Valid() && a.Unrelated(b) && b.Unrelated(a)
    ensures fresh(a.Footprint()) && fresh(b.Footprint())
    ensures a.Callbacks() == b.Callbacks() && a.Callbacks().parent == null && a.Callbacks().entries == map[]
  {
    var root := new Emitter.Prototype();
    root.FootprintAllocated();
    a := new Emitter.Mixin(root);
    root.FootprintAllocated();
    b := new Emitter.Mixin(root);
  }

  /** `a` registers `f1` then `f2` for "tick" while `b`, unrelated to `a`,
      registers nothing: `b`'s emit delivers nothing, `a`'s delivers `f1`
      then `f2`. */
  method TickOn(a: Emitter, b: Emitter, f1: Handler, f2: Handler) returns (fromB: seq<Handler>, fromA: seq<Handler>)
    requires a.Valid() && b.Valid() && a.Unrelated(b)
    requires a.Listeners("tick") == [] && b.Listeners("tick") == []
    modifies a.Writable("tick")
    ensures fromB == [] && fromA == [f1, f2]
  {
    OnIsolated(a, b, "tick", f1);
    assert b.Listeners("tick") == [];
    OnIsolated(a, b, "tick", f2);
    assert b.Listeners("tick") == [];
    assert a.Listeners("tick") == [f1, f2];
    a.FootprintAllocated();
    b.FootprintAllocated();
    label s2:
    fromB := b.Emit("tick");
    b.Undisturbed@s2(old@s2(b.Footprint()));
    assert fromB == [];
    a.Undisturbed@s2(old@s2(a.Footprint()));
    label s3:
    fromA := a.Emit("tick");
    a.Undisturbed@s3(old@s3(a.Footprint()));
  }

  /** Two instances mixed from `Emitter.prototype` share its default
      registry, `a` registers `f1` and `f2` for "tick", and only `a`'s emit
      delivers them, in order. */
  method Tick() returns (f1: Handler, f2: Handler, fromB: seq<Handler>, fromA: seq<Handler>)
    ensures f1 != f2
    ensures fromB == [] && fromA == [f1, f2]
  {
    f1 := new Handler.Function();
    f2 := new Handler.Function();
    var a, b := Siblings();
    a.WritableInFootprint("tick");
    fromB, fromA := TickOn(a, b, f1, f2);
  }

  /** An object mixed from a fresh `Emitter.prototype`: it reads the empty
      default registry. */
  method Mixed() returns (a: Emitter)
    ensures a.Valid() && fresh(a.Footprint())
    ensures a.Callbacks().parent == null && a.Callbacks().entries == map[]
  {
    var root := new Emitter.Prototype();
    root.FootprintAllocated();
    a := new Emitter.Mixin(root);
  }

  /** An object whose prototype is the emitter `p` (an instance of a class
      whose prototype was mixed): it reads `p`'s registry, lists what `p`
      lists, and may write only to itself until it promotes. */
  method Heir(p: Emitter) returns (x: Emitter)
    requires p.Valid()
    ensures p.Valid() && fresh(x) && x.Valid() && x.proto == p && x.Unrelated(p)
    ensures x.Callbacks() == p.Callbacks() == old(p.Callbacks())
    ensures forall e :: p.Listeners(e) == old(p.Listeners(e)) && x.Writable(e) == {x}
  {
    p.FootprintAllocated();
    x := new Emitter.Inherit(p);
    p.Undisturbed(old(p.Footprint()));
    forall e ensures x.Writable(e) == {x} {
      p.Callbacks().FindFacts(e);
    }
  }

  /** An instance `x` of a class whose prototype is `p` registers `g` for
      `e`: `x` lists `p`'s handlers followed by `g`, and `p` is unchanged. */
  method InstanceOn(p: Emitter, e: string, g: Handler) returns (x: Emitter)
    requires p.Valid()
    ensures p.Valid() && x.Valid() && x.proto == p
    ensures x.Listeners(e) == old(p.Listeners(e)) + [g] && p.Listeners(e) == old(p.Listeners(e))
    ensures forall k :: p.Listeners(k) == old(p.Listeners(k))
  {
    x := Heir(p);
    label inherited:
    OnIsolated(x, p, e, g);
    assert p.Listeners(e) == old@inherited(p.Listeners(e));
  }

  /** A class prototype `p` with `f` registered for "ready", and an
      instance `x` that registered `g` as well. */
  method ClassWithInstance() returns (f: Handler, g: Handler, p: Emitter, x: Emitter)
    ensures f != g && p.Valid() && x.Valid()
    ensures p.Listeners("ready") == [f] && x.Listeners("ready") == [f, g]
  {
    f := new Handler.Function();
    g := new Handler.Function();
    p := Mixed();
    p.WritableInFootprint("ready");
    p.On("ready", f);
    assert p.Listeners("ready") == [f];
    x := InstanceOn(p, "ready", g);
  }

  /** Class-level defaults: `f` registered on the class prototype `p` is seen
      by every instance; `g` registered on instance `x` promotes `x` and
      changes neither `p` nor an instance `y` created afterwards. */
  method ClassDefaults() returns (f: Handler, g: Handler, fromP: seq<Handler>, fromX: seq<Handler>, fromY: seq<Handler>)
    ensures f != g
    ensures fromP == [f] && fromX == [f, g] && fromY == [f]
  {
    var p, x;
    f, g, p, x := ClassWithInstance();
    x.FootprintAllocated();
    label twoInstances:
    var y := Heir(p);
    x.Undisturbed@twoInstances(old@twoInstances(x.Footprint()));
    assert y.Listeners("ready") == p.Listeners("ready") == [f];
    fromX, fromP, fromY := EmitThree(x, p, y, "ready");
  }

  /** `emit(e)` on three emitters in turn: each delivers what it listed
      before the first emit. */
  method EmitThree(a: Emitter, b: Emitter, c: Emitter, e: string) returns (fromA: seq<Handler>, fromB: seq<Handler>, fromC: seq<Handler>)
    requires a.Valid() && b.Valid() && c.Valid()
    ensures fromA == old(a.Listeners(e)) && fromB == old(b.Listeners(e)) && fromC == old(c.Listeners(e))
  {
    a.FootprintAllocated();
    b.FootprintAllocated();
    c.FootprintAllocated();
    fromA := a.Emit(e);
    b.Undisturbed(old(b.Footprint()));
    c.Undisturbed(old(c.Footprint()));
    label second:
    fromB := b.Emit(e);
    c.Undisturbed@second(old@second(c.Footprint()));
    fromC := c.Emit(e);
  }

  /** `once("t", f)`, a call of the adapter an emit delivers, then
      `on("t", f)`: `f` is listed once more, while `f._off` still names the
      adapter that has already unregistered itself. `off("t", f)` as written
      then leaves `f` listed; the corrected `off("t", f)` that follows
      removes it. */
  method StaleOff() returns (f: Handler, leftAsWritten: seq<Handler>, leftCorrected: seq<Handler>)
    ensures leftAsWritten == [f] && leftCorrected == []
  {
    f := new Handler.Function();
    var a := Mixed();
    a.WritableInFootprint("t");
    a.Once("t", f);
    assert a.Listeners("t") == [] + [f.off];
    FiredThenOn(a, "t", f, []);
    leftAsWritten := OffAsWrittenMissesStale(a, "t", f, []);
    leftCorrected := OffRemovesAfterStale(a, "t", f, []);
  }

  /** `a.once("t", f)` creates the adapter `on`; the sibling `b` then runs
      `b.once("u", on)`, which sets `on._off` to an adapter `a` never lists. */
  method OnceOnAdapter(a: Emitter, b: Emitter, f: Handler) returns (on: Handler)
    requires a.Valid() && b.Valid() && a.Unrelated(b) && b.Unrelated(a)
    requires a.Listeners("t") == []
    modifies a.Writable("t"), b.Writable("u"), f
    ensures a.Valid() && fresh(a.Writable("t") - old(a.Writable("t")))
    ensures on.IsOnceAdapter() && on.self == a && on.event == "t" && on.wrapped == f
    ensures a.Listeners("t") == [on] && on.off != null && on.off !in [on]
  {
    OnceIsolated(a, b, "t", f);
    on := f.off;
    assert a.Listeners("t") == [on];
    assert b.Unrelated(a);
    label armed:
    OnceIsolated(b, a, "u", on);
    assert a.Listeners("t") == [on] && a.Writable("t") == old@armed(a.Writable("t"));
  }

  /** After `OnceOnAdapter`, when `on` fires, `off` as written searches for
      `b`'s adapter, so `on` stays listed on `a` and `f` would run on every
      later emit; the corrected adapter removes itself. */
  method ReusedAdapter() returns (f: Handler, on: Handler, leftAsWritten: seq<Handler>, leftCorrected: seq<Handler>)
    ensures on.wrapped == f && leftAsWritten == [on] && leftCorrected == []
  {
    f := new Handler.Function();
    var a, b := Siblings();
    a.WritableInFootprint("t");
    b.WritableInFootprint("u");
    on := OnceOnAdapter(a, b, f);
    assert a.Listeners("t") == [] + [on];
    leftAsWritten := AdapterKeptAsWritten(a, "t", on, []);
    leftCorrected := AdapterRemovedCorrected(a, "t", on, []);
  }

  /** An object mixed from `Emitter.prototype` promotes its registry, which
      becomes an empty child of the default one; `Emitter.prototype.on("tick", f)`
      then writes the default registry, which it owns, and the promoted
      object, which never wrote "tick", reads `f` through that link. */
  method PromotedReadsThrough(f: Handler) returns (root: Emitter, x: Emitter)
    ensures root.Valid() && x.Valid()
    ensures x.Callbacks().owner == x && x.Callbacks().parent == root.Callbacks()
    ensures root.Listeners("tick") == [f] && x.Listeners("tick") == [f]
  {
    root := new Emitter.Prototype();
    root.FootprintAllocated();
    x := new Emitter.Mixin(root);
    var r := x.ThisCallbacks();
    root.On("tick", f);
    assert x.Callbacks() == r && r.entries == map[];
    r.EmptyFallsThrough("tick");
  }

  /** `off(event)` on `Emitter.prototype` itself is not local: it owns the
      default registry, so it stores `null` there without promoting, and an
      object mixed from it that has not promoted lists nothing as well. */
  method PrototypeClears(f: Handler) returns (root: Emitter, a: Emitter, before: seq<Handler>)
    ensures root.Valid() && a.Valid()
    ensures before == [f] && a.Listeners("x") == [] && root.Listeners("x") == []
  {
    root := new Emitter.Prototype();
    root.FootprintAllocated();
    a := new Emitter.Mixin(root);
    root.On("x", f);
    before := a.Listeners("x");
    root.OffAll("x");
  }

  /** On an emitter that lists nothing for "x", with `f._off` naming some
      other handler: `on("x", f)`, then `off("x", f)` as written leaves `[f]`
      listed, and the corrected `off("x", f)` leaves `[]`. */
  method StaleOnSibling(b: Emitter, f: Handler) returns (leftAsWritten: seq<Handler>, leftCorrected: seq<Handler>)
    requires b.Valid() && b.Listeners("x") == []
    requires f.off != null && f.off != f
    modifies b.Writable("x")
    ensures leftAsWritten == [f] && leftCorrected == []
  {
    assert f !in b.Writable("x");
    b.On("x", f);
    assert b.Listeners("x") == [] + [f];
    leftAsWritten := OffAsWrittenMissesStale(b, "x", f, []);
    leftCorrected := OffRemovesAfterStale(b, "x", f, []);
  }

  /** Two siblings `a` and `b`, after `a.once("y", f)`: `f._off` is an
      adapter, and `b` still lists nothing for "x". */
  method SiblingOnce() returns (f: Handler, b: Emitter)
    ensures b.Valid() && fresh(b.Writable("x"))
    ensures b.Listeners("x") == [] && f.off != null && f.off != f
  {
    f := new Handler.Function();
    var a;
    a, b := Siblings();
    a.WritableInFootprint("y");
    b.WritableInFootprint("x");
    ghost var w := b.Writable("x");
    assert fresh(w) && b.Listeners("x") == [];
    OnceIsolated(a, b, "y", f);
    assert b.Writable("x") == w;
  }

  /** The `_off` that `once` records on a shared function reaches every
      emitter: after `a.once("y", f)`, the sibling's `b.off("x", f)` as
      written searches for `a`'s adapter and leaves `f` listed on `b`; the
      corrected `off` removes it. */
  method SiblingStaleOff() returns (f: Handler, leftAsWritten: seq<Handler>, leftCorrected: seq<Handler>)
    ensures leftAsWritten == [f] && leftCorrected == []
  {
    var b;
    f, b := SiblingOnce();
    leftAsWritten, leftCorrected := StaleOnSibling(b, f);
  }
}
