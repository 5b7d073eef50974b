/** The Emitter capability of index.js: an event-emitter mixin whose listener
    storage is shared by default and copied on first write.

    JavaScript objects are modelled by four classes:
    - `Handler`: a function passed to `on`/`once`/`off`, compared by identity;
      its `_off` property is the field `off`.
    - `ListCell`: a listener array stored in a registry, with its `__owner`.
    - `Registry`: a `callbacks` object: its own event entries, its `__owner`,
      and the registry it was created from with `objectCreate` (`parent`), so
      that reading an event it has not written falls through to the parent.
    - `Emitter`: an object carrying the capability. Its own `callbacks`
      property is `own`; when it has none, the property is read through its
      JavaScript prototype `proto`, exactly as `this.callbacks` is. */
module HooksEmitter {
  import opened Lists

  /** A listener function. A once-adapter (the inner `on` created by `once`)
      remembers the emitter, the event and the function it was created for. */
  class Handler {
    /** for a once-adapter: the function `fn` it forwards the call to */
    const wrapped: Handler?
    /** for a once-adapter: the emitter `self` captured by `once` */
    const self: Emitter?
    /** for a once-adapter: the event it was registered for */
    const event: string
    /** the `_off` property: the adapter of the latest `once` call with this function */
    var off: Handler?

    /** A plain function, as a caller of `on` supplies it. */
    constructor Function()
      ensures wrapped == null && self == null && off == null
    {
      wrapped, self, event := null, null, "";
      off := null;
    }

    /** The adapter `once(event, fn)` creates on `self`. */
    constructor Adapter(self: Emitter, event: string, fn: Handler)
      ensures this.wrapped == fn && this.self == self && this.event == event && off == null
    {
      this.wrapped, this.self, this.event := fn, self, event;
      off := null;
    }

    /** Whether this handler was created by `once`. */
    predicate IsOnceAdapter()
    {
      wrapped != null && self != null
    }
  }

  /** The handler `off(event, fn)` searches for: `fn._off || fn`. */
  function OffTarget(fn: Handler): (t: Handler)
    reads fn
    ensures fn.off == null ==> t == fn
    ensures fn.off != null ==> t == fn.off
  {
    if fn.off != null then fn.off else fn
  }

  /** A listener array stored under one event of a registry. */
  class ListCell {
    /** the `__owner` stamped on the array when it was created or copied */
    const owner: Emitter
    /** the event under which the array was stored when it was created */
    ghost const event: string
    var items: seq<Handler>

    constructor (owner: Emitter, ghost event: string, items: seq<Handler>)
      ensures this.owner == owner && this.event == event && this.items == items
    {
      this.owner, this.event, this.items := owner, event, items;
    }
  }

  /** A `callbacks` object. `entries` holds its own properties: an event maps to
      its listener array, or to `null` after `off(event)`; an event it does not
      hold is looked up in `parent`. */
  class Registry {
    const parent: Registry?
    /** the `__owner` property */
    const owner: Emitter
    /** the length of the prototype chain above this registry */
    ghost const depth: nat
    /** this registry and every registry above it */
    ghost const chain: set<Registry>
    var entries: map<string, ListCell?>

    /** The chain of registries is finite and `chain` lists it. */
    ghost predicate Linked()
      decreases depth
    {
      && this in chain
      && (parent == null ==> depth == 0 && chain == {this})
      && (parent != null ==> parent.depth < depth && this !in parent.chain && chain == {this} + parent.chain && parent.Linked())
    }

    /** `{__owner: owner}` when `parent` is null, otherwise
        `objectCreate(parent)` followed by setting `__owner` to `owner`. */
    constructor (parent: Registry?, owner: Emitter)
      requires parent != null ==> parent.Linked()
      ensures this.parent == parent && this.owner == owner && entries == map[]
      ensures Linked() && Tidy()
      ensures parent != null ==> chain == {this} + parent.chain
    {
      this.parent, this.owner := parent, owner;
      depth := if parent == null then 0 else parent.depth + 1;
      chain := if parent == null then {this} else {this} + parent.chain;
      entries := map[];
      new;
      assert this in chain;
    }

    /** Every array stored here belongs to this registry's owner and to the
        event it is stored under; both are what `thisHandlers` writes. */
    ghost predicate Tidy()
      reads this
    {
      forall k :: k in entries && entries[k] != null ==> entries[k].owner == owner && entries[k].event == k
    }

    /** `cbs[event]`, read through the prototype chain; `null` stands for both
        `null` and `undefined`, which every caller treats alike. */
    function Find(e: string): (c: ListCell?)
      reads chain
      requires Linked()
      ensures e in entries ==> c == entries[e]
      ensures e !in entries && parent == null ==> c == null
      decreases depth
    {
      if e in entries then entries[e]
      else if parent == null then null
      else parent.Find(e)
    }

    /** The arrays stored anywhere along the chain. */
    ghost function Cells(): set<ListCell>
      reads chain
      requires Linked()
      decreases depth
    {
      (set k | k in entries && entries[k] != null :: entries[k])
      + (if parent == null then {} else parent.Cells())
    }

    /** The owners of the registries along the chain. */
    ghost function Owners(): set<Emitter>
      requires Linked()
      decreases depth
    {
      {owner} + (if parent == null then {} else parent.Owners())
    }

    /** Every array and every owner reachable from the chain is an existing
        object, so a newly allocated one is none of them. */
    lemma {:induction false} ChainAllocated()
      requires Linked()
      ensures forall c :: c in Cells() ==> allocated(c)
      ensures forall o :: o in Owners() ==> allocated(o)
      decreases depth
    {
      if parent != null {
        parent.ChainAllocated();
      }
    }

    ghost predicate ChainTidy()
      reads chain
      requires Linked()
    {
      forall r :: r in chain ==> r.Tidy()
    }

    /** The array found for an event is one of the chain's arrays, was stored
        under that event, and belongs to the owner of a registry of the chain. */
    lemma {:induction false} FindFacts(e: string)
      requires Linked() && ChainTidy()
      ensures Find(e) != null ==> Find(e) in Cells() && Find(e).event == e && Find(e).owner in Owners()
      decreases depth
    {
      if e !in entries && parent != null {
        parent.FindFacts(e);
      }
    }

    /** Every array of the chain belongs to the owner of a registry of the chain. */
    lemma {:induction false} CellOwners(c: ListCell)
      requires Linked() && ChainTidy()
      requires c in Cells()
      ensures c.owner in Owners()
      decreases depth
    {
      if c !in (set k | k in entries && entries[k] != null :: entries[k]) {
        parent.CellOwners(c);
      }
    }

    /** Every registry of the chain has its owner among the chain's owners. */
    lemma {:induction false} ChainOwners(r: Registry)
      requires Linked() && r in chain
      ensures r.owner in Owners()
      decreases depth
    {
      if r != this {
        parent.ChainOwners(r);
      }
    }

    /** The listeners stored for an event: `cbs[event] || []`. */
    function Items(e: string): (items: seq<Handler>)
      reads chain, Cells()
      requires Linked() && ChainTidy()
    {
      var c := Find(e);
      FindFacts(e);
      if c == null then [] else c.items
    }

    /** A freshly promoted registry holds no entries of its own, so it answers
        every lookup exactly as its parent does. */
    lemma EmptyFallsThrough(e: string)
      requires Linked() && parent != null && entries == map[]
      ensures Find(e) == parent.Find(e)
    {
    }

    /** `cbs[event] = c`: store an array (or `null`) as this registry's own entry. */
    method Put(e: string, c: ListCell?)
      requires Linked() && ChainTidy()
      requires c != null ==> c.owner == owner && c.event == e
      modifies this
      ensures entries == old(entries)[e := c] && ChainTidy()
      ensures Find(e) == c && Items(e) == (if c == null then [] else c.items)
      ensures forall x :: x != e ==> Find(x) == old(Find(x)) && Items(x) == old(Items(x))
    {
      entries := entries[e := c];
      forall x | x != e ensures Find(x) == old(Find(x)) && Items(x) == old(Items(x)) {
        var d := Find(x);
        FindFacts(x);
        assert d != null ==> d.items == old(d.items);
      }
    }

    /** `cbs[event] = items` followed by `__owner = owner`: store a new
        array, stamped with this registry's owner, as this registry's own
        entry for `e`. */
    method Install(e: string, items: seq<Handler>) returns (c: ListCell)
      requires Linked() && ChainTidy()
      modifies this
      ensures fresh(c) && c.owner == owner && c.event == e && c.items == items
      ensures entries == old(entries)[e := c] && ChainTidy()
      ensures Find(e) == c && Items(e) == items
      ensures forall x :: x != e ==> Find(x) == old(Find(x)) && Items(x) == old(Items(x))
    {
      ChainAllocated();
      c := new ListCell(owner, e, items);
      Put(e, c);
    }
  }

  /** An object carrying the capability (a `mixin` target, `Emitter.prototype`
      itself, or any object whose prototype chain reaches one of these). */
  class Emitter {
    /** the object's JavaScript prototype, when that is an emitter object */
    const proto: Emitter?
    /** this object is `Emitter.prototype` */
    const isPrototype: bool
    ghost const depth: nat
    /** this object and its emitter ancestors */
    ghost const line: set<Emitter>
    /** the object's own `callbacks` property, if it has one */
    var own: Registry?

    ghost predicate Linked()
      decreases depth
    {
      && this in line
      && (proto == null ==> depth == 0 && line == {this})
      && (proto != null ==> proto.depth < depth && this !in proto.line && line == {this} + proto.line && proto.Linked())
    }

    /** `this.callbacks`: the own property, or the prototype's. */
    function Callbacks(): (r: Registry?)
      reads line
      requires Linked()
      ensures own != null ==> r == own
      ensures own == null && proto == null ==> r == null
      decreases depth
    {
      if own != null then own
      else if proto == null then null
      else proto.Callbacks()
    }

    /** The registry found through the prototype chain is an existing
        object (together with everything it reaches), so a newly allocated
        object is never part of this emitter's state. */
    lemma {:induction false} FootprintAllocated()
      requires Linked()
      ensures Callbacks() != null ==> allocated(Callbacks())
      ensures forall o :: o in Footprint() ==> allocated(o)
      ensures Callbacks() != null && Callbacks().Linked() ==> forall o :: o in Callbacks().Owners() ==> allocated(o)
      decreases depth
    {
      if own == null && proto != null {
        proto.FootprintAllocated();
      }
      if Callbacks() != null && Callbacks().Linked() {
        Callbacks().ChainAllocated();
      }
    }

    /** Everything the listener view of this emitter depends on. */
    ghost function Footprint(): (fp: set<object>)
      reads line, if Linked() && Callbacks() != null then Callbacks().chain else {}
    {
      line +
      (if Linked() && Callbacks() != null && Callbacks().Linked()
       then Callbacks().chain + Callbacks().Cells() else {})
    }

    /** The object invariant: the capability is present (`this.callbacks` is
        defined), chains are finite, stored arrays are stamped consistently,
        and `Emitter.prototype` owns the default registry it holds. */
    ghost predicate Valid()
      reads line, if Linked() && Callbacks() != null then Callbacks().chain else {}, Footprint()
    {
      && Linked()
      && Callbacks() != null
      && Callbacks().Linked()
      && Callbacks().ChainTidy()
      && (isPrototype ==> proto == null && own != null && own.owner == this)
    }

    /** `Emitter.prototype` with `Emitter.prototype.callbacks = {__owner: Emitter.prototype}`. */
    constructor Prototype()
      ensures isPrototype && proto == null && Valid()
      ensures Callbacks().owner == this && Callbacks().parent == null && Callbacks().entries == map[]
    {
      proto, isPrototype := null, true;
      depth, line := 0, {this};
      own := null;
      new;
      own := new Registry(null, this);
    }

    /** `Emitter(obj)` on a fresh plain object: `mixin` copies every member of
        `Emitter.prototype`, among them the default `callbacks` registry. */
    constructor Mixin(root: Emitter)
      requires root.isPrototype && root.Valid()
      ensures !isPrototype && proto == null && Valid()
      ensures Callbacks() == root.Callbacks() && Callbacks().owner == root
    {
      proto, isPrototype := null, false;
      depth, line := 0, {this};
      own := root.own;
    }

    /** An object whose prototype is the emitter `p` (`new Emitter`,
        `Object.create(p)`, an instance of a class whose prototype was mixed);
        it has no `callbacks` of its own. */
    constructor Inherit(p: Emitter)
      requires p.Valid()
      ensures proto == p && !isPrototype && own == null && Valid()
      ensures Callbacks() == p.Callbacks()
    {
      proto, isPrototype := p, false;
      depth, line := p.depth + 1, {this} + p.line;
      own := null;
      new;
      assert Callbacks() == p.Callbacks();
    }

    /** The registry this emitter would write to without promoting it, if it owns it. */
    ghost function OwnRegistry(): (rs: set<object>)
      reads Footprint()
      requires Valid()
    {
      if Callbacks().owner == this then {Callbacks()} else {}
    }

    /** The objects a write to event `e` may change: this object's
        `callbacks` property, its own registry and its own array for `e`. */
    ghost function Writable(e: string): (ws: set<object>)
      reads Footprint()
      requires Valid()
    {
      var c := Callbacks().Find(e);
      {this} + OwnRegistry() + (if c != null && c.owner == this then {c} else {})
    }

    /** This emitter owns its registry and, in it, its array for `e`: a
        further write to `e` promotes and copies nothing. */
    ghost predicate Settled(e: string)
      reads Footprint()
      requires Valid()
    {
      var c := Callbacks().Find(e);
      Callbacks().owner == this && c != null && c.owner == this
    }

    /** A write stays within what this emitter reads. */
    lemma WritableInFootprint(e: string)
      requires Valid()
      ensures Writable(e) <= Footprint()
    {
      Callbacks().FindFacts(e);
    }

    /** `b` neither reads `callbacks` through this object nor sees a registry
        this object owns: a sibling sharing a default, or an ancestor. */
    ghost predicate Unrelated(b: Emitter)
      reads b.Footprint()
      requires b.Valid()
    {
      this !in b.line && this !in b.Callbacks().Owners()
    }

    /** Nothing a write by this emitter may change is read by an unrelated emitter. */
    lemma Separated(b: Emitter, e: string)
      requires Valid() && b.Valid() && Unrelated(b)
      ensures Writable(e) !! b.Footprint()
    {
      var cb := b.Callbacks();
      var c := Callbacks().Find(e);
      forall o | o in b.Footprint() ensures o !in Writable(e) {
        if o in cb.chain {
          cb.ChainOwners(o);
        } else if o in cb.Cells() {
          cb.CellOwners(o);
        }
      }
    }

    /** An emitter none of whose state changed lists what it listed before. */
    twostate lemma Undisturbed(fp: set<object>)
      requires old(Valid()) && fp == old(Footprint()) && unchanged(fp)
      ensures Valid() && Footprint() == old(Footprint()) && Callbacks() == old(Callbacks())
      ensures forall x :: Listeners(x) == old(Listeners(x))
    {
    }

    /** `listeners(event)`: `this.callbacks[event] || []`. */
    function Listeners(e: string): (hs: seq<Handler>)
      reads Footprint()
      requires Valid()
      ensures Callbacks().Find(e) == null ==> hs == []
      ensures Callbacks().Find(e) != null ==> hs == Callbacks().Find(e).items
    {
      Callbacks().Items(e)
    }

    /** `hasListeners(event)`. */
    function HasListeners(e: string): (has: bool)
      reads Footprint()
      requires Valid()
      ensures has <==> Listeners(e) != []
    {
      |Listeners(e)| != 0
    }

    /** `thisCallbacks()`: the registry this emitter owns, promoting the current
        one into a fresh child registry when it belongs to someone else. */
    method ThisCallbacks() returns (r: Registry)
      requires Valid()
      modifies this
      ensures Valid() && r == Callbacks() && r.owner == this
      ensures r.Owners() == old(Callbacks().Owners()) + {this}
      ensures old(Callbacks()).owner == this ==> r == old(Callbacks()) && own == old(own)
      ensures old(Callbacks()).owner != this ==> fresh(r) && r.parent == old(Callbacks()) && r.entries == map[]
      ensures forall x :: r.Find(x) == old(Callbacks().Find(x))
      ensures forall x :: Listeners(x) == r.Items(x) == old(Listeners(x))
    {
      var cb := Callbacks();
      if cb.owner == this {
        return cb;
      }
      r := new Registry(cb, this);
      own := r;
      assert Callbacks() == r;
      forall x ensures r.Find(x) == old(Callbacks().Find(x)) && Listeners(x) == old(Listeners(x)) {
        r.EmptyFallsThrough(x);
        assert Listeners(x) == r.Items(x);
        assert old(Listeners(x)) == old(cb.Items(x));
        assert r.Items(x) == cb.Items(x);
        assert cb.Find(x) == old(cb.Find(x));
        var c := cb.Find(x);
        assert c != null ==> c.items == old(c.items);
        assert cb.Items(x) == old(cb.Items(x));
      }
    }
  
    /** `thisHandlers(event)`: a listener array for `e` that this emitter owns,
        in its own registry; an inherited array is copied (`slice`), a missing
        or cleared one replaced by a fresh empty array. Nothing any emitter
        lists changes. */
    method ThisHandlers(e: string) returns (c: ListCell)
      requires Valid()
      modifies this, OwnRegistry()
      ensures Valid() && Callbacks().owner == this
      ensures old(Callbacks()).owner == this ==> Callbacks() == old(Callbacks())
      ensures old(Callbacks()).owner != this ==> Callbacks().parent == old(Callbacks())
      ensures Callbacks().Owners() == old(Callbacks().Owners()) + {this}
      ensures fresh(Writable(e) - old(Writable(e)))
      ensures c.owner == this && c.event == e && Callbacks().Find(e) == c
      ensures Settled(e) && (old(Settled(e)) ==> Writable(e) == old(Writable(e)))
      ensures c.items == old(Listeners(e))
      ensures old(Callbacks().Find(e)) != null && old(Callbacks().Find(e)).owner == this ==> c == old(Callbacks().Find(e))
      ensures old(Callbacks().Find(e)) == null || old(Callbacks().Find(e)).owner != this ==> fresh(c)
      ensures forall x :: x != e ==> Callbacks().Find(x) == old(Callbacks().Find(x))
      ensures forall x :: Listeners(x) == old(Listeners(x))
    {
      var cbs := ThisCallbacks();
      label promoted:
      var h := cbs.Find(e);
      cbs.FindFacts(e);
      if h == null {
        c := cbs.Install(e, []);
      } else if h.owner != this {
        c := cbs.Install(e, h.items);
      } else {
        c := h;
      }
      assert Callbacks() == cbs;
      forall x ensures Listeners(x) == old(Listeners(x)) {
        assert Listeners(x) == cbs.Items(x);
        assert old@promoted(cbs.Items(x)) == old(Listeners(x));
        if x == e {
          cbs.FindFacts(e);
          assert cbs.Items(e) == c.items;
        } else {
          assert cbs.Items(x) == old@promoted(cbs.Items(x));
        }
      }
    }
  
    /** An in-place change (`push` or `splice`) of the array `c` that
        `thisHandlers(e)` returned: the contents of `e` become `items`. */
    method Rewrite(c: ListCell, ghost e: string, items: seq<Handler>)
      requires Valid() && c.owner == this && c.event == e && Callbacks().Find(e) == c
      modifies c
      ensures Valid() && Callbacks() == old(Callbacks()) && Writable(e) == old(Writable(e))
      ensures Listeners(e) == items
      ensures forall x :: x != e ==> Listeners(x) == old(Listeners(x))
    {
      c.items := items;
      var cbs := Callbacks();
      cbs.FindFacts(e);
      forall x | x != e ensures Listeners(x) == old(Listeners(x)) {
        var d := cbs.Find(x);
        cbs.FindFacts(x);
        assert Listeners(x) == if d == null then [] else d.items;
        assert old(Listeners(x)) == if d == null then [] else old(d.items);
      }
    }

    /** `on(event, fn)`: append `fn` to this emitter's own array for `e`.
        Duplicates are kept and no other event changes. */
    method On(e: string, fn: Handler)
      requires Valid()
      modifies Writable(e)
      ensures Valid() && Callbacks().owner == this
      ensures old(Callbacks()).owner == this ==> Callbacks() == old(Callbacks())
      ensures old(Callbacks()).owner != this ==> Callbacks().parent == old(Callbacks())
      ensures Callbacks().Owners() == old(Callbacks().Owners()) + {this}
      ensures fresh(Writable(e) - old(Writable(e)))
      ensures Settled(e) && (old(Settled(e)) ==> Writable(e) == old(Writable(e)))
      ensures Listeners(e) == old(Listeners(e)) + [fn]
      ensures forall x :: x != e ==> Listeners(x) == old(Listeners(x))
    {
      var h := ThisHandlers(e);
      Rewrite(h, e, h.items + [fn]);
    }

    /** `once(event, fn)`: register a fresh adapter for `fn` and record it as `fn._off`. */
    method Once(e: string, fn: Handler)
      requires Valid()
      modifies Writable(e), fn
      ensures Valid() && Callbacks().owner == this
      ensures old(Callbacks()).owner == this ==> Callbacks() == old(Callbacks())
      ensures old(Callbacks()).owner != this ==> Callbacks().parent == old(Callbacks())
      ensures Callbacks().Owners() == old(Callbacks().Owners()) + {this}
      ensures fresh(Writable(e) - old(Writable(e)))
      ensures Settled(e) && (old(Settled(e)) ==> Writable(e) == old(Writable(e)))
      ensures fn.off != null && fresh(fn.off) && fn.off.wrapped == fn && fn.off.self == this
      ensures fn.off.event == e && fn.off.off == null && fn.off.IsOnceAdapter()
      ensures Listeners(e) == old(Listeners(e)) + [fn.off]
      ensures forall x :: x != e ==> Listeners(x) == old(Listeners(x))
    {
      var adapter := NewAdapter(e, fn);
      assert fn !in Writable(e) && adapter !in Writable(e);
      On(e, adapter);
      assert fn.off == adapter && adapter.off == null;
    }

    /** The inner function `on` of `once(e, fn)`, stored as `fn._off`;
        creating it changes nothing this emitter lists. */
    method NewAdapter(e: string, fn: Handler) returns (a: Handler)
      requires Valid()
      modifies fn
      ensures fresh(a) && a.wrapped == fn && a.self == this && a.event == e && a.off == null
      ensures fn.off == a
      ensures Valid() && Callbacks() == old(Callbacks()) && Writable(e) == old(Writable(e))
      ensures forall x :: Listeners(x) == old(Listeners(x))
    {
      FootprintAllocated();
      a := new Handler.Adapter(this, e, fn);
      fn.off := a;
    }

    /** The removal step of `off(event, fn)`: promote, then remove the first
        occurrence of exactly `h` from this emitter's own array for `e`
        (`indexOf` followed by `splice` when found). */
    method RemoveHandler(e: string, h: Handler)
      requires Valid()
      modifies Writable(e)
      ensures Valid() && Callbacks().owner == this
      ensures old(Callbacks()).owner == this ==> Callbacks() == old(Callbacks())
      ensures old(Callbacks()).owner != this ==> Callbacks().parent == old(Callbacks())
      ensures Callbacks().Owners() == old(Callbacks().Owners()) + {this}
      ensures fresh(Writable(e) - old(Writable(e)))
      ensures Settled(e) && (old(Settled(e)) ==> Writable(e) == old(Writable(e)))
      ensures Listeners(e) == RemoveFirst(old(Listeners(e)), h)
      ensures forall x :: x != e ==> Listeners(x) == old(Listeners(x))
    {
      var c := ThisHandlers(e);
      var i := IndexOf(c.items, h);
      if i >= 0 {
        Rewrite(c, e, RemoveAt(c.items, i));
      }
    }

    /** `off(event, fn)` as index.js writes it: remove the first occurrence of
        `fn._off || fn` from this emitter's own array for `e`. */
    method OffAsWritten(e: string, fn: Handler)
      requires Valid()
      modifies Writable(e)
      ensures Valid() && Callbacks().owner == this
      ensures old(Callbacks()).owner == this ==> Callbacks() == old(Callbacks())
      ensures old(Callbacks()).owner != this ==> Callbacks().parent == old(Callbacks())
      ensures Callbacks().Owners() == old(Callbacks().Owners()) + {this}
      ensures fresh(Writable(e) - old(Writable(e)))
      ensures Settled(e) && (old(Settled(e)) ==> Writable(e) == old(Writable(e)))
      ensures Listeners(e) == RemoveFirst(old(Listeners(e)), old(OffTarget(fn)))
      ensures forall x :: x != e ==> Listeners(x) == old(Listeners(x))
    {
      RemoveHandler(e, OffTarget(fn));
    }

    /** `off(event, fn)` with `fn._off` honoured only while that adapter is
        still listed: otherwise `fn` itself is removed. */
    method Off(e: string, fn: Handler)
      requires Valid()
      modifies Writable(e)
      ensures Valid() && Callbacks().owner == this
      ensures old(Callbacks()).owner == this ==> Callbacks() == old(Callbacks())
      ensures old(Callbacks()).owner != this ==> Callbacks().parent == old(Callbacks())
      ensures Callbacks().Owners() == old(Callbacks().Owners()) + {this}
      ensures fresh(Writable(e) - old(Writable(e)))
      ensures Settled(e) && (old(Settled(e)) ==> Writable(e) == old(Writable(e)))
      ensures Listeners(e) == RemoveFirst(old(Listeners(e)), old(RemovalTarget(fn, Listeners(e))))
      ensures forall x :: x != e ==> Listeners(x) == old(Listeners(x))
    {
      RemoveHandler(e, RemovalTarget(fn, Listeners(e)));
    }

    /** `off(event)`: promote the registry, then store `null` for `e`, which
        hides any inherited array from this emitter only. */
    method OffAll(e: string)
      requires Valid()
      modifies this, OwnRegistry()
      ensures Valid() && Callbacks().owner == this
      ensures old(Callbacks()).owner == this ==> Callbacks() == old(Callbacks())
      ensures old(Callbacks()).owner != this ==> Callbacks().parent == old(Callbacks())
      ensures Callbacks().Owners() == old(Callbacks().Owners()) + {this}
      ensures fresh(Writable(e) - old(Writable(e)))
      ensures e in Callbacks().entries && Callbacks().entries[e] == null
      ensures Listeners(e) == []
      ensures forall x :: x != e ==> Listeners(x) == old(Listeners(x))
    {
      var cbs := ThisCallbacks();
      cbs.Put(e, null);
      assert Callbacks() == cbs;
    }

    /** `emit(event, ...)`: read `this.callbacks[event]` without promoting,
        copy it (`slice`), and deliver to each handler of the copy in order.
        The result is the sequence of handlers called. */
    method Emit(e: string) returns (delivered: seq<Handler>)
      requires Valid()
      ensures Valid() && delivered == Listeners(e)
    {
      delivered := [];
      var h := Callbacks().Find(e);
      Callbacks().FindFacts(e);
      if h != null {
        var snapshot := h.items;
        var i := 0;
        while i < |snapshot|
          invariant 0 <= i <= |snapshot|
          invariant delivered == snapshot[..i]
        {
          delivered := delivered + [snapshot[i]];
          i := i + 1;
        }
      }
      assert Valid();
    }

    /** `Emitter(obj)` on an object that already reaches the capability through
        its prototype: `mixin` gives it the default registry as its own. */
    method Mix(root: Emitter)
      requires Linked() && root.isPrototype && root.Valid()
      requires isPrototype ==> this == root
      modifies this
      ensures Valid() && Callbacks() == root.Callbacks() && Callbacks().owner == root
      ensures forall x :: Listeners(x) == root.Listeners(x)
    {
      own := root.own;
    }
  }

  /** The handler the corrected `off(event, fn)` removes from `list`: the
      adapter `fn._off` while it is listed, otherwise `fn`. */
  function RemovalTarget(fn: Handler, list: seq<Handler>): (t: Handler)
    reads fn
    ensures fn.off != null && fn.off in list ==> t == fn.off
    ensures (fn.off == null || fn.off !in list) ==> t == fn
  {
    if fn.off != null && fn.off in list then fn.off else fn
  }

  /** Calling the adapter `on` that `once` created: it first runs
      `self.off(event, on)` as index.js writes `off`, and then calls `fn`,
      which is returned. */
  method CallOnceAdapter(a: Handler) returns (called: Handler)
    requires a.IsOnceAdapter() && a.self.Valid()
    modifies a.self.Writable(a.event)
    ensures called == a.wrapped
    ensures a.self.Valid() && fresh(a.self.Writable(a.event) - old(a.self.Writable(a.event)))
    ensures a.self.Settled(a.event) && (old(a.self.Settled(a.event)) ==> a.self.Writable(a.event) == old(a.self.Writable(a.event)))
    ensures a.self.Listeners(a.event) == RemoveFirst(old(a.self.Listeners(a.event)), old(OffTarget(a)))
    ensures forall x :: x != a.event ==> a.self.Listeners(x) == old(a.self.Listeners(x))
  {
    a.self.OffAsWritten(a.event, a);
    called := a.wrapped;
  }

  /** The corrected adapter: it unregisters exactly itself, whatever its own
      `_off` names, and then calls `fn`, which is returned. */
  method CallCorrectedAdapter(a: Handler) returns (called: Handler)
    requires a.IsOnceAdapter() && a.self.Valid()
    modifies a.self.Writable(a.event)
    ensures called == a.wrapped
    ensures a.self.Valid() && fresh(a.self.Writable(a.event) - old(a.self.Writable(a.event)))
    ensures a.self.Settled(a.event) && (old(a.self.Settled(a.event)) ==> a.self.Writable(a.event) == old(a.self.Writable(a.event)))
    ensures a.self.Listeners(a.event) == RemoveFirst(old(a.self.Listeners(a.event)), a)
    ensures forall x :: x != a.event ==> a.self.Listeners(x) == old(a.self.Listeners(x))
  {
    a.self.RemoveHandler(a.event, a);
    called := a.wrapped;
  }
}
