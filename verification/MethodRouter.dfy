/** One route's handlers and layers (arvik-router/src/method_router.rs, arvik-router/src/layer.rs).

    A handler is an identity, possibly bound to a state; a service is a handler or a 405 reply with
    the layers wrapped around it, so two services are equal when a request takes the same way
    through them. */
module MethodRouter {
  import opened Wrappers
  import opened MethodFilter

  type LayerId = nat
  type AppState = nat

  /** The only value of the state type once a state has been bound. */
  const UNIT: AppState := 0

  datatype Handler = Raw(id: nat) | Bound(inner: Handler, state: AppState)

  datatype Service =
    | Leaf(handler: Handler, state: AppState)
    | NotAllowed(allow: Filter)
    | Fallback(handler: Handler, state: AppState)
    | NotFound
    | Wrapped(layer: LayerId, inner: Service)

  /** `layers.iter().fold(base, |svc, f| f(svc))`: the first layer is the innermost. */
  function ApplyLayers(base: Service, layers: seq<LayerId>): Service
    decreases |layers|
  {
    if layers == [] then base else ApplyLayers(Wrapped(layers[0], base), layers[1..])
  }

  lemma {:induction false} ApplyLayersAppend(base: Service, a: seq<LayerId>, b: seq<LayerId>)
    ensures ApplyLayers(base, a + b) == ApplyLayers(ApplyLayers(base, a), b)
    decreases |a|
  {
    if a == [] {
      assert a + b == b;
    } else {
      assert (a + b)[1..] == a[1..] + b;
      ApplyLayersAppend(Wrapped(a[0], base), a[1..], b);
    }
  }

  /** The same layers around different services stay different. */
  lemma {:induction false} ApplyLayersInjective(x: Service, y: Service, layers: seq<LayerId>)
    ensures ApplyLayers(x, layers) == ApplyLayers(y, layers) <==> x == y
    decreases |layers|
  {
    if layers != [] {
      ApplyLayersInjective(Wrapped(layers[0], x), Wrapped(layers[0], y), layers[1..]);
    }
  }

  function Depth(s: Service): nat { if s.Wrapped? then 1 + Depth(s.inner) else 0 }

  lemma {:induction false} ApplyLayersDepth(base: Service, layers: seq<LayerId>)
    ensures Depth(ApplyLayers(base, layers)) == Depth(base) + |layers|
    decreases |layers|
  {
    if layers != [] {
      ApplyLayersDepth(Wrapped(layers[0], base), layers[1..]);
    }
  }

  // ---------------------------------------------------------------- the router as a value

  datatype Entry = Entry(filter: Filter, handler: Handler)

  datatype View = View(handlers: seq<Entry>, allow: Filter, layers: seq<LayerId>, bakeable: bool)

  const EMPTY_VIEW := View([], NONE, [], false)

  function Union(handlers: seq<Entry>): Filter {
    if handlers == [] then NONE else Or(Union(handlers[..|handlers| - 1]), handlers[|handlers| - 1].filter)
  }

  predicate HeadFallsBack(allow: Filter, m: Method) { m.Head? && !Contains(allow, HEAD) }

  predicate Matches(e: Entry, allow: Filter, m: Method) {
    Contains(e.filter, FromMethod(m)) || (HeadFallsBack(allow, m) && Contains(e.filter, GET))
  }

  /** Index of the first matching handler from `i` on; |handlers| when there is none. */
  function FirstMatch(v: View, m: Method, i: nat): (k: nat)
    requires i <= |v.handlers|
    ensures i <= k <= |v.handlers|
    ensures k < |v.handlers| ==> Matches(v.handlers[k], v.allow, m)
    ensures forall j :: i <= j < k ==> !Matches(v.handlers[j], v.allow, m)
    decreases |v.handlers| - i
  {
    if i == |v.handlers| || Matches(v.handlers[i], v.allow, m) then i else FirstMatch(v, m, i + 1)
  }

  /** The reference: fold the current layers afresh over the first matching handler. */
  function Dispatch(v: View, m: Method, state: AppState): Service {
    var k := FirstMatch(v, m, 0);
    if k < |v.handlers| then ApplyLayers(Leaf(v.handlers[k].handler, state), v.layers) else NotAllowed(v.allow)
  }

  function OnView(v: View, filter: Filter, h: Handler): View {
    v.(handlers := v.handlers + [Entry(filter, h)], allow := Or(v.allow, filter))
  }

  /** `None` is the duplicate-method panic. */
  function MergeView(v: View, w: View): Option<View> {
    if Overlaps(v.allow, w.allow) then None
    else Some(View(v.handlers + w.handlers, Or(v.allow, w.allow), v.layers + w.layers, false))
  }

  function ExtendView(v: View, extra: seq<LayerId>): View { v.(layers := v.layers + extra) }

  function BoundHandlers(handlers: seq<Entry>, state: AppState): seq<Entry> {
    seq(|handlers|, i requires 0 <= i < |handlers| => Entry(handlers[i].filter, Bound(handlers[i].handler, state)))
  }

  function WithStateView(v: View, state: AppState): View {
    v.(handlers := BoundHandlers(v.handlers, state), bakeable := true)
  }

  /** Every handler's stack, as `call` bakes it. */
  function Baked(v: View): seq<Service> {
    seq(|v.handlers|, i requires 0 <= i < |v.handlers| => ApplyLayers(Leaf(v.handlers[i].handler, UNIT), v.layers))
  }

  lemma {:induction false} UnionAppend(a: seq<Entry>, b: seq<Entry>)
    ensures Union(a + b) == Or(Union(a), Union(b))
  {
    hide Or;
    if b == [] {
      assert a + b == a;
      OrIsMonoid(Union(a), NONE, NONE);
    } else {
      var n := |b| - 1;
      UnionAppend(a, b[..n]);
      OrIsMonoid(Union(a), Union(b[..n]), b[n].filter);
      assert (a + b)[..|a + b| - 1] == a + b[..n];
    }
  }

  lemma UnionOne(filter: Filter, h: Handler)
    ensures Union([Entry(filter, h)]) == filter
  {
    assert Union([Entry(filter, h)][..0]) == NONE;
    OrIsMonoid(filter, NONE, NONE);
  }

  lemma {:induction false} UnionSame(a: seq<Entry>, b: seq<Entry>)
    requires |a| == |b| && forall i :: 0 <= i < |a| ==> a[i].filter == b[i].filter
    ensures Union(a) == Union(b)
  {
    if a != [] {
      UnionSame(a[..|a| - 1], b[..|b| - 1]);
    }
  }

  lemma {:induction false} UnionContains(handlers: seq<Entry>, m: Method)
    ensures Contains(Union(handlers), FromMethod(m))
       <==> exists i :: 0 <= i < |handlers| && Contains(handlers[i].filter, FromMethod(m))
  {
    if handlers == [] {
      MethodsAreApart(m, m);
    } else {
      var n := |handlers| - 1;
      UnionContains(handlers[..n], m);
      UnionMatches(Union(handlers[..n]), handlers[n].filter, m);
    }
  }

  // ---------------------------------------------------------------- binding a state

  /** The service whose handlers have been bound to `state`. */
  function BindService(s: Service, state: AppState): Service {
    match s
    case Leaf(h, _) => Leaf(Bound(h, state), UNIT)
    case Fallback(h, _) => Fallback(Bound(h, state), UNIT)
    case Wrapped(layer, inner) => Wrapped(layer, BindService(inner, state))
    case NotAllowed(_) => s
    case NotFound => s
  }

  lemma {:induction false} BindThroughLayers(s: Service, layers: seq<LayerId>, state: AppState)
    ensures ApplyLayers(BindService(s, state), layers) == BindService(ApplyLayers(s, layers), state)
    decreases |layers|
  {
    if layers != [] {
      BindThroughLayers(Wrapped(layers[0], s), layers[1..], state);
    }
  }

  lemma BoundEntry(v: View, state: AppState, m: Method, i: nat)
    requires i < |v.handlers|
    ensures Matches(WithStateView(v, state).handlers[i], v.allow, m) <==> Matches(v.handlers[i], v.allow, m)
  {
    assert WithStateView(v, state).handlers[i].filter == v.handlers[i].filter;
  }

  lemma {:induction false} BindingKeepsMatches(v: View, state: AppState, m: Method, i: nat)
    requires i <= |v.handlers|
    ensures FirstMatch(WithStateView(v, state), m, i) == FirstMatch(v, m, i)
    decreases |v.handlers| - i
  {
    hide Matches;
    if i < |v.handlers| {
      BoundEntry(v, state, m, i);
      BindingKeepsMatches(v, state, m, i + 1);
    }
  }

  /** Binding a method router binds the handler that each request reaches, and nothing else. */
  lemma DispatchBound(v: View, state: AppState, m: Method, unbound: AppState)
    ensures Dispatch(WithStateView(v, state), m, UNIT) == BindService(Dispatch(v, m, unbound), state)
  {
    BindingKeepsMatches(v, state, m, 0);
    var k := FirstMatch(v, m, 0);
    if k < |v.handlers| {
      BindThroughLayers(Leaf(v.handlers[k].handler, unbound), v.layers, state);
    }
  }

  /** The function a handler calls in the end and the state it is given: a bound handler hands on the
      state it was bound to, whatever it is called with. */
  function Target(h: Handler, state: AppState): (nat, AppState) {
    match h
    case Raw(id) => (id, state)
    case Bound(inner, bound) => Target(inner, bound)
  }

  /** The way of a request with the handler at its end resolved. */
  function Reached(s: Service): Service {
    match s
    case Leaf(h, state) => var (id, given) := Target(h, state); Leaf(Raw(id), given)
    case Fallback(h, state) => var (id, given) := Target(h, state); Fallback(Raw(id), given)
    case Wrapped(layer, inner) => Wrapped(layer, Reached(inner))
    case NotAllowed(_) => s
    case NotFound => s
  }

  lemma {:induction false} ReachedThroughLayers(s: Service, layers: seq<LayerId>)
    ensures Reached(ApplyLayers(s, layers)) == ApplyLayers(Reached(s), layers)
    decreases |layers|
  {
    if layers != [] {
      ReachedThroughLayers(Wrapped(layers[0], s), layers[1..]);
    }
  }

  /** Binding a state and calling with the unit state is calling with the state. */
  lemma BindingSuppliesState(v: View, state: AppState, m: Method)
    ensures Reached(Dispatch(WithStateView(v, state), m, UNIT)) == Reached(Dispatch(v, m, state))
  {
    BindingKeepsMatches(v, state, m, 0);
    var k := FirstMatch(v, m, 0);
    if k < |v.handlers| {
      var h := v.handlers[k].handler;
      ReachedThroughLayers(Leaf(h, state), v.layers);
      ReachedThroughLayers(Leaf(Bound(h, state), UNIT), v.layers);
    }
  }

  // ---------------------------------------------------------------- sharing and the baked cache

  /** `Arc<Vec<T>>` with its strong count. `owners` are the routers the count counts. */
  class ArcVec<T> {
    var items: seq<T>
    var strong: nat
    ghost var owners: set<object>

    ghost predicate CountedBy(me: object)
      reads this
    {
      me in owners && |owners| == strong
    }

    constructor (items: seq<T>)
      ensures this.items == items && strong == 1
    {
      this.items := items;
      strong := 1;
      owners := {};
    }

    /** The one owner a new list is counted for. */
    ghost method Adopt(me: object)
      requires strong == 1
      modifies this`owners
      ensures owners == {me} && CountedBy(me)
    {
      owners := {me};
    }

    /** `Arc::clone` for a new owner. */
    method Share(ghost me: object, ghost newcomer: object)
      requires CountedBy(me) && newcomer !in owners
      modifies this
      ensures items == old(items) && owners == old(owners) + {newcomer}
      ensures CountedBy(me) && CountedBy(newcomer)
    {
      strong := strong + 1;
      owners := owners + {newcomer};
    }

    /** `Arc::make_mut`, and `handlers_mut`: a list that others share is copied first. */
    method MakeMut(ghost me: object) returns (r: ArcVec<T>)
      requires CountedBy(me)
      modifies this
      ensures items == old(items) && r.items == old(items)
      ensures r.CountedBy(me) && r.owners == {me}
      ensures r == this || (fresh(r) && owners == old(owners) - {me} && |owners| == strong)
      ensures r == this ==> owners == old(owners)
    {
      if strong != 1 {
        strong := strong - 1;
        owners := owners - {me};
        r := new ArcVec(items);
        r.Adopt(me);
      } else {
        OnlyOwner(owners, me);
        r := this;
      }
    }

    /** The owner's `Arc` is dropped. */
    method Release(ghost me: object)
      requires CountedBy(me)
      modifies this
      ensures items == old(items) && owners == old(owners) - {me} && |owners| == strong
    {
      strong := strong - 1;
      owners := owners - {me};
    }
  }

  lemma OnlyOwner(owners: set<object>, me: object)
    requires me in owners && |owners| == 1
    ensures owners == {me}
  {
    assert |owners - {me}| == 0;
    assert owners - {me} == {};
    assert forall o :: o in owners ==> o == me;
  }

  class MethodRouter {
    var handlers: ArcVec<Entry>
    var layers: ArcVec<LayerId>
    var allow: Filter
    var baked: Option<seq<Service>>
    var bakeable: bool

    ghost function AsView(): View
      reads this, handlers, layers
    {
      View(handlers.items, allow, layers.items, bakeable)
    }

    /** Both lists count this router, the mask is the union of the filters, and a filled cache is
        what baking now would give. */
    ghost predicate Valid()
      reads this, handlers, layers
    {
      && handlers.CountedBy(this)
      && layers.CountedBy(this)
      && allow == Union(handlers.items)
      && (baked.Some? ==> bakeable && baked.value == Baked(AsView()))
    }

    constructor ()
      ensures Valid() && AsView() == EMPTY_VIEW
      ensures fresh(handlers) && fresh(layers)
    {
      handlers := new ArcVec([]);
      layers := new ArcVec([]);
      allow := NONE;
      baked := None;
      bakeable := false;
      new;
      handlers.Adopt(this);
      layers.Adopt(this);
    }

    /** `handlers_mut`: afterwards no other router refers to this one's handler list. */
    method OwnHandlers()
      requires Valid()
      modifies this`handlers, handlers
      ensures Valid() && AsView() == old(AsView())
      ensures handlers == old(handlers) || fresh(handlers)
      ensures handlers.owners == {this}
      ensures forall p: MethodRouter :: old(allocated(p)) && p != this && old(p.Valid()) ==>
        p.Valid() && p.AsView() == old(p.AsView())
      ensures forall p: MethodRouter :: old(allocated(p)) && p != this && old(p.Valid()) ==> p.handlers != handlers
    {
      hide Union, Baked, Or;
      handlers := handlers.MakeMut(this);
    }

    /** Extends an own copy of the handler list and forgets what was baked. */
    method PushHandlers(more: seq<Entry>, mask: Filter)
      requires Valid() && mask == Union(more)
      modifies this, handlers
      ensures Valid() && layers == old(layers)
      ensures forall p: MethodRouter :: old(allocated(p)) && p != this && old(p.Valid()) ==>
        p.Valid() && p.AsView() == old(p.AsView())
      ensures (handlers == old(handlers) || fresh(handlers)) && (layers == old(layers) || fresh(layers))
      ensures AsView() == old(AsView()).(handlers := old(handlers.items) + more, allow := Or(old(allow), mask))
    {
      hide Union, Baked, Or;
      baked := None;
      OwnHandlers();
      assert Or(allow, mask) == Union(handlers.items + more) by {
        UnionAppend(handlers.items, more);
      }
      allow := Or(allow, mask);
      handlers.items := handlers.items + more;
    }

    method On(filter: Filter, h: Handler)
      requires Valid()
      modifies this, handlers
      ensures Valid()
      ensures forall p: MethodRouter :: old(allocated(p)) && p != this && old(p.Valid()) ==>
        p.Valid() && p.AsView() == old(p.AsView())
      ensures (handlers == old(handlers) || fresh(handlers)) && (layers == old(layers) || fresh(layers))
      ensures AsView() == OnView(old(AsView()), filter, h)
    {
      hide Union, Baked, Or;
      UnionOne(filter, h);
      PushHandlers([Entry(filter, h)], filter);
    }

    /** `Arc::make_mut(&mut self.layers)` */
    method OwnLayers()
      requires Valid()
      modifies this`layers, layers
      ensures Valid() && AsView() == old(AsView())
      ensures layers == old(layers) || fresh(layers)
      ensures layers.owners == {this}
      ensures forall p: MethodRouter :: old(allocated(p)) && p != this && old(p.Valid()) ==>
        p.Valid() && p.AsView() == old(p.AsView())
      ensures forall p: MethodRouter :: old(allocated(p)) && p != this && old(p.Valid()) ==> p.layers != layers
    {
      hide Union, Baked, Or;
      layers := layers.MakeMut(this);
    }

    /** Extends an own copy of the layer list and forgets what was baked. */
    method PushLayers(more: seq<LayerId>)
      requires Valid()
      modifies this, layers
      ensures Valid() && handlers == old(handlers)
      ensures forall p: MethodRouter :: old(allocated(p)) && p != this && old(p.Valid()) ==>
        p.Valid() && p.AsView() == old(p.AsView())
      ensures (handlers == old(handlers) || fresh(handlers)) && (layers == old(layers) || fresh(layers))
      ensures AsView() == ExtendView(old(AsView()), more)
    {
      hide Union, Baked, Or;
      OwnLayers();
      layers.items := layers.items + more;
      baked := None;
    }

    method Layer(layer: LayerId)
      requires Valid()
      modifies this, layers
      ensures Valid()
      ensures forall p: MethodRouter :: old(allocated(p)) && p != this && old(p.Valid()) ==>
        p.Valid() && p.AsView() == old(p.AsView())
      ensures (handlers == old(handlers) || fresh(handlers)) && (layers == old(layers) || fresh(layers))
      ensures AsView() == ExtendView(old(AsView()), [layer])
    {
      PushLayers([layer]);
    }

    /** Nothing is touched, not even the cache, when there is nothing to add. */
    method ExtendLayers(extra: seq<LayerId>)
      requires Valid()
      modifies this, layers
      ensures Valid()
      ensures forall p: MethodRouter :: old(allocated(p)) && p != this && old(p.Valid()) ==>
        p.Valid() && p.AsView() == old(p.AsView())
      ensures (handlers == old(handlers) || fresh(handlers)) && (layers == old(layers) || fresh(layers))
      ensures AsView() == ExtendView(old(AsView()), extra)
    {
      hide Union, Baked, Or;
      if extra == [] {
        assert layers.items + extra == layers.items;
        return;
      }
      PushLayers(extra);
    }

    /** `false` is the duplicate-method panic, raised before anything is changed. */
    method Merge(other: MethodRouter) returns (ok: bool)
      requires Valid() && other.Valid() && other != this
      modifies this, handlers, layers
      ensures Valid()
      ensures forall p: MethodRouter :: old(allocated(p)) && p != this && old(p.Valid()) ==>
        p.Valid() && p.AsView() == old(p.AsView())
      ensures (handlers == old(handlers) || fresh(handlers)) && (layers == old(layers) || fresh(layers))
      ensures ok <==> MergeView(old(AsView()), old(other.AsView())).Some?
      ensures AsView() == if ok then MergeView(old(AsView()), old(other.AsView())).value else old(AsView())
    {
      hide Union, Baked, Or, Overlaps;
      if Overlaps(allow, other.allow) {
        return false;
      }
      PushHandlers(other.handlers.items, other.allow);
      PushLayers(other.layers.items);
      baked := None;
      bakeable := false;
      return true;
    }

    /** The bound router takes over the layers; its handler list is new. */
    method WithState(state: AppState)
      requires Valid()
      modifies this, handlers
      ensures Valid()
      ensures forall p: MethodRouter :: old(allocated(p)) && p != this && old(p.Valid()) ==>
        p.Valid() && p.AsView() == old(p.AsView())
      ensures (handlers == old(handlers) || fresh(handlers)) && (layers == old(layers) || fresh(layers))
      ensures AsView() == WithStateView(old(AsView()), state)
    {
      hide Union, Baked, Or;
      ghost var was := handlers.items;
      UnionSame(was, BoundHandlers(was, state));
      var bound := new ArcVec(BoundHandlers(handlers.items, state));
      bound.Adopt(this);
      handlers.Release(this);
      handlers := bound;
      baked := None;
      bakeable := true;
    }

    /** Both lists are shared; the clone bakes nothing until it is bound itself. */
    method Clone() returns (r: MethodRouter)
      requires Valid()
      modifies handlers, layers
      ensures fresh(r) && Valid() && r.Valid()
      ensures r.handlers == handlers && r.layers == layers
      ensures forall p: MethodRouter :: old(allocated(p)) && old(p.Valid()) ==>
        p.Valid() && p.AsView() == old(p.AsView())
      ensures r.AsView() == old(AsView()).(bakeable := false)
    {
      hide Union, Baked, Or;
      r := new MethodRouter.Sharing(this);
      handlers.Share(this, r);
      layers.Share(this, r);
    }

    constructor Sharing(of: MethodRouter)
      ensures handlers == of.handlers && layers == of.layers && allow == of.allow
      ensures baked == None && !bakeable
    {
      handlers, layers, allow := of.handlers, of.layers, of.allow;
      baked := None;
      bakeable := false;
    }

    /** `baked.get_or_init` */
    method Bake()
      requires Valid() && bakeable
      modifies this`baked
      ensures Valid() && AsView() == old(AsView())
      ensures baked == Some(Baked(AsView()))
    {
      hide Union, Or, ApplyLayers;
      if baked.None? {
        baked := Some(seq(|handlers.items|, i requires 0 <= i < |handlers.items| reads this, handlers, layers =>
          ApplyLayers(Leaf(handlers.items[i].handler, UNIT), layers.items)));
        assert baked.value == Baked(AsView());
      }
    }

    /** `call`: whether the cache is absent, filled now or filled by an earlier call, the request
        takes the way that folding the current layers over the first matching handler gives. */
    method Call(m: Method, state: AppState) returns (r: Service)
      requires Valid()
      requires bakeable ==> state == UNIT   // the state type of a bound router is ()
      modifies this`baked
      ensures Valid() && AsView() == old(AsView())
      ensures r == Dispatch(AsView(), m, state)
    {
      hide Union, Or, Contains, ApplyLayers, FirstMatch, FromMethod;
      ghost var v := AsView();
      var fallsBack := HeadFallsBack(allow, m);
      var useBaked := bakeable && layers.items != [];
      if useBaked {
        Bake();
      }
      NoLayers(state);
      for idx := 0 to |handlers.items|
        invariant idx <= FirstMatch(v, m, 0)
      {
        var e := handlers.items[idx];
        if Contains(e.filter, FromMethod(m)) || (fallsBack && Contains(e.filter, GET)) {
          if useBaked {
            return baked.value[idx];
          } else if layers.items == [] {
            return Leaf(e.handler, state);
          } else {
            return ApplyLayers(Leaf(e.handler, state), layers.items);
          }
        }
      }
      return NotAllowed(allow);
    }
  }

  lemma NoLayers(state: AppState)
    ensures forall h :: ApplyLayers(Leaf(h, state), []) == Leaf(h, state)
  {
  }

  // ---------------------------------------------------------------- HEAD

  /** The views a `MethodRouter` can have: the mask is the union of the filters. */
  ghost predicate Coherent(v: View) { v.allow == Union(v.handlers) }

  lemma FirstMatchSame(v: View, m: Method, n: Method, i: nat)
    requires i <= |v.handlers|
    requires forall j :: i <= j < |v.handlers| ==>
      (Matches(v.handlers[j], v.allow, m) <==> Matches(v.handlers[j], v.allow, n))
    ensures FirstMatch(v, m, i) == FirstMatch(v, n, i)
    decreases |v.handlers| - i
  {
    if i < |v.handlers| && !Matches(v.handlers[i], v.allow, m) {
      FirstMatchSame(v, m, n, i + 1);
    }
  }

  /** A HEAD request goes to the first handler bound for HEAD, and where there is none it takes
      exactly the way a GET request takes, 405 included. */
  lemma HeadFollowsGet(v: View, state: AppState)
    requires Coherent(v)
    ensures (forall i :: 0 <= i < |v.handlers| ==> !Contains(v.handlers[i].filter, HEAD))
            ==> Dispatch(v, Head, state) == Dispatch(v, Get, state)
    ensures var k := FirstMatch(v, Head, 0);
            (exists i :: 0 <= i < |v.handlers| && Contains(v.handlers[i].filter, HEAD))
            ==> k < |v.handlers| && Contains(v.handlers[k].filter, HEAD)
                && forall i :: 0 <= i < k ==> !Contains(v.handlers[i].filter, HEAD)
  {
    hide Contains;
    UnionContains(v.handlers, Head);
    if forall i :: 0 <= i < |v.handlers| ==> !Contains(v.handlers[i].filter, HEAD) {
      FirstMatchSame(v, Head, Get, 0);
    }
  }

  /** A request is answered 405 exactly when its method is in no handler's filter, nor, for HEAD, in
      that of a GET handler. */
  lemma ServedIffRegistered(v: View, m: Method)
    requires Coherent(v)
    ensures FirstMatch(v, m, 0) < |v.handlers|
       <==> Contains(v.allow, FromMethod(m)) || (m.Head? && Contains(v.allow, GET))
  {
    hide Contains;
    UnionContains(v.handlers, m);
    UnionContains(v.handlers, Get);
    var k := FirstMatch(v, m, 0);
    if k == |v.handlers| {
      assert forall j :: 0 <= j < |v.handlers| ==> !Matches(v.handlers[j], v.allow, m);
    }
  }

  // ---------------------------------------------------------------- what `on` and `merge` add

  /** Handlers put behind those of `v` are asked after them. */
  lemma FirstMatchBehind(v: View, added: seq<Entry>, u: View, m: Method)
    requires u.handlers == v.handlers + added
    requires HeadFallsBack(u.allow, m) == HeadFallsBack(v.allow, m)
    ensures FirstMatch(v, m, 0) < |v.handlers| ==> FirstMatch(u, m, 0) == FirstMatch(v, m, 0)
    ensures FirstMatch(v, m, 0) == |v.handlers| ==> FirstMatch(u, m, 0) >= |v.handlers|
  {
    hide FirstMatch, Contains, FromMethod;
    forall j | 0 <= j < |v.handlers|
      ensures Matches(u.handlers[j], u.allow, m) <==> Matches(v.handlers[j], v.allow, m)
    {
      assert u.handlers[j] == v.handlers[j];
    }
  }

  lemma NoneContains(handlers: seq<Entry>, m: Method)
    requires !Contains(Union(handlers), FromMethod(m))
    ensures forall i :: 0 <= i < |handlers| ==> !Contains(handlers[i].filter, FromMethod(m))
  {
    hide Contains, FromMethod;
    UnionContains(handlers, m);
  }

  /** Where neither `v` nor what is put behind it has the method, a HEAD request goes the way of a GET
      request and any other is answered 405. */
  lemma NoneRegistered(u: View, m: Method, state: AppState)
    requires Coherent(u) && !Contains(u.allow, FromMethod(m))
    ensures Dispatch(u, m, state) == if m.Head? then Dispatch(u, Get, state) else NotAllowed(u.allow)
  {
    hide Contains;
    NoneContains(u.handlers, m);
    if m.Head? {
      HeadFollowsGet(u, state);
    }
  }

  /** Handlers behind those of `v` get the requests whose methods `v` does not have. */
  lemma DispatchBehind(v: View, w: View, u: View, m: Method, state: AppState)
    requires Coherent(v) && Coherent(w)
    requires u.handlers == v.handlers + w.handlers && u.allow == Or(v.allow, w.allow)
    ensures Coherent(u)
    ensures Contains(v.allow, FromMethod(m)) ==>
      FirstMatch(v, m, 0) < |v.handlers| && FirstMatch(u, m, 0) == FirstMatch(v, m, 0)
    ensures !Contains(v.allow, FromMethod(m)) && Contains(w.allow, FromMethod(m)) ==>
      FirstMatch(w, m, 0) < |w.handlers| && FirstMatch(u, m, 0) == |v.handlers| + FirstMatch(w, m, 0)
  {
    hide Contains, FromMethod, FirstMatch, Union, Or, Matches;
    UnionAppend(v.handlers, w.handlers);
    UnionMatches(v.allow, w.allow, m);
    if Contains(v.allow, FromMethod(m)) {
      ServedIffRegistered(v, m);
      HeadPresent(v.allow, m);
      HeadPresent(u.allow, m);
      FirstMatchBehind(v, w.handlers, u, m);
    } else if Contains(w.allow, FromMethod(m)) {
      ServedIffRegistered(w, m);
      HeadPresent(w.allow, m);
      HeadPresent(u.allow, m);
      NoneContains(v.handlers, m);
      FirstMatchInSecond(v, w, u, m);
    }
  }

  lemma FirstMatchInSecond(v: View, w: View, u: View, m: Method)
    requires u.handlers == v.handlers + w.handlers
    requires !HeadFallsBack(u.allow, m) && !HeadFallsBack(w.allow, m)
    requires forall i :: 0 <= i < |v.handlers| ==> !Contains(v.handlers[i].filter, FromMethod(m))
    requires FirstMatch(w, m, 0) < |w.handlers|
    ensures FirstMatch(u, m, 0) == |v.handlers| + FirstMatch(w, m, 0)
  {
    hide Contains, FromMethod, FirstMatch, Matches, HeadFallsBack;
    forall j | 0 <= j < |v.handlers|
      ensures !Matches(u.handlers[j], u.allow, m)
    {
      assert u.handlers[j] == v.handlers[j];
      MatchesDirectly(u.handlers[j], u.allow, m);
    }
    var n := |v.handlers|;
    forall j | 0 <= j < |w.handlers|
      ensures Matches(u.handlers[n + j], u.allow, m) <==> Matches(w.handlers[j], w.allow, m)
    {
      var e := w.handlers[j];
      assert u.handlers[n + j] == e;
      MatchesDirectly(e, u.allow, m);
      MatchesDirectly(e, w.allow, m);
    }
    FirstAfter(u, w, n, m);
  }

  lemma FirstAfter(u: View, w: View, n: nat, m: Method)
    requires |u.handlers| == n + |w.handlers|
    requires forall j :: 0 <= j < n ==> !Matches(u.handlers[j], u.allow, m)
    requires forall j :: 0 <= j < |w.handlers| ==>
      (Matches(u.handlers[n + j], u.allow, m) <==> Matches(w.handlers[j], w.allow, m))
    requires FirstMatch(w, m, 0) < |w.handlers|
    ensures FirstMatch(u, m, 0) == n + FirstMatch(w, m, 0)
  {
    hide FirstMatch, Matches;
    var k := FirstMatch(u, m, 0);
    assert Matches(u.handlers[n + FirstMatch(w, m, 0)], u.allow, m);
    forall i | n <= i < n + FirstMatch(w, m, 0)
      ensures !Matches(u.handlers[i], u.allow, m)
    {
      assert !Matches(w.handlers[i - n], w.allow, m);
      assert u.handlers[n + (i - n)] == u.handlers[i];
    }
  }

  lemma HeadPresent(allow: Filter, m: Method)
    requires Contains(allow, FromMethod(m))
    ensures !HeadFallsBack(allow, m)
  {
  }

  /** A request whose method is registered does not fall back. */
  lemma MatchesDirectly(e: Entry, allow: Filter, m: Method)
    requires !HeadFallsBack(allow, m)
    ensures Matches(e, allow, m) <==> Contains(e.filter, FromMethod(m))
  {
  }

  /** After `on` every request that was served is served as before, the handler gets the other requests
      its filter matches, and no others change but for the methods a 405 reply allows. */
  lemma OnServes(v: View, filter: Filter, h: Handler, m: Method, state: AppState)
    requires Coherent(v)
    ensures var u := OnView(v, filter, h);
      && (Contains(u.allow, FromMethod(m)) <==> Contains(v.allow, FromMethod(m)) || Contains(filter, FromMethod(m)))
      && Dispatch(u, m, state)
         == if Contains(v.allow, FromMethod(m)) then Dispatch(v, m, state)
            else if Contains(filter, FromMethod(m)) then ApplyLayers(Leaf(h, state), v.layers)
            else if m.Head? then Dispatch(u, Get, state)
            else NotAllowed(u.allow)
  {
    hide Contains, FromMethod, FirstMatch, Union, Or, ApplyLayers;
    var u, w := OnView(v, filter, h), OnView(EMPTY_VIEW, filter, h);
    UnionOne(filter, h);
    OrIsMonoid(filter, NONE, NONE);
    assert w.handlers == [Entry(filter, h)] && w.allow == filter;
    UnionMatches(v.allow, filter, m);
    DispatchBehind(v, w, u, m, state);
    if !Contains(u.allow, FromMethod(m)) {
      NoneRegistered(u, m, state);
    }
  }

  /** A merge panics exactly when some method is registered on both sides. After it each side serves the
      methods it has, with its own handlers inside the layers of the first and then of the second. */
  lemma MergeServes(v: View, w: View, m: Method, state: AppState)
    requires Coherent(v) && Coherent(w) && OfMethods(v.allow) && OfMethods(w.allow)
    ensures MergeView(v, w).None? <==> exists n :: Contains(v.allow, FromMethod(n)) && Contains(w.allow, FromMethod(n))
    ensures MergeView(v, w).Some? ==>
      var u := MergeView(v, w).value;
      && (Contains(u.allow, FromMethod(m)) <==> Contains(v.allow, FromMethod(m)) || Contains(w.allow, FromMethod(m)))
      && Dispatch(u, m, state)
         == if Contains(v.allow, FromMethod(m)) then ApplyLayers(Dispatch(v, m, state), w.layers)
            else if Contains(w.allow, FromMethod(m)) then
              Dispatch(w.(layers := v.layers + w.layers), m, state)
            else if m.Head? then Dispatch(u, Get, state)
            else NotAllowed(u.allow)
  {
    hide Contains, FromMethod, FirstMatch, Union, Or, Overlaps, OfMethods, ApplyLayers;
    OverlapIsSharedMethod(v.allow, w.allow);
    if MergeView(v, w).Some? {
      var u := MergeView(v, w).value;
      UnionMatches(v.allow, w.allow, m);
      DispatchBehind(v, w, u, m, state);
      FirstMatchSameView(w, w.(layers := v.layers + w.layers), m, 0);
      if Contains(v.allow, FromMethod(m)) {
        ApplyLayersAppend(Leaf(v.handlers[FirstMatch(v, m, 0)].handler, state), v.layers, w.layers);
      } else if !Contains(w.allow, FromMethod(m)) {
        NoneRegistered(u, m, state);
      }
    }
  }

  lemma {:induction false} FirstMatchSameView(v: View, w: View, m: Method, i: nat)
    requires i <= |v.handlers| && v.handlers == w.handlers && v.allow == w.allow
    ensures FirstMatch(v, m, i) == FirstMatch(w, m, i)
    decreases |v.handlers| - i
  {
    if i < |v.handlers| {
      FirstMatchSameView(v, w, m, i + 1);
    }
  }
}
