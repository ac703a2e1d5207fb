/** Nesting flattens a sub-router into its parent. Here each sub-router is instead built on its own,
    layers and all, and mounted as a service; the two are compared route by route. */
module Flattening {
  import opened Wrappers
  import opened MethodFilter
  import opened MethodRouter
  import opened Router

  /** A mounted route: what it answers to each method, and for the comparison the method router it
      began as and the layers of the sub-routers it was mounted through. */
  datatype Mount = Mount(pattern: string, serve: Method -> Service, methods: View, through: seq<LayerId>)

  function LayersOf(ops: seq<Op>): seq<LayerId> {
    if ops == [] then []
    else
      var last := ops[|ops| - 1];
      LayersOf(ops[..|ops| - 1]) + (if last.AddLayer? then [last.layer] else [])
  }

  function RouteLayersOf(ops: seq<Op>): seq<LayerId> {
    if ops == [] then []
    else
      var last := ops[|ops| - 1];
      RouteLayersOf(ops[..|ops| - 1]) + (if last.AddRouteLayer? then [last.layer] else [])
  }

  /** The layers a router of its own puts around what it serves. */
  function Around(ops: seq<Op>, s: Service): Service {
    ApplyLayers(ApplyLayers(s, RouteLayersOf(ops)), LayersOf(ops))
  }

  /** A sub-router built on its own: its routes, each answering through its own layers. */
  function OwnService(ops: seq<Op>): seq<Mount>
    decreases ops, 1
  {
    var ms := Mounts(ops);
    seq(|ms|, i requires 0 <= i < |ms| =>
      Mount(ms[i].pattern, m => Around(ops, ms[i].serve(m)), ms[i].methods,
            ms[i].through + (RouteLayersOf(ops) + LayersOf(ops))))
  }

  function Prefixed(prefix: string, ms: seq<Mount>): seq<Mount> {
    seq(|ms|, i requires 0 <= i < |ms| => ms[i].(pattern := TrimEnd(prefix) + ms[i].pattern))
  }

  /** A route of the router itself. */
  function PlainMount(path: string, methods: View): Mount {
    Mount(path, m => Dispatch(methods, m, UNIT), methods, [])
  }

  function MountPatterns(ms: seq<Mount>): (ps: seq<string>)
    ensures |ps| == |ms|
  {
    seq(|ms|, i requires 0 <= i < |ms| => ms[i].pattern)
  }

  /** A collected route joins the method router that has its pattern. If that one was mounted with a
      sub-router, the layers it came with count as its own from then on. */
  function CollectMount(ms: seq<Mount>, path: string, methods: View): seq<Mount> {
    var i := FirstAt(MountPatterns(ms), path);
    if i == |ms| then ms + [PlainMount(path, methods)]
    else
      match MergeView(ExtendView(ms[i].methods, ms[i].through), methods)
      case None => ms
      case Some(v) => ms[i := PlainMount(path, v)]
  }

  /** Binding a router binds what its services answer with. */
  function BindMounts(ms: seq<Mount>, state: AppState): seq<Mount> {
    seq(|ms|, i requires 0 <= i < |ms| =>
      Mount(ms[i].pattern, m => BindService(ms[i].serve(m), state), WithStateView(ms[i].methods, state), ms[i].through))
  }

  /** The routes of a router before its own layers: method routers, and the services of the
      sub-routers mounted in it. */
  function Mounts(ops: seq<Op>): seq<Mount>
    decreases ops, 0
  {
    if ops == [] then []
    else
      var ms := Mounts(ops[..|ops| - 1]);
      match ops[|ops| - 1]
      case AddRoute(path, methods) => ms + [PlainMount(path, methods)]
      case Collect(path, methods) => CollectMount(ms, path, methods)
      case NestAt(prefix, sub) => ms + Prefixed(prefix, OwnService(sub))
      case MergeWith(sub) => ms + OwnService(sub)
      case BindState(state) => BindMounts(ms, state)
      case AddLayer(_) => ms
      case AddRouteLayer(_) => ms
      case SetFallback(_) => ms
  }

  lemma NestPathIsConcat(prefix: string, path: string)
    ensures NestPath(prefix, path) == prefix + path
  {
  }

  /** The flattened entry of a mount: its method router with the sub-routers' layers pushed on. */
  ghost predicate Flattens(r: Route, m: Mount) {
    && r.pattern == m.pattern
    && r.methods == ExtendView(m.methods, m.through)
    && forall x :: m.serve(x) == ApplyLayers(Dispatch(m.methods, x, UNIT), m.through)
  }

  ghost predicate FlattensAll(routes: seq<Route>, ms: seq<Mount>) {
    |routes| == |ms| && forall i :: 0 <= i < |routes| ==> Flattens(routes[i], ms[i])
  }

  lemma ExtendTwice(v: View, a: seq<LayerId>, b: seq<LayerId>)
    ensures ExtendView(ExtendView(v, a), b) == ExtendView(v, a + b)
  {
    assert v.layers + a + b == v.layers + (a + b);
  }

  lemma AroundThrough(ops: seq<Op>, base: Service, through: seq<LayerId>)
    ensures Around(ops, ApplyLayers(base, through))
         == ApplyLayers(base, through + (RouteLayersOf(ops) + LayersOf(ops)))
  {
    ApplyLayersAppend(base, through, RouteLayersOf(ops) + LayersOf(ops));
    ApplyLayersAppend(ApplyLayers(base, through), RouteLayersOf(ops), LayersOf(ops));
  }

  /** `r` is what flattening makes of the program `ops`. */
  ghost predicate Matching(ops: seq<Op>, r: RouterView) {
    && FlattensAll(r.routes, Mounts(ops))
    && r.layers == LayersOf(ops)
    && r.routeLayers == RouteLayersOf(ops)
  }

  lemma OwnFlattens(sub: seq<Op>, other: RouterView)
    requires Matching(sub, other)
    ensures |OwnService(sub)| == |other.routes|
    ensures forall i :: 0 <= i < |other.routes| ==>
      Flattens(Merged(other)[i], OwnService(sub)[i])
  {
    var ms := Mounts(sub);
    forall i | 0 <= i < |other.routes|
      ensures Flattens(Merged(other)[i], OwnService(sub)[i])
    {
      assert Flattens(other.routes[i], ms[i]);
      ExtendTwice(ms[i].methods, ms[i].through, SubLayers(other));
      var own := OwnService(sub)[i];
      assert own.through == ms[i].through + SubLayers(other);
      forall x
        ensures own.serve(x) == ApplyLayers(Dispatch(own.methods, x, UNIT), own.through)
      {
        assert own.serve(x) == Around(sub, ms[i].serve(x));
        AroundThrough(sub, Dispatch(ms[i].methods, x, UNIT), ms[i].through);
      }
    }
  }

  lemma FlattensAppend(rs: seq<Route>, ms: seq<Mount>, rs': seq<Route>, ms': seq<Mount>)
    requires FlattensAll(rs, ms) && FlattensAll(rs', ms')
    ensures FlattensAll(rs + rs', ms + ms')
  {
    hide Flattens;
  }

  /** Builder calls that add routes at the end, and those that add none. */
  predicate Appends(op: Op) { !op.Collect? && !op.BindState? }

  /** What such a call adds, on both sides. */
  lemma StepAppends(ops: seq<Op>, op: Op, r: RouterView) returns (added: seq<Route>, mounted: seq<Mount>)
    requires Build(ops) == Some(r) && Build(ops + [op]).Some?
    requires Appends(op)
    requires op.NestAt? || op.MergeWith? ==> Build(op.sub).Some? && Matching(op.sub, Build(op.sub).value)
    ensures FlattensAll(added, mounted)
    ensures Build(ops + [op]).value.routes == r.routes + added
    ensures Mounts(ops + [op]) == Mounts(ops) + mounted
  {
    hide FlattensAll, Flattens, OwnService, PlainMount;
    assert (ops + [op])[..|ops + [op]| - 1] == ops;
    match op
    case AddRoute(path, methods) =>
      added, mounted := [Route(path, methods)], [PlainMount(path, methods)];
      PlainRouteFlattens(path, methods);
      OneFlattens(added[0], mounted[0]);
    case NestAt(prefix, sub) =>
      var other := Build(sub).value;
      added, mounted := Nested(prefix, other), Prefixed(prefix, OwnService(sub));
      OwnFlattens(sub, other);
      NestFlattens(prefix, sub, other);
    case MergeWith(sub) =>
      var other := Build(sub).value;
      added, mounted := Merged(other), OwnService(sub);
      OwnFlattens(sub, other);
      MergeFlattens(sub, other);
    case _ =>
      added, mounted := [], [];
      EmptyFlattens();
  }

  lemma FindSame(routes: seq<Route>, ms: seq<Mount>, path: string)
    requires FlattensAll(routes, ms)
    ensures Find(routes, path) == FirstAt(MountPatterns(ms), path)
  {
    hide FirstAt;
    forall i | 0 <= i < |routes|
      ensures routes[i].pattern == ms[i].pattern
    {
      assert Flattens(routes[i], ms[i]);
    }
    assert Patterns(routes) == MountPatterns(ms);
  }

  lemma CollectFlattens(r: RouterView, ms: seq<Mount>, path: string, methods: View)
    requires FlattensAll(r.routes, ms)
    requires CollectView(r, path, methods).Some?
    ensures FlattensAll(CollectView(r, path, methods).value.routes, CollectMount(ms, path, methods))
  {
    FindSame(r.routes, ms, path);
    var i := Find(r.routes, path);
    if i == |r.routes| {
      PlainRouteFlattens(path, methods);
    } else {
      assert Flattens(r.routes[i], ms[i]);
      var v := MergeView(r.routes[i].methods, methods).value;
      PlainRouteFlattens(path, v);
    }
    hide Flattens, MergeView, PlainMount;
  }

  lemma OneBound(r: Route, m: Mount, state: AppState)
    requires Flattens(r, m)
    ensures Flattens(Route(r.pattern, WithStateView(r.methods, state)), BindMounts([m], state)[0])
  {
    var bound := BindMounts([m], state)[0];
    forall x
      ensures bound.serve(x) == ApplyLayers(Dispatch(bound.methods, x, UNIT), bound.through)
    {
      DispatchBound(m.methods, state, x, UNIT);
      BindThroughLayers(Dispatch(m.methods, x, UNIT), m.through, state);
    }
  }

  lemma BindFlattens(routes: seq<Route>, ms: seq<Mount>, state: AppState)
    requires FlattensAll(routes, ms)
    ensures FlattensAll(BindRoutes(routes, state), BindMounts(ms, state))
  {
    forall i | 0 <= i < |routes|
      ensures Flattens(BindRoutes(routes, state)[i], BindMounts(ms, state)[i])
    {
      assert Flattens(routes[i], ms[i]);
      OneBound(routes[i], ms[i], state);
      FlattensSame(BindRoutes(routes, state)[i], BindMounts([ms[i]], state)[0], BindMounts(ms, state)[i]);
    }
  }

  lemma FlattensSame(r: Route, m: Mount, n: Mount)
    requires Flattens(r, m)
    requires m.pattern == n.pattern && m.methods == n.methods && m.through == n.through
    requires forall x :: m.serve(x) == n.serve(x)
    ensures Flattens(r, n)
  {
  }

  lemma OneFlattens(r: Route, m: Mount)
    requires Flattens(r, m)
    ensures FlattensAll([r], [m])
  {
  }

  lemma EmptyFlattens()
    ensures FlattensAll([], [])
  {
  }

  lemma MergeFlattens(sub: seq<Op>, other: RouterView)
    requires |OwnService(sub)| == |other.routes|
    requires forall i :: 0 <= i < |other.routes| ==>
      Flattens(Merged(other)[i], OwnService(sub)[i])
    ensures FlattensAll(Merged(other), OwnService(sub))
  {
    hide Flattens, OwnService;
  }

  lemma LayersSnoc(ops: seq<Op>, op: Op)
    ensures LayersOf(ops + [op]) == LayersOf(ops) + if op.AddLayer? then [op.layer] else []
    ensures RouteLayersOf(ops + [op]) == RouteLayersOf(ops) + if op.AddRouteLayer? then [op.layer] else []
  {
    assert (ops + [op])[..|ops|] == ops;
  }

  /** Only `layer` and `route_layer` change a router's own layers. */
  lemma BuildLayers(ops: seq<Op>, op: Op, r: RouterView)
    requires Build(ops) == Some(r) && Build(ops + [op]).Some?
    ensures var r' := Build(ops + [op]).value;
      && r'.layers == (if op.AddLayer? then r.layers + [op.layer] else r.layers)
      && r'.routeLayers == (if op.AddRouteLayer? then r.routeLayers + [op.layer] else r.routeLayers)
  {
    hide Nested, Merged, BindRoutes, MergeView, Find;
    assert (ops + [op])[..|ops|] == ops;
  }

  lemma StepLayers(ops: seq<Op>, op: Op, r: RouterView)
    requires Build(ops) == Some(r) && Build(ops + [op]).Some?
    requires r.layers == LayersOf(ops) && r.routeLayers == RouteLayersOf(ops)
    ensures Build(ops + [op]).value.layers == LayersOf(ops + [op])
    ensures Build(ops + [op]).value.routeLayers == RouteLayersOf(ops + [op])
  {
    hide *;
    BuildLayers(ops, op, r);
    LayersSnoc(ops, op);
    assert r.layers + [] == r.layers && r.routeLayers + [] == r.routeLayers;
  }

  lemma StepMatches(ops: seq<Op>, op: Op, r: RouterView)
    requires Build(ops) == Some(r) && Build(ops + [op]).Some?
    requires Matching(ops, r)
    requires op.NestAt? || op.MergeWith? ==> Build(op.sub).Some? && Matching(op.sub, Build(op.sub).value)
    ensures Matching(ops + [op], Build(ops + [op]).value)
  {
    hide FlattensAll, Mounts, Build;
    StepLayers(ops, op, r);
    if Appends(op) {
      var added, mounted := StepAppends(ops, op, r);
      FlattensAppend(r.routes, Mounts(ops), added, mounted);
    } else {
      StepRewrites(ops, op, r);
    }
  }

  lemma StepRewrites(ops: seq<Op>, op: Op, r: RouterView)
    requires Build(ops) == Some(r) && Build(ops + [op]).Some?
    requires !Appends(op) && FlattensAll(r.routes, Mounts(ops))
    ensures FlattensAll(Build(ops + [op]).value.routes, Mounts(ops + [op]))
  {
    hide FlattensAll, CollectMount, BindMounts, CollectView;
    assert (ops + [op])[..|ops + [op]| - 1] == ops;
    match op
    case Collect(path, methods) => CollectFlattens(r, Mounts(ops), path, methods);
    case BindState(state) => BindFlattens(r.routes, Mounts(ops), state);
  }

  lemma BuildParts(ops: seq<Op>, op: Op)
    requires Build(ops + [op]).Some?
    ensures Build(ops).Some?
    ensures op.NestAt? || op.MergeWith? ==> Build(op.sub).Some?
  {
    assert (ops + [op])[..|ops + [op]| - 1] == ops;
  }

  lemma {:induction false} BuildFlattens(ops: seq<Op>)
    requires Build(ops).Some?
    ensures Matching(ops, Build(ops).value)
    decreases ops
  {
    if ops == [] {
      EmptyFlattens();
    } else {
      var n := |ops| - 1;
      var op, before := ops[n], ops[..n];
      assert ops == before + [op];
      hide Matching, Build;
      BuildParts(before, op);
      BuildFlattens(before);
      if op.NestAt? || op.MergeWith? {
        BuildFlattens(op.sub);
      }
      StepMatches(before, op, Build(before).value);
    }
  }

  lemma PlainRouteFlattens(path: string, methods: View)
    ensures Flattens(Route(path, methods), PlainMount(path, methods))
  {
    assert methods.layers + [] == methods.layers;
  }

  lemma NestFlattens(prefix: string, sub: seq<Op>, other: RouterView)
    requires |OwnService(sub)| == |other.routes|
    requires forall i :: 0 <= i < |other.routes| ==>
      Flattens(Merged(other)[i], OwnService(sub)[i])
    ensures FlattensAll(Nested(prefix, other), Prefixed(prefix, OwnService(sub)))
  {
  }

  /** Every route of the built service, however deep it was nested and wherever a state was bound,
      has the pattern it would have and is wrapped by the layers it would have, in the same order, if
      each sub-router were built on its own and mounted. The one exception is a 405 reply, which the
      flattened router sends without the layers of the sub-routers: it is the same exactly when a
      handler answers or no sub-router on the way had a layer. */
  lemma FlatteningPreservesMiddleware(ops: seq<Op>, i: nat, m: Method)
    requires Build(ops).Some?
    ensures |Build(ops).value.routes| == |Mounts(ops)| == |OwnService(ops)|
    ensures i < |Mounts(ops)| ==>
      var r, mount, own := Build(ops).value, Mounts(ops)[i], OwnService(ops)[i];
      && r.routes[i].pattern == own.pattern
      && (Serve(r, Some(i), m) == own.serve(m)
          <==> FirstMatch(mount.methods, m, 0) < |mount.methods.handlers| || mount.through == [])
  {
    BuildFlattens(ops);
    if i < |Mounts(ops)| {
      var r, mount := Build(ops).value, Mounts(ops)[i];
      assert Flattens(r.routes[i], mount);
      var base := Dispatch(mount.methods, m, UNIT);
      var flat, own := Dispatch(r.routes[i].methods, m, UNIT), mount.serve(m);
      ServeIsAround(r, ops, i, m);
      AroundInjective(ops, flat, own);
      FirstMatchIgnoresLayers(mount.methods, mount.through, m, 0);
      var k := FirstMatch(mount.methods, m, 0);
      if k < |mount.methods.handlers| {
        ApplyLayersAppend(Leaf(mount.methods.handlers[k].handler, UNIT), mount.methods.layers, mount.through);
        assert flat == own;
      } else {
        assert flat == base == NotAllowed(mount.methods.allow);
        ApplyLayersDepth(base, mount.through);
        if mount.through == [] { assert own == base; }
      }
    }
  }

  /** One route with one handler, and one layer. */
  function LayeredRoute(path: string, v: View, layer: LayerId): seq<Op> { [AddRoute(path, v), AddLayer(layer)] }

  lemma LayeredRouteParts(path: string, v: View, layer: LayerId)
    ensures var sub := LayeredRoute(path, v, layer);
      && Build(sub) == Some(RouterView([Route(path, v)], None, [layer], []))
      && Mounts(sub) == [PlainMount(path, v)] && LayersOf(sub) == [layer] && RouteLayersOf(sub) == []
  {
    hide PlainMount;
    var add, sub := [AddRoute(path, v)], LayeredRoute(path, v, layer);
    assert add[..0] == [] && sub[..1] == add;
    assert add[..|add| - 1] == [] && Build([]) == Some(EMPTY_ROUTER);
    assert EMPTY_ROUTER.routes + [Route(path, v)] == [Route(path, v)];
    assert [] + [layer] == [layer];
    assert Build(add) == Some(RouterView([Route(path, v)], None, [], []));
    assert Mounts([]) == [] && LayersOf([]) == [] && RouteLayersOf([]) == [];
    assert Mounts(add) == [PlainMount(path, v)] && LayersOf(add) == [] && RouteLayersOf(add) == [];
  }

  lemma OneLayer(s: Service, layer: LayerId)
    ensures ApplyLayers(s, [layer]) == Wrapped(layer, s) && ApplyLayers(s, []) == s
  {
    assert [layer][1..] == [];
    assert ApplyLayers(Wrapped(layer, s), [layer][1..]) == Wrapped(layer, s);
  }

  lemma NestAlone(prefix: string, sub: seq<Op>)
    ensures var ops := [NestAt(prefix, sub)];
      Mounts(ops) == Prefixed(prefix, OwnService(sub)) && LayersOf(ops) == [] && RouteLayersOf(ops) == []
  {
    var ops := [NestAt(prefix, sub)];
    assert ops[..0] == [];
    assert Mounts([]) == [] && LayersOf([]) == [] && RouteLayersOf([]) == [];
  }

  /** A nested route with one layer, asked for a method it has no handler for: built on its own the
      sub-router answers through its layer, flattened it does not. */
  lemma NestedLayerMisses405()
    ensures var ops := [NestAt("/api", LayeredRoute("/a", OnView(EMPTY_VIEW, GET, Raw(0)), 7))];
      && Build(ops).Some? && |Build(ops).value.routes| == 1 && |OwnService(ops)| == 1
      && Serve(Build(ops).value, Some(0), Post) == NotAllowed(GET)
      && OwnService(ops)[0].serve(Post) == Wrapped(7, NotAllowed(GET))
  {
    hide Build, Mounts, LayersOf, RouteLayersOf, FirstMatch, LayeredRoute, OnView, ApplyLayers;
    var v := OnView(EMPTY_VIEW, GET, Raw(0));
    var sub := LayeredRoute("/a", v, 7);
    var ops := [NestAt("/api", sub)];
    GetOnly(Raw(0));
    LayeredRouteParts("/a", v, 7);
    BuildNestAlone("/api", sub);
    NestAlone("/api", sub);
    FirstMatchIgnoresLayers(v, [7], Post, 0);
    OneLayer(NotAllowed(GET), 7);
    OneLayer(Wrapped(7, NotAllowed(GET)), 7);
    var other := RouterView([Route("/a", v)], None, [7], []);
    assert Build(ops).value.routes[0].methods == ExtendView(v, [7]);
    assert OwnService(sub)[0].serve(Post) == Wrapped(7, NotAllowed(GET));
    assert OwnService(ops)[0].serve(Post) == Around(ops, OwnService(sub)[0].serve(Post));
  }

  lemma ServeIsAround(r: RouterView, ops: seq<Op>, i: nat, m: Method)
    requires i < |r.routes| && r.layers == LayersOf(ops) && r.routeLayers == RouteLayersOf(ops)
    ensures Serve(r, Some(i), m) == Around(ops, Dispatch(r.routes[i].methods, m, UNIT))
  {
  }

  lemma AroundInjective(ops: seq<Op>, x: Service, y: Service)
    ensures Around(ops, x) == Around(ops, y) <==> x == y
  {
    ApplyLayersInjective(x, y, RouteLayersOf(ops));
    ApplyLayersInjective(ApplyLayers(x, RouteLayersOf(ops)), ApplyLayers(y, RouteLayersOf(ops)), LayersOf(ops));
  }

  lemma {:induction false} FirstMatchIgnoresLayers(v: View, extra: seq<LayerId>, m: Method, i: nat)
    requires i <= |v.handlers|
    ensures FirstMatch(ExtendView(v, extra), m, i) == FirstMatch(v, m, i)
    decreases |v.handlers| - i
  {
    if i < |v.handlers| {
      FirstMatchIgnoresLayers(v, extra, m, i + 1);
    }
  }

  function FirstHandler(v: View, m: Method): Handler
    requires FirstMatch(v, m, 0) < |v.handlers|
  {
    v.handlers[FirstMatch(v, m, 0)].handler
  }

  /** The order of a served request's layers, innermost first: those of its method router, then for
      each enclosing router, from the inside out, its route layers and its layers. */
  lemma StackOrder(ops: seq<Op>, i: nat, m: Method)
    requires Build(ops).Some?
    requires i < |Mounts(ops)| && FirstMatch(Mounts(ops)[i].methods, m, 0) < |Mounts(ops)[i].methods.handlers|
    ensures i < |Build(ops).value.routes|
    ensures Serve(Build(ops).value, Some(i), m)
         == ApplyLayers(Leaf(FirstHandler(Mounts(ops)[i].methods, m), UNIT),
                        Mounts(ops)[i].methods.layers + Mounts(ops)[i].through + RouteLayersOf(ops) + LayersOf(ops))
  {
    BuildFlattens(ops);
    var r, mount := Build(ops).value, Mounts(ops)[i];
    assert Flattens(r.routes[i], mount);
    ServeIsAround(r, ops, i, m);
    FirstMatchIgnoresLayers(mount.methods, mount.through, m, 0);
    var h := FirstHandler(mount.methods, m);
    var inner := mount.methods.layers + mount.through;
    AroundThrough(ops, Leaf(h, UNIT), inner);
    assert inner + (RouteLayersOf(ops) + LayersOf(ops)) == inner + RouteLayersOf(ops) + LayersOf(ops);
  }

  // ---------------------------------------------------------------- nesting twice

  lemma {:induction false} TrimEndConcat(a: string, b: string)
    requires a == "" || a[|a| - 1] != '/'
    ensures TrimEnd(a + TrimEnd(b)) == a + TrimEnd(b)
  {
    var t := a + TrimEnd(b);
    if TrimEnd(b) == "" {
      assert t == a;
    } else {
      assert t[|t| - 1] == TrimEnd(b)[|TrimEnd(b)| - 1];
    }
  }

  lemma BuildNestAlone(prefix: string, sub: seq<Op>)
    ensures Build([NestAt(prefix, sub)])
         == match Build(sub)
            case None => None
            case Some(r) => if r.fallback.Some? then None else Some(RouterView(Nested(prefix, r), None, [], []))
  {
    var ops := [NestAt(prefix, sub)];
    assert ops[..0] == [] && Build([]) == Some(EMPTY_ROUTER);
    assert forall rs: seq<Route> :: [] + rs == rs;
  }

  lemma NestedEntry(prefix: string, other: RouterView, i: nat)
    requires i < |other.routes|
    ensures Nested(prefix, other)[i]
         == Route(TrimEnd(prefix) + other.routes[i].pattern, ExtendView(other.routes[i].methods, SubLayers(other)))
  {
    hide TrimEnd;
    NestPathIsConcat(TrimEnd(prefix), other.routes[i].pattern);
  }

  lemma RouteThroughTwo(p: string, q: string, path: string, methods: View, subs: seq<LayerId>)
    ensures Route(p + (q + path), ExtendView(ExtendView(methods, subs), []))
         == Route(p + q + path, ExtendView(methods, subs))
  {
    ExtendTwice(methods, subs, []);
    assert subs + [] == subs;
    assert p + (q + path) == p + q + path;
  }

  lemma NestedTwiceAt(p: string, q: string, r: RouterView, mid: RouterView, i: nat)
    requires i < |r.routes|
    requires |mid.routes| == |r.routes| && mid.routes[i] == Nested(q, r)[i] && SubLayers(mid) == []
    ensures Nested(p, mid)[i] == Nested(TrimEnd(p) + TrimEnd(q), r)[i]
  {
    hide *;
    NestedEntry(q, r, i);
    NestedEntry(p, mid, i);
    NestedEntry(TrimEnd(p) + TrimEnd(q), r, i);
    TrimmedConcat(p, q);
    RouteThroughTwo(TrimEnd(p), TrimEnd(q), r.routes[i].pattern, r.routes[i].methods, SubLayers(r));
  }

  lemma TrimmedConcat(p: string, q: string)
    ensures TrimEnd(TrimEnd(p) + TrimEnd(q)) == TrimEnd(p) + TrimEnd(q)
  {
    TrimEndConcat(TrimEnd(p), q);
  }

  lemma NestedTwice(p: string, q: string, r: RouterView)
    ensures Nested(p, RouterView(Nested(q, r), None, [], [])) == Nested(TrimEnd(p) + TrimEnd(q), r)
  {
    var mid := RouterView(Nested(q, r), None, [], []);
    assert |mid.routes| == |r.routes| && SubLayers(mid) == [];
    forall i | 0 <= i < |r.routes|
      ensures Nested(p, mid)[i] == Nested(TrimEnd(p) + TrimEnd(q), r)[i]
    {
      hide Nested;
      NestedTwiceAt(p, q, r, mid, i);
    }
    var a, b := Nested(p, mid), Nested(TrimEnd(p) + TrimEnd(q), r);
    assert |a| == |b| == |r.routes|;
    assert a == b;
  }

  /** Nesting at p a router that nests another at q gives the router that nests it at trimmed p
      followed by trimmed q: the same patterns, the same stacks, the same panic. */
  lemma NestingComposes(p: string, q: string, ops: seq<Op>)
    ensures Build([NestAt(p, [NestAt(q, ops)])]) == Build([NestAt(TrimEnd(p) + TrimEnd(q), ops)])
  {
    hide *;
    BuildNestAlone(q, ops);
    BuildNestAlone(p, [NestAt(q, ops)]);
    BuildNestAlone(TrimEnd(p) + TrimEnd(q), ops);
    if Build(ops).Some? {
      NestedTwice(p, q, Build(ops).value);
    }
  }
}
