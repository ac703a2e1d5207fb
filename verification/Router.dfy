/** Composition of routers (arvik-router/src/router.rs).

    The route table holds method routers as values (`MethodRouter.View`); matching a path is left to
    the trie, which is a function from paths to indices of the table and is not modelled. */
module Router {
  import opened Wrappers
  import opened MethodFilter
  import opened MethodRouter

  datatype Route = Route(pattern: string, methods: View)

  datatype RouterView = RouterView(
    routes: seq<Route>, fallback: Option<Handler>, layers: seq<LayerId>, routeLayers: seq<LayerId>)

  const EMPTY_ROUTER := RouterView([], None, [], [])

  /** `trim_end_matches('/')` */
  function TrimEnd(s: string): (r: string)
    ensures r <= s && (r != "" ==> r[|r| - 1] != '/')
    ensures forall i :: |r| <= i < |s| ==> s[i] == '/'
  {
    if s != "" && s[|s| - 1] == '/' then TrimEnd(s[..|s| - 1]) else s
  }

  /** `prefix` is trimmed already. */
  function NestPath(prefix: string, path: string): string {
    if path == "/" then prefix + "/" else prefix + path
  }

  function SubLayers(other: RouterView): seq<LayerId> { other.routeLayers + other.layers }

  function Nested(prefix: string, other: RouterView): seq<Route> {
    seq(|other.routes|, i requires 0 <= i < |other.routes| =>
      Route(NestPath(TrimEnd(prefix), other.routes[i].pattern), ExtendView(other.routes[i].methods, SubLayers(other))))
  }

  /** `None` is the panic on a sub-router with a fallback. */
  function NestView(r: RouterView, prefix: string, other: RouterView): Option<RouterView> {
    if other.fallback.Some? then None else Some(r.(routes := r.routes + Nested(prefix, other)))
  }

  function Merged(other: RouterView): seq<Route> {
    seq(|other.routes|, i requires 0 <= i < |other.routes| =>
      Route(other.routes[i].pattern, ExtendView(other.routes[i].methods, SubLayers(other))))
  }

  function MergeRouters(r: RouterView, other: RouterView): RouterView {
    r.(routes := r.routes + Merged(other), fallback := if r.fallback.None? then other.fallback else r.fallback)
  }

  /** Index of the first pattern equal to `path`, or how many there are. */
  function FirstAt(patterns: seq<string>, path: string): (i: nat)
    ensures i <= |patterns| && (i < |patterns| ==> patterns[i] == path)
    ensures forall j :: 0 <= j < i ==> patterns[j] != path
  {
    if patterns == [] || patterns[0] == path then 0 else 1 + FirstAt(patterns[1..], path)
  }

  function Patterns(routes: seq<Route>): (ps: seq<string>)
    ensures |ps| == |routes|
  {
    seq(|routes|, i requires 0 <= i < |routes| => routes[i].pattern)
  }

  function Find(routes: seq<Route>, path: string): (i: nat)
    ensures i <= |routes| && (i < |routes| ==> routes[i].pattern == path)
    ensures forall j :: 0 <= j < i ==> routes[j].pattern != path
  {
    assert forall j :: 0 <= j < |routes| ==> Patterns(routes)[j] == routes[j].pattern;
    FirstAt(Patterns(routes), path)
  }

  /** `route_collected`; `None` is the duplicate-method panic. */
  function CollectView(r: RouterView, path: string, methods: View): Option<RouterView> {
    var i := Find(r.routes, path);
    if i == |r.routes| then Some(r.(routes := r.routes + [Route(path, methods)]))
    else
      match MergeView(r.routes[i].methods, methods)
      case None => None
      case Some(v) => Some(r.(routes := r.routes[i := Route(path, v)]))
  }

  function BindRoutes(routes: seq<Route>, state: AppState): seq<Route> {
    seq(|routes|, i requires 0 <= i < |routes| =>
      Route(routes[i].pattern, WithStateView(routes[i].methods, state)))
  }

  /** `with_state` on the whole router. */
  function BindRouter(r: RouterView, state: AppState): RouterView {
    r.(routes := BindRoutes(r.routes, state),
       fallback := if r.fallback.Some? then Some(Bound(r.fallback.value, state)) else None)
  }

  class Router {
    var routes: seq<Route>
    var fallback: Option<Handler>
    var layers: seq<LayerId>
    var routeLayers: seq<LayerId>

    function AsView(): RouterView
      reads this
    {
      RouterView(routes, fallback, layers, routeLayers)
    }

    constructor ()
      ensures AsView() == EMPTY_ROUTER
    {
      routes, fallback, layers, routeLayers := [], None, [], [];
    }

    method AddRoute(path: string, methods: View)
      modifies this`routes
      ensures routes == old(routes) + [Route(path, methods)]
    {
      routes := routes + [Route(path, methods)];
    }

    method RouteCollected(path: string, methods: View) returns (ok: bool)
      modifies this`routes
      ensures ok <==> CollectView(old(AsView()), path, methods).Some?
      ensures AsView() == if ok then CollectView(old(AsView()), path, methods).value else old(AsView())
      ensures ok <==> var i := Find(old(routes), path);
        i == |old(routes)| || old(routes)[i].methods.allow.bits !! methods.allow.bits
    {
      hide Overlaps;
      var i := Find(routes, path);
      if i < |routes| {
        OverlapIsSharedBit(routes[i].methods.allow, methods.allow);
        var merged := MergeView(routes[i].methods, methods);
        match merged {
          case None => return false;
          case Some(v) =>
            routes := routes[i := routes[i].(methods := v)];
            return true;
        }
      }
      AddRoute(path, methods);
      return true;
    }

    method Nest(prefix: string, other: Router) returns (ok: bool)
      requires other != this
      modifies this`routes
      ensures ok <==> NestView(old(AsView()), prefix, other.AsView()).Some?
      ensures AsView() == if ok then NestView(old(AsView()), prefix, other.AsView()).value else old(AsView())
      ensures ok <==> other.fallback.None?
    {
      var trimmed := TrimEnd(prefix);
      if other.fallback.Some? {
        return false;
      }
      var subLayers := other.routeLayers;
      subLayers := subLayers + other.layers;
      for i := 0 to |other.routes|
        invariant routes == old(routes) + Nested(prefix, other.AsView())[..i]
      {
        var entry := other.routes[i];
        var full := if entry.pattern == "/" then trimmed + "/" else trimmed + entry.pattern;
        routes := routes + [Route(full, ExtendView(entry.methods, subLayers))];
      }
      return true;
    }

    method Merge(other: Router)
      requires other != this
      modifies this`routes, this`fallback
      ensures AsView() == MergeRouters(old(AsView()), other.AsView())
    {
      var subLayers := other.routeLayers;
      subLayers := subLayers + other.layers;
      for i := 0 to |other.routes|
        invariant routes == old(routes) + Merged(other.AsView())[..i]
        invariant fallback == old(fallback)
      {
        var entry := other.routes[i];
        routes := routes + [entry.(methods := ExtendView(entry.methods, subLayers))];
      }
      if fallback.None? {
        fallback := other.fallback;
      }
    }

    method Layer(layer: LayerId)
      modifies this`layers
      ensures layers == old(layers) + [layer]
    {
      layers := layers + [layer];
    }

    method RouteLayer(layer: LayerId)
      modifies this`routeLayers
      ensures routeLayers == old(routeLayers) + [layer]
    {
      routeLayers := routeLayers + [layer];
    }

    method SetFallback(h: Handler)
      modifies this`fallback
      ensures fallback == Some(h)
    {
      fallback := Some(h);
    }

    method WithState(state: AppState)
      modifies this
      ensures AsView() == BindRouter(old(AsView()), state)
    {
      routes := BindRoutes(routes, state);
      fallback := if fallback.Some? then Some(Bound(fallback.value, state)) else None;
    }
  }

  // ---------------------------------------------------------------- the built service

  /** `layered_routes[idx]`, or the method router itself when there are no route layers. */
  function ServeRoute(r: RouterView, i: nat, m: Method, state: AppState): Service
    requires i < |r.routes|
  {
    var inner := Dispatch(r.routes[i].methods, m, state);
    if r.routeLayers == [] then inner else ApplyLayers(inner, r.routeLayers)
  }

  /** The way of a request whose path the trie maps to `matched`, through all of the router, with
      handlers called on `state`. */
  function ServeWith(r: RouterView, matched: Option<nat>, m: Method, state: AppState): Service
    requires matched.Some? ==> matched.value < |r.routes|
  {
    var inner :=
      match matched
      case Some(i) => ServeRoute(r, i, m, state)
      case None => if r.fallback.Some? then Fallback(r.fallback.value, state) else NotFound;
    ApplyLayers(inner, r.layers)
  }

  /** The service of `into_service`, which a router with the unit state has. */
  function Serve(r: RouterView, matched: Option<nat>, m: Method): Service
    requires matched.Some? ==> matched.value < |r.routes|
  {
    ServeWith(r, matched, m, UNIT)
  }

  /** A path that no route of the merged router matches: the fallback in place keeps it, the other
      router's serves it where there was none, and it goes through the layers of the first router only. */
  lemma UnmatchedAfterMerge(r: RouterView, other: RouterView, m: Method)
    ensures var merged := MergeRouters(r, other);
      Serve(merged, None, m)
      == match (r.fallback, other.fallback)
         case (Some(h), _) => ApplyLayers(Fallback(h, UNIT), r.layers)
         case (None, Some(h)) => ApplyLayers(Fallback(h, UNIT), r.layers)
         case (None, None) => ApplyLayers(NotFound, r.layers)
  {
  }

  /** Merged and nested routes come behind those in place, which stay as they were, one for each of the
      sub-router and in its order. */
  lemma RoutesBehind(r: RouterView, prefix: string, other: RouterView, i: nat)
    requires i < |r.routes| + |other.routes|
    ensures var routes := MergeRouters(r, other).routes;
      && |routes| == |r.routes| + |other.routes|
      && (i < |r.routes| ==> routes[i] == r.routes[i])
      && (i >= |r.routes| ==> routes[i].pattern == other.routes[i - |r.routes|].pattern)
    ensures NestView(r, prefix, other).Some? ==>
      var routes := NestView(r, prefix, other).value.routes;
      && |routes| == |r.routes| + |other.routes|
      && (i < |r.routes| ==> routes[i] == r.routes[i])
      && (i >= |r.routes| ==> routes[i].pattern == TrimEnd(prefix) + other.routes[i - |r.routes|].pattern)
  {
  }

  /** Binding a router binds whatever handler a request reaches, the fallback too, and leaves every
      layer and every fixed reply on its way as it is. */
  lemma BindingBindsHandlers(r: RouterView, state: AppState, matched: Option<nat>, m: Method)
    requires matched.Some? ==> matched.value < |r.routes|
    ensures Serve(BindRouter(r, state), matched, m) == BindService(Serve(r, matched, m), state)
  {
    match matched
    case Some(i) =>
      DispatchBound(r.routes[i].methods, state, m, UNIT);
      var inner := Dispatch(r.routes[i].methods, m, UNIT);
      BindThroughLayers(inner, r.routeLayers, state);
      BindThroughLayers(ServeRoute(r, i, m, UNIT), r.layers, state);
    case None =>
      BindThroughLayers(if r.fallback.Some? then Fallback(r.fallback.value, UNIT) else NotFound, r.layers, state);
  }

  /** The service of a bound router takes each request the way the unbound one would with `state` at
      hand. */
  lemma BoundRouterSuppliesState(r: RouterView, state: AppState, matched: Option<nat>, m: Method)
    requires matched.Some? ==> matched.value < |r.routes|
    ensures Reached(Serve(BindRouter(r, state), matched, m)) == Reached(ServeWith(r, matched, m, state))
  {
    var b := BindRouter(r, state);
    match matched
    case Some(i) =>
      BindingSuppliesState(r.routes[i].methods, state, m);
      ReachedThroughLayers(Dispatch(r.routes[i].methods, m, state), r.routeLayers);
      ReachedThroughLayers(Dispatch(b.routes[i].methods, m, UNIT), r.routeLayers);
      ReachedThroughLayers(ServeRoute(r, i, m, state), r.layers);
      ReachedThroughLayers(ServeRoute(b, i, m, UNIT), r.layers);
    case None =>
      ReachedThroughLayers(if r.fallback.Some? then Fallback(r.fallback.value, state) else NotFound, r.layers);
      ReachedThroughLayers(if b.fallback.Some? then Fallback(b.fallback.value, UNIT) else NotFound, r.layers);
  }

  /** Route layers are documented not to run on 405 replies. They do: where no handler matches, the
      reply goes out without them if and only if there are none. */
  lemma RouteLayersSpare405Iff(r: RouterView, i: nat, m: Method)
    requires i < |r.routes|
    requires FirstMatch(r.routes[i].methods, m, 0) == |r.routes[i].methods.handlers|
    ensures ServeRoute(r, i, m, UNIT) == NotAllowed(r.routes[i].methods.allow) <==> r.routeLayers == []
    ensures Serve(r, Some(i), m) == ApplyLayers(NotAllowed(r.routes[i].methods.allow), r.layers)
       <==> r.routeLayers == []
  {
    var reply := NotAllowed(r.routes[i].methods.allow);
    ApplyLayersDepth(reply, r.routeLayers);
    ApplyLayersInjective(ServeRoute(r, i, m, UNIT), reply, r.layers);
  }

  /** One route with a GET handler, one route layer, and a POST request. */
  lemma RouteLayerRunsOn405()
    ensures var r := RouterView([Route("/a", OnView(EMPTY_VIEW, GET, Raw(0)))], None, [], [7]);
      Serve(r, Some(0), Post) == Wrapped(7, NotAllowed(GET))
  {
    var v := OnView(EMPTY_VIEW, GET, Raw(0));
    var r := RouterView([Route("/a", v)], None, [], [7]);
    GetOnly(Raw(0));
    assert ServeRoute(r, 0, Post, UNIT) == ApplyLayers(NotAllowed(GET), [7]);
    assert [7][1..] == [];
    assert ApplyLayers(Wrapped(7, NotAllowed(GET)), [7][1..]) == Wrapped(7, NotAllowed(GET));
  }

  /** A method router with one GET handler answers POST by a 405 that allows GET. */
  lemma GetOnly(h: Handler)
    ensures var v := OnView(EMPTY_VIEW, GET, h);
      |v.handlers| == 1 && v.allow == GET && FirstMatch(v, Post, 0) == 1
  {
    var v := OnView(EMPTY_VIEW, GET, h);
    OrIsMonoid(GET, NONE, NONE);
    MethodsAreApart(Get, Post);
    assert v.handlers == [Entry(GET, h)] && !Matches(v.handlers[0], v.allow, Post);
  }

  // ---------------------------------------------------------------- programs of builder calls

  /** The builder calls that make a router; sub-routers are programs of their own. */
  datatype Op =
    | AddRoute(path: string, methods: View)
    | Collect(path: string, methods: View)
    | AddLayer(layer: LayerId)
    | AddRouteLayer(layer: LayerId)
    | SetFallback(handler: Handler)
    | NestAt(prefix: string, sub: seq<Op>)
    | MergeWith(sub: seq<Op>)
    | BindState(state: AppState)

  function Build(ops: seq<Op>): Option<RouterView>
    decreases ops
  {
    if ops == [] then Some(EMPTY_ROUTER)
    else
      match Build(ops[..|ops| - 1])
      case None => None
      case Some(r) =>
        match ops[|ops| - 1]
        case AddRoute(path, methods) => Some(r.(routes := r.routes + [Route(path, methods)]))
        case Collect(path, methods) => CollectView(r, path, methods)
        case AddLayer(layer) => Some(r.(layers := r.layers + [layer]))
        case AddRouteLayer(layer) => Some(r.(routeLayers := r.routeLayers + [layer]))
        case SetFallback(h) => Some(r.(fallback := Some(h)))
        case NestAt(prefix, sub) =>
          (match Build(sub) case None => None case Some(other) => NestView(r, prefix, other))
        case MergeWith(sub) =>
          (match Build(sub) case None => None case Some(other) => Some(MergeRouters(r, other)))
        case BindState(state) => Some(BindRouter(r, state))
  }

  /** The class runs such a program to exactly the router `Build` describes. */
  method Assemble(ops: seq<Op>) returns (ok: bool, r: Router)
    ensures fresh(r)
    ensures ok <==> Build(ops).Some?
    ensures ok ==> r.AsView() == Build(ops).value
    decreases ops
  {
    hide Nested, Merged, BindRoutes, MergeView, Find, TrimEnd;
    r := new Router();
    assert ops[..0] == [];
    for i := 0 to |ops|
      invariant fresh(r)
      invariant Build(ops[..i]) == Some(r.AsView())
    {
      assert ops[..i + 1][..i] == ops[..i];
      var op := ops[i];
      ok := true;
      match op {
        case AddRoute(path, methods) => r.AddRoute(path, methods);
        case Collect(path, methods) => ok := r.RouteCollected(path, methods);
        case AddLayer(layer) => r.Layer(layer);
        case AddRouteLayer(layer) => r.RouteLayer(layer);
        case SetFallback(h) => r.SetFallback(h);
        case NestAt(prefix, sub) =>
          var other;
          ok, other := Assemble(sub);
          if ok {
            ok := r.Nest(prefix, other);
          }
        case MergeWith(sub) =>
          var other;
          ok, other := Assemble(sub);
          if ok {
            r.Merge(other);
          }
        case BindState(state) => r.WithState(state);
      }
      if !ok {
        assert Build(ops[..i + 1]).None?;
        PrefixFails(ops, i + 1);
        return;
      }
    }
    ok := true;
    assert ops[..|ops|] == ops;
  }

  lemma {:induction false} PrefixFails(ops: seq<Op>, i: nat)
    requires i <= |ops| && Build(ops[..i]).None?
    ensures Build(ops).None?
    decreases |ops| - i
  {
    if i == |ops| {
      assert ops[..i] == ops;
    } else {
      assert ops[..i + 1][..i] == ops[..i];
      PrefixFails(ops, i + 1);
    }
  }
}
