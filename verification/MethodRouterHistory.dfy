/** Whole histories of method routers (arvik-router/src/method_router.rs): any number of routers, made
    and cloned, changed and called in any order. */
module MethodRouterHistory {
  import opened MethodFilter
  import opened MethodRouter

  /** One call on the routers made so far, which are numbered in the order of their making. */
  datatype Event =
    | Make
    | On(i: nat, filter: Filter, handler: Handler)
    | Layer(i: nat, layer: LayerId)
    | Extend(i: nat, extra: seq<LayerId>)
    | Merge(i: nat, j: nat)
    | WithState(i: nat, state: AppState)
    | Clone(i: nat)
    | Call(i: nat, verb: Method, state: AppState)

  /** The reference: routers are plain values, nothing is shared and nothing is cached. A merge that
      would panic, a router that does not exist and a router merged into itself change nothing. */
  function Apply(views: seq<View>, e: Event): seq<View> {
    match e
    case Make => views + [EMPTY_VIEW]
    case On(i, filter, handler) => if i < |views| then views[i := OnView(views[i], filter, handler)] else views
    case Layer(i, layer) => if i < |views| then views[i := ExtendView(views[i], [layer])] else views
    case Extend(i, extra) => if i < |views| then views[i := ExtendView(views[i], extra)] else views
    case Merge(i, j) =>
      if i < |views| && j < |views| && i != j && MergeView(views[i], views[j]).Some?
      then views[i := MergeView(views[i], views[j]).value] else views
    case WithState(i, state) => if i < |views| then views[i := WithStateView(views[i], state)] else views
    case Clone(i) => if i < |views| then views + [views[i].(bakeable := false)] else views
    case Call(_, _, _) => views
  }

  /** Once a state is bound, calls carry no other. */
  function CallState(v: View, state: AppState): AppState { if v.bakeable then UNIT else state }

  function Answer(views: seq<View>, e: Event): seq<Service> {
    if e.Call? && e.i < |views| then [Dispatch(views[e.i], e.verb, CallState(views[e.i], e.state))] else []
  }

  function ViewsAfter(history: seq<Event>): seq<View> {
    if history == [] then [] else Apply(ViewsAfter(history[..|history| - 1]), history[|history| - 1])
  }

  function Answers(history: seq<Event>): seq<Service> {
    if history == [] then []
    else
      var before := history[..|history| - 1];
      Answers(before) + Answer(ViewsAfter(before), history[|history| - 1])
  }

  /** Routers that hold `views` and nothing outside `repr`. */
  ghost predicate Pool(routers: seq<MethodRouter>, views: seq<View>, repr: set<object>)
    reads repr
  {
    && |routers| == |views|
    && (forall i, j :: 0 <= i < j < |routers| ==> routers[i] != routers[j])
    && (forall i :: 0 <= i < |routers| ==>
          routers[i] in repr && routers[i].handlers in repr && routers[i].layers in repr
          && routers[i].Valid() && routers[i].AsView() == views[i])
  }

  /** A call that adds to router `e.i` and changes no other. */
  method Add(routers: seq<MethodRouter>, ghost views: seq<View>, ghost repr: set<object>, e: Event)
    returns (ghost grown: set<object>)
    requires Pool(routers, views, repr)
    requires e.On? || e.Layer? || e.Extend?
    requires e.i < |routers|
    modifies repr
    ensures Pool(routers, Apply(views, e), grown)
    ensures fresh(grown - repr)
  {
    hide Union, Baked, OnView, ExtendView, MergeView, WithStateView;
    var r := routers[e.i];
    match e {
      case On(_, filter, handler) => r.On(filter, handler);
      case Layer(_, layer) => r.Layer(layer);
      case Extend(_, extra) => r.ExtendLayers(extra);
    }
    grown := repr + {r.handlers, r.layers};
  }

  /** A call that merges into router `e.i` or binds it, and changes no other. */
  method Combine(routers: seq<MethodRouter>, ghost views: seq<View>, ghost repr: set<object>, e: Event)
    returns (ghost grown: set<object>)
    requires Pool(routers, views, repr)
    requires e.Merge? || e.WithState?
    requires e.i < |routers| && (e.Merge? ==> e.j < |routers| && e.i != e.j)
    modifies repr
    ensures Pool(routers, Apply(views, e), grown)
    ensures fresh(grown - repr)
  {
    hide Union, Baked, OnView, ExtendView, MergeView, WithStateView;
    var r := routers[e.i];
    match e {
      case Merge(_, j) => var ok := r.Merge(routers[j]);
      case WithState(_, state) => r.WithState(state);
    }
    grown := repr + {r.handlers, r.layers};
  }

  /** A call that makes a router, or answers. */
  method AskOrMake(routers: seq<MethodRouter>, ghost views: seq<View>, ghost repr: set<object>, e: Event)
    returns (after: seq<MethodRouter>, answer: seq<Service>, ghost grown: set<object>)
    requires Pool(routers, views, repr)
    requires e.Make? || ((e.Clone? || e.Call?) && e.i < |routers|)
    modifies repr
    ensures Pool(after, Apply(views, e), grown)
    ensures answer == Answer(views, e)
    ensures fresh(grown - repr)
  {
    hide Union, Baked, Dispatch;
    after, answer, grown := routers, [], repr;
    match e {
      case Make =>
        var r := new MethodRouter();
        after, grown := routers + [r], repr + {r, r.handlers, r.layers};
      case Clone(i) =>
        var r := routers[i].Clone();
        after, grown := routers + [r], repr + {r};
      case Call(i, m, state) =>
        var service := routers[i].Call(m, if routers[i].bakeable then UNIT else state);
        answer := [service];
    }
  }

  /** What cannot be done, for want of a router, is not done. */
  lemma NothingToDo(views: seq<View>, e: Event)
    requires !e.Make? && (e.i >= |views| || (e.Merge? && (e.j >= |views| || e.i == e.j)))
    ensures Apply(views, e) == views && Answer(views, e) == []
  {
  }

  lemma ChangesAreSilent(views: seq<View>, e: Event)
    requires !e.Call?
    ensures Answer(views, e) == []
  {
  }

  lemma PoolSize(routers: seq<MethodRouter>, views: seq<View>, repr: set<object>)
    requires Pool(routers, views, repr)
    ensures |routers| == |views|
  {
  }

  method Execute(routers: seq<MethodRouter>, ghost views: seq<View>, ghost repr: set<object>, e: Event)
    returns (after: seq<MethodRouter>, answer: seq<Service>, ghost grown: set<object>)
    requires Pool(routers, views, repr)
    modifies repr
    ensures Pool(after, Apply(views, e), grown)
    ensures answer == Answer(views, e)
    ensures fresh(grown - repr)
  {
    hide *;
    PoolSize(routers, views, repr);
    after, answer, grown := routers, [], repr;
    if !e.Make? && (e.i >= |routers| || (e.Merge? && (e.j >= |routers| || e.i == e.j))) {
      NothingToDo(views, e);
    } else if e.Make? || e.Clone? || e.Call? {
      after, answer, grown := AskOrMake(routers, views, repr, e);
    } else {
      ChangesAreSilent(views, e);
      if e.Merge? || e.WithState? {
        grown := Combine(routers, views, repr, e);
      } else {
        grown := Add(routers, views, repr, e);
      }
    }
  }

  /** Shared lists, copies on write and baked stacks are invisible: over any history every call is
      answered as if each router were a value of its own and each stack were folded afresh. */
  method Replay(history: seq<Event>) returns (answers: seq<Service>)
    ensures answers == Answers(history)
  {
    answers := [];
    var routers: seq<MethodRouter> := [];
    ghost var repr: set<object> := {};
    assert history[..0] == [] && history[..|history|] == history;
    for n := 0 to |history|
      invariant fresh(repr)
      invariant Pool(routers, ViewsAfter(history[..n]), repr)
      invariant answers == Answers(history[..n])
    {
      assert history[..n + 1][..n] == history[..n];
      var answer;
      routers, answer, repr := Execute(routers, ViewsAfter(history[..n]), repr, history[n]);
      answers := answers + answer;
    }
  }
}
