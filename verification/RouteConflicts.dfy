/** The compile-time conflict check of collected routes (arvik-router/src/router.rs). */
module RouteConflicts {
  import opened Wrappers
  import opened MethodFilter
  import opened MethodRouter
  import opened Router

  datatype RouteMeta = RouteMeta(path: string, mask: Filter)

  ghost predicate Conflict(a: RouteMeta, b: RouteMeta) { a.path == b.path && Overlaps(a.mask, b.mask) }

  ghost predicate NoConflict(metas: seq<RouteMeta>) {
    forall i, j :: 0 <= i < j < |metas| ==> !Conflict(metas[i], metas[j])
  }

  /** The two routes would both serve some method of one path. */
  ghost predicate ServeBoth(a: RouteMeta, b: RouteMeta) {
    a.path == b.path && exists m :: Contains(a.mask, FromMethod(m)) && Contains(b.mask, FromMethod(m))
  }

  ghost predicate AllOfMethods(metas: seq<RouteMeta>) {
    forall i :: 0 <= i < |metas| ==> OfMethods(metas[i].mask)
  }

  lemma ConflictIsServeBoth(metas: seq<RouteMeta>)
    ensures NoConflict(metas) <==> forall i, j :: 0 <= i < j < |metas| && metas[i].path == metas[j].path ==>
      metas[i].mask.bits !! metas[j].mask.bits
    ensures AllOfMethods(metas) ==>
      (NoConflict(metas) <==> forall i, j :: 0 <= i < j < |metas| ==> !ServeBoth(metas[i], metas[j]))
  {
    forall i, j | 0 <= i < j < |metas|
      ensures Conflict(metas[i], metas[j])
         <==> metas[i].path == metas[j].path && !(metas[i].mask.bits !! metas[j].mask.bits)
    {
      OverlapIsSharedBit(metas[i].mask, metas[j].mask);
    }
    if AllOfMethods(metas) {
      hide Overlaps, Contains, FromMethod, OfMethods;
      forall i, j | 0 <= i < j < |metas|
        ensures Conflict(metas[i], metas[j]) <==> ServeBoth(metas[i], metas[j])
      {
        OverlapIsSharedMethod(metas[i].mask, metas[j].mask);
      }
    }
  }

  method StrEq(left: string, right: string) returns (eq: bool)
    ensures eq <==> left == right
  {
    if |left| != |right| {
      return false;
    }
    var i := 0;
    while i < |left|
      invariant i <= |left|
      invariant left[..i] == right[..i]
    {
      if left[i] != right[i] {
        return false;
      }
      i := i + 1;
    }
    assert left == left[..i] && right == right[..i];
    return true;
  }

  method RouteConflictCount(metas: seq<RouteMeta>) returns (n: nat)
    ensures n <= 1
    ensures n == 0 <==> NoConflict(metas)
    ensures n == 0 <==> forall i, j :: 0 <= i < j < |metas| && metas[i].path == metas[j].path ==>
      metas[i].mask.bits !! metas[j].mask.bits
    ensures AllOfMethods(metas) ==> (n == 0 <==> forall i, j :: 0 <= i < j < |metas| ==> !ServeBoth(metas[i], metas[j]))
  {
    hide Overlaps, ServeBoth, AllOfMethods;
    ConflictIsServeBoth(metas);
    var i := 0;
    while i < |metas|
      invariant i <= |metas|
      invariant forall a, b :: 0 <= a < i && a < b < |metas| ==> !Conflict(metas[a], metas[b])
    {
      var j := i + 1;
      while j < |metas|
        invariant i < j <= |metas|
        invariant forall b :: i < b < j ==> !Conflict(metas[i], metas[b])
      {
        var same := StrEq(metas[i].path, metas[j].path);
        if same && Overlaps(metas[i].mask, metas[j].mask) {
          assert Conflict(metas[i], metas[j]);
          return 1;
        }
        j := j + 1;
      }
      i := i + 1;
    }
    return 0;
  }

  /** A collected route: its path and the method router it registers. */
  type Collected = (string, View)

  function Meta(c: Collected): RouteMeta { RouteMeta(c.0, c.1.allow) }

  function Metas(cs: seq<Collected>): (ms: seq<RouteMeta>)
    ensures |ms| == |cs|
  {
    seq(|cs|, i requires 0 <= i < |cs| => Meta(cs[i]))
  }

  /** Registering in order; `None` once the duplicate-method panic is reached. */
  function CollectAll(r: RouterView, cs: seq<Collected>): Option<RouterView> {
    if cs == [] then Some(r)
    else
      match CollectAll(r, cs[..|cs| - 1])
      case None => None
      case Some(r') => CollectView(r', cs[|cs| - 1].0, cs[|cs| - 1].1)
  }

  ghost predicate Holds(routes: seq<Route>, path: string, mask: Filter) {
    exists k :: 0 <= k < |routes| && routes[k].pattern == path && Overlaps(routes[k].methods.allow, mask)
  }

  ghost predicate Seen(cs: seq<Collected>, path: string, mask: Filter) {
    exists i :: 0 <= i < |cs| && cs[i].0 == path && Overlaps(cs[i].1.allow, mask)
  }

  ghost predicate DistinctPatterns(routes: seq<Route>) {
    forall i, j :: 0 <= i < j < |routes| ==> routes[i].pattern != routes[j].pattern
  }

  /** A table collected so far overlaps with exactly what the routes put into it overlap with. */
  ghost predicate Represents(routes: seq<Route>, cs: seq<Collected>) {
    && DistinctPatterns(routes)
    && forall path, mask :: Holds(routes, path, mask) <==> Seen(cs, path, mask)
  }

  lemma SeenSnoc(cs: seq<Collected>, c: Collected, path: string, mask: Filter)
    ensures Seen(cs + [c], path, mask) <==> Seen(cs, path, mask) || (c.0 == path && Overlaps(c.1.allow, mask))
  {
    var all := cs + [c];
    if Seen(cs, path, mask) {
      var i :| 0 <= i < |cs| && cs[i].0 == path && Overlaps(cs[i].1.allow, mask);
      assert all[i] == cs[i];
    }
    if c.0 == path && Overlaps(c.1.allow, mask) { assert all[|cs|] == c; }
  }

  lemma HoldsAfter(r: RouterView, c: Collected, path: string, mask: Filter)
    requires DistinctPatterns(r.routes)
    requires CollectView(r, c.0, c.1).Some?
    ensures Holds(CollectView(r, c.0, c.1).value.routes, path, mask)
       <==> Holds(r.routes, path, mask) || (c.0 == path && Overlaps(c.1.allow, mask))
  {
    hide Overlaps;
    var r' := CollectView(r, c.0, c.1).value.routes;
    var n := Find(r.routes, c.0);
    if n < |r.routes| {
      UnionOverlaps(r.routes[n].methods.allow, c.1.allow, mask);
    }
    forall k | 0 <= k < |r.routes| && k != n
      ensures r'[k] == r.routes[k]
    {
    }
    if Holds(r.routes, path, mask) {
      var k :| 0 <= k < |r.routes| && r.routes[k].pattern == path && Overlaps(r.routes[k].methods.allow, mask);
      assert r'[k].pattern == path && Overlaps(r'[k].methods.allow, mask);
    }
    if c.0 == path && Overlaps(c.1.allow, mask) {
      assert r'[n].pattern == path && Overlaps(r'[n].methods.allow, mask);
    }
  }

  lemma CollectStep(r: RouterView, cs: seq<Collected>, c: Collected)
    requires Represents(r.routes, cs)
    ensures CollectView(r, c.0, c.1).None? <==> Seen(cs, c.0, c.1.allow)
    ensures CollectView(r, c.0, c.1).Some? ==> Represents(CollectView(r, c.0, c.1).value.routes, cs + [c])
  {
    hide Overlaps;
    var n := Find(r.routes, c.0);
    assert Holds(r.routes, c.0, c.1.allow) <==> n < |r.routes| && Overlaps(r.routes[n].methods.allow, c.1.allow) by {
      if Holds(r.routes, c.0, c.1.allow) {
        var k :| 0 <= k < |r.routes| && r.routes[k].pattern == c.0 && Overlaps(r.routes[k].methods.allow, c.1.allow);
        assert k == n;
      }
    }
    if CollectView(r, c.0, c.1).Some? {
      hide Overlaps, Holds, Seen;
      forall path, mask
        ensures Holds(CollectView(r, c.0, c.1).value.routes, path, mask) <==> Seen(cs + [c], path, mask)
      {
        HoldsAfter(r, c, path, mask);
        SeenSnoc(cs, c, path, mask);
      }
    }
  }

  lemma NoConflictSnoc(cs: seq<Collected>, c: Collected)
    ensures NoConflict(Metas(cs + [c])) <==> NoConflict(Metas(cs)) && !Seen(cs, c.0, c.1.allow)
  {
    hide Overlaps;
    var ms, all := Metas(cs), Metas(cs + [c]);
    var n := |cs|;
    assert all[n] == Meta(c) && forall i :: 0 <= i < n ==> all[i] == ms[i] == Meta(cs[i]);
    if NoConflict(all) {
      forall i, j | 0 <= i < j < n ensures !Conflict(ms[i], ms[j]) {
        assert !Conflict(all[i], all[j]);
      }
      forall i | 0 <= i < n ensures !(cs[i].0 == c.0 && Overlaps(cs[i].1.allow, c.1.allow)) {
        assert !Conflict(all[i], all[n]);
      }
    } else if NoConflict(ms) {
      assert forall a, b :: 0 <= a < b < n ==> !Conflict(all[a], all[b]);
      var i, j :| 0 <= i < j < |all| && Conflict(all[i], all[j]);
      assert j == n;
      assert cs[i].0 == c.0 && Overlaps(cs[i].1.allow, c.1.allow);
    }
  }

  lemma {:induction false} CollectRepresents(cs: seq<Collected>)
    ensures CollectAll(EMPTY_ROUTER, cs).Some? <==> NoConflict(Metas(cs))
    ensures CollectAll(EMPTY_ROUTER, cs).Some? ==> Represents(CollectAll(EMPTY_ROUTER, cs).value.routes, cs)
  {
    if cs != [] {
      var n := |cs| - 1;
      CollectRepresents(cs[..n]);
      assert cs == cs[..n] + [cs[n]];
      NoConflictSnoc(cs[..n], cs[n]);
      if CollectAll(EMPTY_ROUTER, cs[..n]).Some? {
        CollectStep(CollectAll(EMPTY_ROUTER, cs[..n]).value, cs[..n], cs[n]);
      }
    }
  }

  /** The compile-time check predicts the run: it reports no conflict exactly when registering the
      same routes in order on an empty router never panics over a duplicate method. */
  method CheckPredictsRegistration(cs: seq<Collected>) returns (n: nat, registered: bool)
    ensures n == 0 <==> registered
    ensures registered <==> CollectAll(EMPTY_ROUTER, cs).Some?
    ensures (forall i :: 0 <= i < |cs| ==> OfMethods(cs[i].1.allow)) ==>
      (registered <==> forall i, j :: 0 <= i < j < |cs| && cs[i].0 == cs[j].0 ==>
        !exists m :: Contains(cs[i].1.allow, FromMethod(m)) && Contains(cs[j].1.allow, FromMethod(m)))
  {
    hide *;
    n := RouteConflictCount(Metas(cs));
    MetasServeBoth(cs);
    CollectRepresents(cs);
    CollectStart(cs);
    registered := true;
    var r := new Router();
    for i := 0 to |cs|
      invariant CollectAll(EMPTY_ROUTER, cs[..i]) == Some(r.AsView())
    {
      CollectNext(EMPTY_ROUTER, cs, i);
      var ok := r.RouteCollected(cs[i].0, cs[i].1);
      if !ok {
        PanicSticks(EMPTY_ROUTER, cs, i + 1);
        return n, false;
      }
    }
  }

  lemma MetasServeBoth(cs: seq<Collected>)
    ensures (forall i :: 0 <= i < |cs| ==> OfMethods(cs[i].1.allow)) ==> AllOfMethods(Metas(cs))
    ensures (forall i, j :: 0 <= i < j < |cs| ==> !ServeBoth(Metas(cs)[i], Metas(cs)[j]))
       <==> forall i, j :: 0 <= i < j < |cs| && cs[i].0 == cs[j].0 ==>
              !exists m :: Contains(cs[i].1.allow, FromMethod(m)) && Contains(cs[j].1.allow, FromMethod(m))
  {
    hide Contains, FromMethod;
    forall i, j | 0 <= i < j < |cs|
      ensures ServeBoth(Metas(cs)[i], Metas(cs)[j])
         <==> cs[i].0 == cs[j].0
              && exists m :: Contains(cs[i].1.allow, FromMethod(m)) && Contains(cs[j].1.allow, FromMethod(m))
    {
    }
  }

  lemma CollectStart(cs: seq<Collected>)
    ensures CollectAll(EMPTY_ROUTER, cs[..0]) == Some(EMPTY_ROUTER) && cs[..|cs|] == cs
  {
  }

  lemma CollectNext(r: RouterView, cs: seq<Collected>, i: nat)
    requires i < |cs| && CollectAll(r, cs[..i]).Some?
    ensures CollectAll(r, cs[..i + 1]) == CollectView(CollectAll(r, cs[..i]).value, cs[i].0, cs[i].1)
  {
    hide CollectView;
    assert cs[..i + 1][..i] == cs[..i];
  }

  lemma {:induction false} PanicSticks(r: RouterView, cs: seq<Collected>, i: nat)
    requires i <= |cs| && CollectAll(r, cs[..i]).None?
    ensures CollectAll(r, cs).None?
    decreases |cs| - i
  {
    if i == |cs| {
      assert cs[..i] == cs;
    } else {
      assert cs[..i + 1][..i] == cs[..i];
      PanicSticks(r, cs, i + 1);
    }
  }
}
