/** Method bitmasks (arvik-core/src/method_filter.rs). A mask is kept as the set of the positions of
    its bits: `1 << k` is {k}, `|` is union, `a & b == b` is inclusion and `a & b != 0` is meeting. */
module MethodFilter {

  datatype Filter = Filter(bits: set<nat>)

  const NONE := Filter({})
  const GET := Filter({0})
  const POST := Filter({1})
  const PUT := Filter({2})
  const DELETE := Filter({3})
  const PATCH := Filter({4})
  const HEAD := Filter({5})
  const OPTIONS := Filter({6})
  const TRACE := Filter({7})
  const EXTENSION := Filter({8})
  const ANY := Filter({0, 1, 2, 3, 4, 5, 6, 7, 8})

  datatype Method = Get | Post | Put | Delete | Patch | Head | Options | Trace | Other(name: string)

  predicate Contains(f: Filter, other: Filter) { other.bits <= f.bits }

  /** `bitor` */
  function Or(a: Filter, b: Filter): Filter { Filter(a.bits + b.bits) }

  predicate Overlaps(a: Filter, b: Filter) { a.bits * b.bits != {} }

  /** The position of the bit a method is given. */
  function Bit(m: Method): nat {
    match m
    case Get => 0
    case Post => 1
    case Put => 2
    case Delete => 3
    case Patch => 4
    case Head => 5
    case Options => 6
    case Trace => 7
    case Other(_) => 8
  }

  function FromMethod(m: Method): (f: Filter)
    ensures f == Filter({Bit(m)})
  {
    match m
    case Get => GET
    case Post => POST
    case Put => PUT
    case Delete => DELETE
    case Patch => PATCH
    case Head => HEAD
    case Options => OPTIONS
    case Trace => TRACE
    case Other(_) => EXTENSION
  }

  /** A union of filters matches a method exactly when one of them does. */
  lemma UnionMatches(a: Filter, b: Filter, m: Method)
    ensures Contains(Or(a, b), FromMethod(m)) <==> Contains(a, FromMethod(m)) || Contains(b, FromMethod(m))
  {
    ContainsIsBit(a, m);
    ContainsIsBit(b, m);
    ContainsIsBit(Or(a, b), m);
  }

  lemma ContainsIsBit(f: Filter, m: Method)
    ensures Contains(f, FromMethod(m)) <==> Bit(m) in f.bits
  {
    assert Bit(m) in FromMethod(m).bits;
  }

  /** The filter is made of methods: it is one of the constants or a union of them. */
  predicate OfMethods(f: Filter) { f.bits <= ANY.bits }

  lemma MethodAt(k: nat) returns (m: Method)
    requires k in ANY.bits
    ensures Bit(m) == k
  {
    m := if k == 0 then Get else if k == 1 then Post else if k == 2 then Put else if k == 3 then Delete
         else if k == 4 then Patch else if k == 5 then Head else if k == 6 then Options
         else if k == 7 then Trace else Other("");
  }

  lemma OverlapIsSharedBit(a: Filter, b: Filter)
    ensures Overlaps(a, b) <==> !(a.bits !! b.bits)
  {
    if Overlaps(a, b) {
      var k :| k in a.bits * b.bits;
      assert k in a.bits && k in b.bits;
    }
    if k :| k in a.bits && k in b.bits {
      assert k in a.bits * b.bits;
    }
  }

  /** Two masks overlap exactly when some method is matched by both. */
  lemma OverlapIsSharedMethod(a: Filter, b: Filter)
    requires OfMethods(a) && OfMethods(b)
    ensures Overlaps(a, b) <==> exists m :: Contains(a, FromMethod(m)) && Contains(b, FromMethod(m))
  {
    if Overlaps(a, b) {
      var k :| k in a.bits * b.bits;
      var m := MethodAt(k);
      ContainsIsBit(a, m);
      ContainsIsBit(b, m);
    }
    if m :| Contains(a, FromMethod(m)) && Contains(b, FromMethod(m)) {
      ContainsIsBit(a, m);
      ContainsIsBit(b, m);
      assert Bit(m) in a.bits * b.bits;
    }
  }

  /** Two masks overlap with a third exactly when their union does. */
  lemma UnionOverlaps(a: Filter, b: Filter, c: Filter)
    ensures Overlaps(Or(a, b), c) <==> Overlaps(a, c) || Overlaps(b, c)
  {
    assert Or(a, b).bits * c.bits == a.bits * c.bits + b.bits * c.bits;
  }

  lemma OrIsMonoid(a: Filter, b: Filter, c: Filter)
    ensures Or(Or(a, b), c) == Or(a, Or(b, c))
    ensures Or(a, NONE) == a && Or(NONE, a) == a
  {
    assert a.bits + b.bits + c.bits == a.bits + (b.bits + c.bits);
    assert a.bits + {} == a.bits == {} + a.bits;
  }

  /** The filter of one method matches that method and no other; `ANY` matches all and `NONE` none. */
  lemma MethodsAreApart(m: Method, n: Method)
    ensures Contains(FromMethod(m), FromMethod(n)) <==> m == n || (m.Other? && n.Other?)
    ensures Contains(ANY, FromMethod(m)) && !Contains(NONE, FromMethod(m))
  {
    ContainsIsBit(FromMethod(m), n);
    ContainsIsBit(NONE, m);
  }
}
