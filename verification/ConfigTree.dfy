/** The tree that configuration layers are merged into (arvik-config/src/lib.rs). */
module ConfigTree {
  import opened Wrappers

  datatype Value =
    | Null
    | Bool(b: bool)
    | Number(n: int)
    | Str(s: string)
    | Array(items: seq<Value>)
    | Object(members: map<string, Value>)

  /** What `merge_values` leaves in `base`. */
  function Merge(base: Value, overlay: Value): Value
    decreases overlay
  {
    if base.Object? && overlay.Object? then
      Object(map k | k in base.members.Keys + overlay.members.Keys :: MergeMember(base.members, overlay, k))
    else overlay
  }

  /** An absent member merges like `null`. */
  function MergeMember(base: map<string, Value>, overlay: Value, k: string): Value
    requires overlay.Object? && (k in base || k in overlay.members)
    decreases overlay, 0
  {
    if k !in overlay.members then base[k]
    else Merge(if k in base then base[k] else Null, overlay.members[k])
  }

  /** `merge_values`: its loop may meet the overlay's members in any order. */
  method MergeValues(base: Value, overlay: Value) returns (r: Value)
    ensures r == Merge(base, overlay)
    decreases overlay
  {
    if !(base.Object? && overlay.Object?) {
      return overlay;
    }
    var members := base.members;
    var remaining := overlay.members.Keys;
    while remaining != {}
      invariant remaining <= overlay.members.Keys
      invariant members.Keys == base.members.Keys + (overlay.members.Keys - remaining)
      invariant forall k :: k in members && k in remaining ==> members[k] == base.members[k]
      invariant forall k :: k in members && k !in remaining ==> members[k] == MergeMember(base.members, overlay, k)
    {
      var key :| key in remaining;
      var entry := if key in members then members[key] else Null;
      var merged := MergeValues(entry, overlay.members[key]);
      members := members[key := merged];
      remaining := remaining - {key};
    }
    return Object(members);
  }

  // ---------------------------------------------------------------- lookup

  function At(v: Value, path: seq<string>): Option<Value> {
    if path == [] then Some(v)
    else if v.Object? && path[0] in v.members then At(v.members[path[0]], path[1..])
    else None
  }

  /** The overlay puts something other than an object on the way to `path`. */
  predicate Shadows(overlay: Value, path: seq<string>) {
    path != []
    && (!overlay.Object? || (path[0] in overlay.members && Shadows(overlay.members[path[0]], path[1..])))
  }

  /** What a merge means, path by path: where the overlay has a value it is merged over the base's,
      where it has none the base shows through, unless the overlay replaced the way there. */
  lemma {:induction false} LookupMerged(base: Value, overlay: Value, path: seq<string>)
    ensures At(Merge(base, overlay), path)
         == match At(overlay, path)
            case Some(x) => Some(if At(base, path).Some? then Merge(At(base, path).value, x) else x)
            case None => if Shadows(overlay, path) then None else At(base, path)
    decreases |path|
  {
    if path != [] && overlay.Object? && path[0] in overlay.members {
      var k := path[0];
      var below := if base.Object? && k in base.members then base.members[k] else Null;
      LookupMerged(below, overlay.members[k], path[1..]);
      assert At(Merge(base, overlay), path)
          == At(if base.Object? then Merge(below, overlay.members[k]) else overlay.members[k], path[1..]);
      assert Merge(Null, overlay.members[k]) == overlay.members[k];
    }
  }

  // ---------------------------------------------------------------- laws

  lemma MergedMember(base: Value, overlay: Value, k: string)
    requires base.Object? && overlay.Object? && (k in base.members || k in overlay.members)
    ensures k in Merge(base, overlay).members
    ensures Merge(base, overlay).members[k]
         == if k !in overlay.members then base.members[k]
            else if k in base.members then Merge(base.members[k], overlay.members[k])
            else overlay.members[k]
  {
    var merged := MergeMember(base.members, overlay, k);
    assert Merge(base, overlay).members[k] == merged;
    if k in overlay.members {
      assert Merge(Null, overlay.members[k]) == overlay.members[k];
    }
  }

  lemma {:induction false} MergeSelf(v: Value)
    ensures Merge(v, v) == v
  {
    if v.Object? {
      forall k | k in v.members ensures MergeMember(v.members, v, k) == v.members[k] { MergeSelf(v.members[k]); }
      assert Merge(v, v).members == v.members;
    }
  }

  /** Merging an overlay that has been merged already changes nothing. */
  lemma {:induction false} MergeTwice(base: Value, overlay: Value)
    ensures Merge(Merge(base, overlay), overlay) == Merge(base, overlay)
    decreases overlay
  {
    var once := Merge(base, overlay);
    if !(base.Object? && overlay.Object?) {
      MergeSelf(overlay);
    } else {
      forall k | k in once.members
        ensures MergeMember(once.members, overlay, k) == once.members[k]
      {
        MergedMember(base, overlay, k);
        if k in overlay.members {
          MergeTwice(if k in base.members then base.members[k] else Null, overlay.members[k]);
        }
      }
      assert Merge(once, overlay).members == once.members;
    }
  }

  /** `upper` may be folded into `lower` before either meets a base: it is an object only where
      `lower` is one too, or has nothing. */
  predicate Stacks(lower: Value, upper: Value)
    decreases upper
  {
    upper.Object? ==>
      lower.Object?
      && forall k :: k in lower.members && k in upper.members ==> Stacks(lower.members[k], upper.members[k])
  }

  lemma {:induction false} MergeAssociative(base: Value, lower: Value, upper: Value)
    requires Stacks(lower, upper)
    ensures Merge(Merge(base, lower), upper) == Merge(base, Merge(lower, upper))
    decreases upper
  {
    if upper.Object? && base.Object? {
      var once, both := Merge(base, lower), Merge(lower, upper);
      var left, right := Merge(once, upper), Merge(base, both);
      forall k | k in left.members
        ensures left.members[k] == right.members[k]
      {
        if k in base.members || k in lower.members { MergedMember(base, lower, k); }
        if k in lower.members || k in upper.members { MergedMember(lower, upper, k); }
        MergedMember(once, upper, k);
        MergedMember(base, both, k);
        if k in base.members && k in lower.members && k in upper.members {
          MergeAssociative(base.members[k], lower.members[k], upper.members[k]);
        }
      }
      assert left.members == right.members;
    }
  }

  /** Some key is longer than all of `keys`. */
  lemma {:induction false} LongerKey(keys: set<string>) returns (longer: string)
    ensures forall k :: k in keys ==> |k| < |longer|
  {
    if keys == {} {
      longer := "";
    } else {
      var k :| k in keys;
      var f := LongerKey(keys - {k});
      longer := if |k| < |f| then f else k + "x";
      forall j | j in keys ensures |j| < |longer| {
        if j != k { assert j in keys - {k}; }
      }
    }
  }

  lemma {:induction false} NotAssociative(lower: Value, upper: Value) returns (base: Value)
    requires !Stacks(lower, upper)
    ensures Merge(Merge(base, lower), upper) != Merge(base, Merge(lower, upper))
    decreases upper
  {
    if !lower.Object? {
      var longer := LongerKey(upper.members.Keys);
      base := Object(map[longer := Null]);
      assert longer !in upper.members;
      assert longer in Merge(base, upper).members;
    } else {
      var k :| k in lower.members && k in upper.members && !Stacks(lower.members[k], upper.members[k]);
      var below := NotAssociative(lower.members[k], upper.members[k]);
      base := Object(map[k := below]);
      assert Merge(Merge(base, lower), upper).members[k]
          == Merge(Merge(below, lower.members[k]), upper.members[k]);
      assert Merge(base, Merge(lower, upper)).members[k]
          == Merge(below, Merge(lower.members[k], upper.members[k]));
    }
  }

  /** Merging is not associative: two overlays may be folded first, for every base, if and only if
      the second stacks on the first. */
  lemma AssociativeIff(lower: Value, upper: Value)
    ensures (forall base :: Merge(Merge(base, lower), upper) == Merge(base, Merge(lower, upper)))
       <==> Stacks(lower, upper)
  {
    if Stacks(lower, upper) {
      forall base
        ensures Merge(Merge(base, lower), upper) == Merge(base, Merge(lower, upper))
      {
        MergeAssociative(base, lower, upper);
      }
    } else {
      var base := NotAssociative(lower, upper);
    }
  }

  // ---------------------------------------------------------------- setting one path

  /** The tree in which `path` leads to `value`; what is not an object on the way becomes one. */
  function SetPath(root: Value, path: seq<string>, value: Value): Value
    decreases |path|
  {
    if path == [] then value
    else
      var members := if root.Object? then root.members else map[];
      var below := if path[0] in members then members[path[0]] else Object(map[]);
      Object(members[path[0] := SetPath(below, path[1..], value)])
  }

  /** The object around a subtree, with the key the subtree sits at. */
  datatype Frame = Frame(members: map<string, Value>, key: string)

  function Plug(spine: seq<Frame>, v: Value): Value {
    if spine == [] then v
    else
      var n := |spine| - 1;
      Plug(spine[..n], Object(spine[n].members[spine[n].key := v]))
  }

  /** `set_path`: a cursor moves down, and the frames it passes stay around it. */
  method SetPathInPlace(root: Value, path: seq<string>, value: Value) returns (r: Value)
    requires path != []
    ensures r == SetPath(root, path, value)
  {
    var current := root;
    var spine: seq<Frame> := [];
    var last := |path| - 1;
    assert path[0..] == path;
    for i := 0 to last
      invariant SetPath(root, path, value) == Plug(spine, SetPath(current, path[i..], value))
    {
      assert path[i..][1..] == path[i + 1..];
      if !current.Object? {
        current := Object(map[]);
      }
      var frame := Frame(current.members, path[i]);
      assert (spine + [frame])[..|spine|] == spine;
      spine := spine + [frame];
      current := if path[i] in current.members then current.members[path[i]] else Object(map[]);
    }
    assert path[last..] == [path[last]] && path[last..][1..] == [];
    if !current.Object? {
      current := Object(map[]);
    }
    current := Object(current.members[path[last] := value]);
    return Plug(spine, current);
  }

  /** The overlay that says nothing but `path`. */
  function Spell(path: seq<string>, value: Value): Value {
    if path == [] then value else Object(map[path[0] := Spell(path[1..], value)])
  }

  lemma SpellTwo(section: string, field: string, value: Value)
    ensures Spell([section, field], value) == Object(map[section := Object(map[field := value])])
  {
    var path := [section, field];
    assert path[1..] == [field] && path[1..][1..] == [];
    assert Spell(path[1..], value) == Object(map[field := Spell(path[1..][1..], value)]);
  }

  /** Setting a path is merging the overlay that spells it, for values that are not objects. */
  lemma {:induction false} SetPathIsMerge(root: Value, path: seq<string>, value: Value)
    requires !value.Object?
    ensures SetPath(root, path, value) == Merge(root, Spell(path, value))
    decreases |path|
  {
    if path != [] {
      var k := path[0];
      var members := if root.Object? then root.members else map[];
      var below := if k in members then members[k] else Object(map[]);
      SetPathIsMerge(below, path[1..], value);
      if k !in members {
        MergeIntoEmpty(Spell(path[1..], value));
      }
      var spelled := Spell(path, value);
      assert spelled.members.Keys == {k};
      if root.Object? {
        assert MergeMember(members, spelled, k) == SetPath(below, path[1..], value);
        assert Merge(root, spelled).members == members[k := SetPath(below, path[1..], value)];
      }
    }
  }

  lemma MergeIntoEmpty(v: Value)
    ensures Merge(Object(map[]), v) == v
  {
    if v.Object? {
      forall k | k in v.members
        ensures MergeMember(map[], v, k) == v.members[k]
      {
        assert Merge(Null, v.members[k]) == v.members[k];
      }
      assert Merge(Object(map[]), v).members == v.members;
    }
  }
}
