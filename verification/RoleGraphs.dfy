/** Role inheritance as a graph: which roles a list of roles inherits, when the inheritance contains a cycle, and
    how often an unfolding without a visited list meets a role. */
module RoleGraphs {

  type Id = string
  type Graph = map<Id, seq<Id>>   // the roles each stored role inherits from

  function Children(g: Graph, id: Id): seq<Id> {
    if id in g then g[id] else []
  }

  predicate Linked(g: Graph, path: seq<Id>, i: int)
    requires 0 <= i < |path| - 1
  {
    path[i + 1] in Children(g, path[i])
  }

  ghost predicate Path(g: Graph, path: seq<Id>) {
    path != [] && forall i :: 0 <= i < |path| - 1 ==> Linked(g, path, i)
  }

  ghost predicate PathFrom(g: Graph, roots: seq<Id>, path: seq<Id>) {
    Path(g, path) && path[0] in roots
  }

  ghost predicate Reachable(g: Graph, roots: seq<Id>, id: Id) {
    exists path {:trigger PathFrom(g, roots, path)} :: PathFrom(g, roots, path) && path[|path| - 1] == id
  }

  ghost predicate Repeats(path: seq<Id>) {
    exists i, j :: 0 <= i < j < |path| && path[i] == path[j]
  }

  // Some role reachable from the roots inherits from itself.
  ghost predicate Cyclic(g: Graph, roots: seq<Id>) {
    exists path {:trigger PathFrom(g, roots, path)} :: PathFrom(g, roots, path) && Repeats(path)
  }

  ghost predicate PathsAtMost(g: Graph, roots: seq<Id>, bound: nat) {
    forall path {:trigger PathFrom(g, roots, path)} :: PathFrom(g, roots, path) ==> |path| <= bound
  }

  lemma PathPart(g: Graph, path: seq<Id>, from: nat, to: nat)
    requires Path(g, path) && from < to <= |path|
    ensures Path(g, path[from..to])
  {
    forall i | 0 <= i < to - from - 1
      ensures Linked(g, path[from..to], i)
    {
      assert Linked(g, path, from + i);
    }
  }

  lemma PathsJoin(g: Graph, up: seq<Id>, down: seq<Id>)
    requires Path(g, up) && Path(g, down) && down[0] in Children(g, up[|up| - 1])
    ensures Path(g, up + down)
  {
    forall i | 0 <= i < |up + down| - 1
      ensures Linked(g, up + down, i)
    {
      if i < |up| - 1 {
        assert Linked(g, up, i);
      } else if i >= |up| {
        assert Linked(g, down, i - |up|);
      }
    }
  }

  // A path of two or more roles ends with an edge from a role that is reachable as well.
  lemma PathEnds(g: Graph, roots: seq<Id>, path: seq<Id>)
    requires PathFrom(g, roots, path) && |path| > 1
    ensures PathFrom(g, roots, path[..|path| - 1])
    ensures path[|path| - 1] in Children(g, path[|path| - 2])
    ensures Reachable(g, roots, path[|path| - 2])
  {
    PathPart(g, path, 0, |path| - 1);
    assert Linked(g, path, |path| - 2);
    var up := path[..|path| - 1];
    assert PathFrom(g, roots, up) && up[|up| - 1] == path[|path| - 2];
  }

  lemma RootsReachable(g: Graph, roots: seq<Id>, id: Id)
    requires id in roots
    ensures Reachable(g, roots, id)
  {
    assert PathFrom(g, roots, [id]);
  }

  lemma ChildReachable(g: Graph, roots: seq<Id>, id: Id, child: Id)
    requires Reachable(g, roots, id) && child in Children(g, id)
    ensures Reachable(g, roots, child)
  {
    var path :| PathFrom(g, roots, path) && path[|path| - 1] == id;
    PathsJoin(g, path, [child]);
    assert PathFrom(g, roots, path + [child]);
  }

  /** A set that holds the roots and is closed under inheritance holds everything reachable. */
  lemma {:induction false} ClosedSetHoldsPath(g: Graph, roots: seq<Id>, s: set<Id>, path: seq<Id>)
    requires forall id :: id in roots ==> id in s
    requires forall id, child :: id in s && child in Children(g, id) ==> child in s
    requires PathFrom(g, roots, path)
    ensures path[|path| - 1] in s
    decreases |path|
  {
    if |path| > 1 {
      PathEnds(g, roots, path);
      ClosedSetHoldsPath(g, roots, s, path[..|path| - 1]);
    }
  }

  lemma {:induction false} DistinctFitsIn(xs: seq<Id>, s: set<Id>)
    requires forall i :: 0 <= i < |xs| ==> xs[i] in s
    requires forall i, j :: 0 <= i < j < |xs| ==> xs[i] != xs[j]
    ensures |xs| <= |s|
  {
    if xs != [] {
      var last := xs[|xs| - 1];
      DistinctFitsIn(xs[..|xs| - 1], s - {last});
    }
  }

  lemma AcyclicPathsAreShort(g: Graph, roots: seq<Id>)
    requires !Cyclic(g, roots)
    ensures PathsAtMost(g, roots, |g| + 1)
  {
    forall path | PathFrom(g, roots, path)
      ensures |path| <= |g| + 1
    {
      var inner := path[..|path| - 1];
      forall i | 0 <= i < |inner|
        ensures inner[i] in g.Keys
      {
        assert Linked(g, path, i);
      }
      DistinctFitsIn(inner, g.Keys);
      assert |g.Keys| == |g|;
    }
  }

  // The number of roles on the longest path down from `id` that has at most `bound` roles.
  ghost function Height(g: Graph, id: Id, bound: nat): (h: nat)
    ensures h <= bound
    ensures h > 0 ==> exists path {:trigger Path(g, path)} :: Path(g, path) && path[0] == id && |path| == h
    ensures forall path {:trigger Path(g, path)} :: Path(g, path) && path[0] == id && |path| <= bound ==> |path| <= h
  {
    if bound == 0 || exists path {:trigger Path(g, path)} :: Path(g, path) && path[0] == id && |path| == bound then bound
    else Height(g, id, bound - 1)
  }

  // A path below a reachable role can be entered from that role.
  lemma PathFromParent(g: Graph, roots: seq<Id>, bound: nat, id: Id, down: seq<Id>)
    requires PathsAtMost(g, roots, bound)
    requires Reachable(g, roots, id) && Path(g, down) && down[0] in Children(g, id)
    ensures Path(g, [id] + down) && |down| + 1 <= bound
  {
    var up :| PathFrom(g, roots, up) && up[|up| - 1] == id;
    PathsJoin(g, up, down);
    assert PathFrom(g, roots, up + down);
    PathsJoin(g, [id], down);
  }

  /** Where paths are bounded, heights fall along every inheritance edge. */
  lemma HeightFalls(g: Graph, roots: seq<Id>, bound: nat, id: Id, child: Id)
    requires PathsAtMost(g, roots, bound)
    requires Reachable(g, roots, id) && child in Children(g, id)
    ensures Height(g, child, bound) < Height(g, id, bound)
  {
    var down := [child];
    PathFromParent(g, roots, bound, id, down);
    assert Path(g, [child]) && |[child]| <= bound;
    down :| Path(g, down) && down[0] == child && |down| == Height(g, child, bound);
    PathFromParent(g, roots, bound, id, down);
    assert ([id] + down)[0] == id;
  }

  lemma {:induction false} HeightsAlongPath(g: Graph, roots: seq<Id>, bound: nat, path: seq<Id>, i: nat, j: nat)
    requires PathsAtMost(g, roots, bound)
    requires PathFrom(g, roots, path) && i < j < |path|
    ensures Height(g, path[j], bound) < Height(g, path[i], bound)
    decreases j - i
  {
    PathPart(g, path, 0, j + 1);
    PathEnds(g, roots, path[..j + 1]);
    HeightFalls(g, roots, bound, path[j - 1], path[j]);
    if i < j - 1 {
      HeightsAlongPath(g, roots, bound, path, i, j - 1);
    }
  }

  /** A graph has no reachable cycle if and only if its paths are bounded. */
  lemma AcyclicIffBounded(g: Graph, roots: seq<Id>)
    ensures !Cyclic(g, roots) <==> exists bound :: PathsAtMost(g, roots, bound)
  {
    if !Cyclic(g, roots) {
      AcyclicPathsAreShort(g, roots);
    }
    if bound: nat :| PathsAtMost(g, roots, bound) {
      forall path | PathFrom(g, roots, path)
        ensures !Repeats(path)
      {
        forall i: nat, j: nat | i < j < |path|
          ensures path[i] != path[j]
        {
          HeightsAlongPath(g, roots, bound, path, i, j);
        }
      }
    }
  }

  // Unfolding without a visited list.

  ghost predicate AllReachable(g: Graph, roots: seq<Id>, ids: seq<Id>) {
    forall id :: id in ids ==> Reachable(g, roots, id)
  }

  ghost predicate Below(g: Graph, roots: seq<Id>, bound: nat, ids: seq<Id>, h: nat) {
    AllReachable(g, roots, ids) && forall id :: id in ids ==> Height(g, id, bound) < h
  }

  lemma ChildrenBelow(g: Graph, roots: seq<Id>, bound: nat, id: Id)
    requires PathsAtMost(g, roots, bound) && Reachable(g, roots, id)
    ensures Below(g, roots, bound, Children(g, id), Height(g, id, bound))
  {
    forall child | child in Children(g, id)
      ensures Reachable(g, roots, child) && Height(g, child, bound) < Height(g, id, bound)
    {
      ChildReachable(g, roots, id, child);
      HeightFalls(g, roots, bound, id, child);
    }
  }

  // The inheritance trees of `ids` in depth-first order, parents first and the last role of a list first.
  ghost function Trees(g: Graph, roots: seq<Id>, bound: nat, ids: seq<Id>, h: nat): seq<Id>
    requires PathsAtMost(g, roots, bound) && Below(g, roots, bound, ids, h)
    decreases h, |ids|
  {
    if ids == [] then []
    else
      var last := ids[|ids| - 1];
      ChildrenBelow(g, roots, bound, last);
      [last] + Trees(g, roots, bound, Children(g, last), Height(g, last, bound))
             + Trees(g, roots, bound, ids[..|ids| - 1], h)
  }

  ghost function Forest(g: Graph, roots: seq<Id>, bound: nat, ids: seq<Id>): seq<Id>
    requires PathsAtMost(g, roots, bound) && AllReachable(g, roots, ids)
  {
    Trees(g, roots, bound, ids, bound + 1)
  }

  lemma {:induction false} TreesIgnoreLimit(g: Graph, roots: seq<Id>, bound: nat, ids: seq<Id>, h: nat)
    requires PathsAtMost(g, roots, bound) && Below(g, roots, bound, ids, h)
    ensures Trees(g, roots, bound, ids, h) == Forest(g, roots, bound, ids)
    decreases |ids|
  {
    if ids != [] {
      TreesIgnoreLimit(g, roots, bound, ids[..|ids| - 1], h);
      TreesIgnoreLimit(g, roots, bound, ids[..|ids| - 1], bound + 1);
    }
  }

  lemma {:induction false} ForestOfConcat(g: Graph, roots: seq<Id>, bound: nat, a: seq<Id>, b: seq<Id>)
    requires PathsAtMost(g, roots, bound) && AllReachable(g, roots, a) && AllReachable(g, roots, b)
    ensures AllReachable(g, roots, a + b)
    ensures Forest(g, roots, bound, a + b) == Forest(g, roots, bound, b) + Forest(g, roots, bound, a)
    decreases |b|
  {
    if b == [] {
      assert a + b == a;
    } else {
      var n := |b| - 1;
      assert (a + b)[..|a + b| - 1] == a + b[..n];
      ForestOfConcat(g, roots, bound, a, b[..n]);
      ChildrenBelow(g, roots, bound, b[n]);
      var head := [b[n]] + Trees(g, roots, bound, Children(g, b[n]), Height(g, b[n], bound));
      AppendAssociates(head, Forest(g, roots, bound, b[..n]), Forest(g, roots, bound, a));
      assert (a + b)[|a + b| - 1] == b[n];
    }
  }

  lemma AppendAssociates(a: seq<Id>, b: seq<Id>, c: seq<Id>)
    ensures a + b + c == a + (b + c)
  {
  }

  lemma ForestOfOne(g: Graph, roots: seq<Id>, bound: nat, id: Id)
    requires PathsAtMost(g, roots, bound) && Reachable(g, roots, id)
    ensures AllReachable(g, roots, Children(g, id))
    ensures Forest(g, roots, bound, [id]) == [id] + Forest(g, roots, bound, Children(g, id))
  {
    ChildrenBelow(g, roots, bound, id);
    TreesIgnoreLimit(g, roots, bound, Children(g, id), Height(g, id, bound));
    assert [id][..0] == [];
    assert Trees(g, roots, bound, [], bound + 1) == [];
  }

  /** Replacing the last role of a work list by the roles it inherits takes the head off the order. */
  lemma ExpandingLastRole(g: Graph, roots: seq<Id>, bound: nat, rest: seq<Id>, id: Id)
    requires PathsAtMost(g, roots, bound) && AllReachable(g, roots, rest) && Reachable(g, roots, id)
    ensures AllReachable(g, roots, rest + Children(g, id))
    ensures Forest(g, roots, bound, rest + [id]) == [id] + Forest(g, roots, bound, rest + Children(g, id))
  {
    ForestOfOne(g, roots, bound, id);
    ForestOfConcat(g, roots, bound, rest, [id]);
    ForestOfConcat(g, roots, bound, rest, Children(g, id));
    AppendAssociates([id], Forest(g, roots, bound, Children(g, id)), Forest(g, roots, bound, rest));
  }

  /** Replacing any role of a work list by the roles it inherits takes exactly one unit of work away. */
  lemma ExpandingOneRole(g: Graph, roots: seq<Id>, bound: nat, before: seq<Id>, id: Id, after: seq<Id>)
    requires PathsAtMost(g, roots, bound) && AllReachable(g, roots, before + [id] + after)
    ensures AllReachable(g, roots, before + after + Children(g, id))
    ensures |Forest(g, roots, bound, before + [id] + after)| ==
            |Forest(g, roots, bound, before + after + Children(g, id))| + 1
  {
    assert forall x :: x in before || x == id || x in after ==> x in before + [id] + after;
    ForestOfOne(g, roots, bound, id);
    ForestOfConcat(g, roots, bound, before, [id]);
    ForestOfConcat(g, roots, bound, before + [id], after);
    ForestOfConcat(g, roots, bound, before, after);
    ForestOfConcat(g, roots, bound, before + after, Children(g, id));
  }

  lemma {:induction false} TreesHold(g: Graph, roots: seq<Id>, bound: nat, ids: seq<Id>, h: nat)
    requires PathsAtMost(g, roots, bound) && Below(g, roots, bound, ids, h)
    ensures forall id :: id in ids ==> id in Trees(g, roots, bound, ids, h)
    ensures forall id, child :: id in Trees(g, roots, bound, ids, h) && child in Children(g, id) ==>
      child in Trees(g, roots, bound, ids, h)
    ensures AllReachable(g, roots, Trees(g, roots, bound, ids, h))
    decreases h, |ids|
  {
    if ids != [] {
      var last := ids[|ids| - 1];
      ChildrenBelow(g, roots, bound, last);
      TreesHold(g, roots, bound, Children(g, last), Height(g, last, bound));
      TreesHold(g, roots, bound, ids[..|ids| - 1], h);
    }
  }

  /** The unfolding meets exactly the reachable roles. */
  lemma ForestIsReachable(g: Graph, roots: seq<Id>, bound: nat)
    requires PathsAtMost(g, roots, bound)
    ensures AllReachable(g, roots, roots)
    ensures forall id :: id in Forest(g, roots, bound, roots) <==> Reachable(g, roots, id)
  {
    forall id | id in roots
      ensures Reachable(g, roots, id)
    {
      RootsReachable(g, roots, id);
    }
    var forest := Forest(g, roots, bound, roots);
    TreesHold(g, roots, bound, roots, bound + 1);
    forall id | Reachable(g, roots, id)
      ensures id in forest
    {
      var path :| PathFrom(g, roots, path) && path[|path| - 1] == id;
      ClosedSetHoldsPath(g, roots, (set x | x in forest), path);
    }
  }
}
