/** The file permission check for team members: a walk over the inherited team roles with a stack and without a
    visited list, which stops at the first role that has an entry in the file's permission list. */
module TeamRoleWalk {
  import opened Options
  import opened RoleGraphs

  datatype Action = Read | Write | Create | Delete
  // One entry of a file's permission list.
  datatype FilePermission = FilePermission(refId: Id, granted: set<Action>)

  // Stored team roles; the list of inherited roles may be missing.
  type TeamRoles = map<Id, Option<seq<Id>>>

  function Inherited(roles: TeamRoles): Graph {
    map id | id in roles :: if roles[id].Some? then roles[id].value else []
  }

  function Heritage(roles: TeamRoles, id: Id): (ids: seq<Id>)
    ensures ids == Children(Inherited(roles), id)
  {
    if id in roles && roles[id].Some? then roles[id].value else []
  }

  datatype Walk = Found(entry: FilePermission) | NothingFound | UnknownRole

  function FirstEntry(permissions: seq<FilePermission>, id: Id): Option<FilePermission> {
    if permissions == [] then None
    else if permissions[0].refId == id then Some(permissions[0])
    else FirstEntry(permissions[1..], id)
  }

  // The walk ends at a role with an entry, and at a role that is not a stored team role.
  predicate Stops(roles: TeamRoles, permissions: seq<FilePermission>, id: Id) {
    id !in roles || FirstEntry(permissions, id).Some?
  }

  function Report(roles: TeamRoles, permissions: seq<FilePermission>, id: Id): Walk
    requires Stops(roles, permissions, id)
  {
    if id !in roles then UnknownRole else Found(FirstEntry(permissions, id).value)
  }

  // What the walk reports for roles met in this order.
  function FirstStop(roles: TeamRoles, permissions: seq<FilePermission>, order: seq<Id>): Walk {
    if order == [] then NothingFound
    else if Stops(roles, permissions, order[0]) then Report(roles, permissions, order[0])
    else FirstStop(roles, permissions, order[1..])
  }

  // The loop from a given stack, or nothing if it takes more than `n` iterations.
  function Iterate(roles: TeamRoles, permissions: seq<FilePermission>, stack: seq<Id>, n: nat): Option<Walk>
    decreases n
  {
    if stack == [] then Some(NothingFound)
    else if n == 0 then None
    else
      var rest, top := stack[..|stack| - 1], stack[|stack| - 1];
      if Stops(roles, permissions, top) then Some(Report(roles, permissions, top))
      else Iterate(roles, permissions, rest + Heritage(roles, top), n - 1)
  }

  ghost predicate Ends(roles: TeamRoles, permissions: seq<FilePermission>, role: Id) {
    exists n: nat :: Iterate(roles, permissions, [role], n).Some?
  }

  ghost predicate StopFree(roles: TeamRoles, permissions: seq<FilePermission>, ids: seq<Id>) {
    forall id :: Reachable(Inherited(roles), ids, id) ==> !Stops(roles, permissions, id)
  }

  // What the walk leaves behind it: nothing below these roles stops it, and nothing inherits from itself.
  ghost predicate Clear(roles: TeamRoles, permissions: seq<FilePermission>, ids: seq<Id>) {
    !Cyclic(Inherited(roles), ids) && StopFree(roles, permissions, ids)
  }

  // The last roles of a list, up to the first one from the end that the walk does not leave behind.
  ghost function Visited(roles: TeamRoles, permissions: seq<FilePermission>, ids: seq<Id>): (visited: seq<Id>)
    ensures forall id :: id in visited ==> id in ids
  {
    if ids == [] then []
    else
      var before, last := ids[..|ids| - 1], ids[|ids| - 1];
      if Clear(roles, permissions, [last]) then Visited(roles, permissions, before) + [last] else [last]
  }

  /** The part of the hierarchy the walk can get to: roles that stop it lead nowhere, and from a list of inherited
      roles it gets to one only if it leaves all later ones behind. */
  ghost function Pruned(roles: TeamRoles, permissions: seq<FilePermission>): Graph {
    map id | id in roles ::
      if Stops(roles, permissions, id) then [] else Visited(roles, permissions, Children(Inherited(roles), id))
  }

  // The depth-first order of that part.
  ghost function Order(roles: TeamRoles, permissions: seq<FilePermission>, role: Id): seq<Id>
    requires !Cyclic(Pruned(roles, permissions), [role])
  {
    var h := Pruned(roles, permissions);
    AcyclicPathsAreShort(h, [role]);
    ForestIsReachable(h, [role], |h| + 1);
    Forest(h, [role], |h| + 1, [role])
  }

  lemma {:induction false} MoreIterations(roles: TeamRoles, permissions: seq<FilePermission>, stack: seq<Id>, n: nat, m: nat)
    requires Iterate(roles, permissions, stack, n).Some? && n <= m
    ensures Iterate(roles, permissions, stack, m) == Iterate(roles, permissions, stack, n)
    decreases n
  {
    if stack != [] && !Stops(roles, permissions, stack[|stack| - 1]) {
      var next := stack[..|stack| - 1] + Children(Inherited(roles), stack[|stack| - 1]);
      MoreIterations(roles, permissions, next, n - 1, m - 1);
    }
  }

  lemma OneIteration(roles: TeamRoles, permissions: seq<FilePermission>, rest: seq<Id>, top: Id, n: nat)
    ensures Iterate(roles, permissions, rest + [top], n + 1) ==
            if Stops(roles, permissions, top) then Some(Report(roles, permissions, top))
            else Iterate(roles, permissions, rest + Heritage(roles, top), n)
  {
    var stack := rest + [top];
    assert stack[..|stack| - 1] == rest && stack[|stack| - 1] == top;
  }

  // Clear lists.

  lemma ClearParts(roles: TeamRoles, permissions: seq<FilePermission>, ids: seq<Id>)
    ensures Clear(roles, permissions, ids) <==> forall id :: id in ids ==> Clear(roles, permissions, [id])
  {
    var g := Inherited(roles);
    forall path
      ensures PathFrom(g, ids, path) <==> exists id :: id in ids && PathFrom(g, [id], path)
    {
      if PathFrom(g, ids, path) {
        assert PathFrom(g, [path[0]], path);
      }
    }
    if Clear(roles, permissions, ids) {
      forall id | id in ids
        ensures Clear(roles, permissions, [id])
      {
        PartIsClear(roles, permissions, ids, id);
      }
    } else if !Cyclic(g, ids) {
      var id :| Reachable(g, ids, id) && Stops(roles, permissions, id);
      var path :| PathFrom(g, ids, path) && path[|path| - 1] == id;
      assert PathFrom(g, [path[0]], path) && Reachable(g, [path[0]], id);
      assert !Clear(roles, permissions, [path[0]]);
    } else {
      var path :| PathFrom(g, ids, path) && Repeats(path);
      assert PathFrom(g, [path[0]], path) && Cyclic(g, [path[0]]);
      assert !Clear(roles, permissions, [path[0]]);
    }
  }

  lemma PartIsClear(roles: TeamRoles, permissions: seq<FilePermission>, ids: seq<Id>, id: Id)
    requires Clear(roles, permissions, ids) && id in ids
    ensures Clear(roles, permissions, [id])
  {
    var g := Inherited(roles);
    forall path | PathFrom(g, [id], path)
      ensures PathFrom(g, ids, path)
    {
    }
    assert forall x :: Reachable(g, [id], x) ==> Reachable(g, ids, x);
  }

  // A role that does not stop the walk is clear if the roles it inherits from are.
  lemma ClearFromChildren(roles: TeamRoles, permissions: seq<FilePermission>, id: Id)
    requires !Stops(roles, permissions, id)
    requires Clear(roles, permissions, Children(Inherited(roles), id))
    ensures Clear(roles, permissions, [id])
  {
    var g := Inherited(roles);
    var ids := Children(g, id);
    AcyclicPathsAreShort(g, ids);
    forall path | PathFrom(g, [id], path)
      ensures |path| <= |g| + 2 && !Stops(roles, permissions, path[|path| - 1])
    {
      if |path| > 1 {
        assert Linked(g, path, 0);
        PathPart(g, path, 1, |path|);
        assert PathFrom(g, ids, path[1..|path|]);
        assert Reachable(g, ids, path[|path| - 1]);
      }
    }
    assert PathsAtMost(g, [id], |g| + 2);
    AcyclicIffBounded(g, [id]);
  }

  // The same above other roles of a stack.
  lemma IterationAbove(roles: TeamRoles, permissions: seq<FilePermission>, rest: seq<Id>, before: seq<Id>, top: Id, n: nat)
    requires !Stops(roles, permissions, top)
    ensures Iterate(roles, permissions, rest + (before + [top]), n + 1) ==
            Iterate(roles, permissions, rest + (before + Heritage(roles, top)), n)
  {
    OneIteration(roles, permissions, rest + before, top, n);
    AppendAssociates(rest, before, [top]);
    AppendAssociates(rest, before, Heritage(roles, top));
  }

  lemma {:induction false} IterateFollowsOrder(roles: TeamRoles, permissions: seq<FilePermission>, start: seq<Id>, bound: nat, stack: seq<Id>)
    requires PathsAtMost(Inherited(roles), start, bound) && AllReachable(Inherited(roles), start, stack)
    ensures var order := Forest(Inherited(roles), start, bound, stack);
            Iterate(roles, permissions, stack, |order|) == Some(FirstStop(roles, permissions, order))
    decreases |Forest(Inherited(roles), start, bound, stack)|
  {
    var g := Inherited(roles);
    if stack != [] {
      var rest, top := stack[..|stack| - 1], stack[|stack| - 1];
      assert stack == rest + [top];
      ExpandingLastRole(g, start, bound, rest, top);
      if !Stops(roles, permissions, top) {
        IterateFollowsOrder(roles, permissions, start, bound, rest + Children(g, top));
      }
    }
  }

  lemma FirstStep(roles: TeamRoles, permissions: seq<FilePermission>, before: seq<Id>, top: Id, n: nat)
    requires Iterate(roles, permissions, before + [top], n) == Some(NothingFound)
    ensures n > 0 && !Stops(roles, permissions, top)
    ensures Iterate(roles, permissions, before + Heritage(roles, top), n - 1) == Some(NothingFound)
  {
    var stack := before + [top];
    assert stack[..|stack| - 1] == before && stack[|stack| - 1] == top;
  }

  lemma GoesOnAbove(roles: TeamRoles, permissions: seq<FilePermission>, rest: seq<Id>, before: seq<Id>, top: Id, m: nat)
    requires Iterate(roles, permissions, rest + (before + [top]), m).Some? && !Stops(roles, permissions, top)
    ensures m > 0 && Iterate(roles, permissions, rest + (before + Heritage(roles, top)), m - 1).Some?
  {
    assert m > 0;
    IterationAbove(roles, permissions, rest, before, top, m - 1);
  }

  // A stack that empties without a stop does so on top of anything, and leaves just that.

  lemma {:induction false} GetsThere(roles: TeamRoles, permissions: seq<FilePermission>, rest: seq<Id>, stack: seq<Id>, n: nat, k: nat)
    returns (m: nat)
    requires Iterate(roles, permissions, stack, n) == Some(NothingFound)
    ensures Iterate(roles, permissions, rest + stack, m) == Iterate(roles, permissions, rest, k)
    decreases n
  {
    if stack == [] {
      assert rest + stack == rest;
      return k;
    }
    var before, top := stack[..|stack| - 1], stack[|stack| - 1];
    assert stack == before + [top];
    FirstStep(roles, permissions, before, top, n);
    m := GetsThere(roles, permissions, rest, before + Heritage(roles, top), n - 1, k);
    IterationAbove(roles, permissions, rest, before, top, m);
    m := m + 1;
  }

  lemma {:induction false} GetsPast(roles: TeamRoles, permissions: seq<FilePermission>, rest: seq<Id>, stack: seq<Id>, n: nat, m: nat)
    returns (k: nat)
    requires Iterate(roles, permissions, stack, n) == Some(NothingFound)
    requires Iterate(roles, permissions, rest + stack, m).Some?
    ensures k <= m && Iterate(roles, permissions, rest, k).Some?
    decreases n
  {
    if stack == [] {
      assert rest + stack == rest;
      k := m;
    } else {
      var before, top := stack[..|stack| - 1], stack[|stack| - 1];
      var next := before + Heritage(roles, top);
      assert stack == before + [top];
      assert n > 0 && Iterate(roles, permissions, next, n - 1) == Some(NothingFound)
        && m > 0 && Iterate(roles, permissions, rest + next, m - 1).Some? by {
        FirstStep(roles, permissions, before, top, n);
        GoesOnAbove(roles, permissions, rest, before, top, m);
      }
      k := GetsPast(roles, permissions, rest, next, n - 1, m - 1);
    }
  }

  lemma {:induction false} FirstStopOfConcat(roles: TeamRoles, permissions: seq<FilePermission>, a: seq<Id>, b: seq<Id>)
    ensures FirstStop(roles, permissions, a + b) ==
            if FirstStop(roles, permissions, a).NothingFound? then FirstStop(roles, permissions, b)
            else FirstStop(roles, permissions, a)
  {
    if a == [] {
      assert a + b == b;
    } else {
      assert (a + b)[1..] == a[1..] + b;
      FirstStopOfConcat(roles, permissions, a[1..], b);
    }
  }

  lemma {:induction false} NoStopFound(roles: TeamRoles, permissions: seq<FilePermission>, order: seq<Id>)
    requires forall id :: id in order ==> !Stops(roles, permissions, id)
    ensures FirstStop(roles, permissions, order).NothingFound?
  {
    if order != [] {
      assert order[0] in order;
      NoStopFound(roles, permissions, order[1..]);
    }
  }

  lemma ClearEmpties(roles: TeamRoles, permissions: seq<FilePermission>, ids: seq<Id>) returns (n: nat)
    requires Clear(roles, permissions, ids)
    ensures Iterate(roles, permissions, ids, n) == Some(NothingFound)
  {
    var g := Inherited(roles);
    AcyclicPathsAreShort(g, ids);
    ForestIsReachable(g, ids, |g| + 1);
    NoStopFound(roles, permissions, Forest(g, ids, |g| + 1, ids));
    IterateFollowsOrder(roles, permissions, ids, |g| + 1, ids);
    n := |Forest(g, ids, |g| + 1, ids)|;
  }

  // Without a cycle in the pruned hierarchy the walk ends.

  lemma PrunedPath(roles: TeamRoles, permissions: seq<FilePermission>, ids: seq<Id>, path: seq<Id>)
    requires PathFrom(Pruned(roles, permissions), ids, path)
    ensures PathFrom(Inherited(roles), ids, path)
  {
    forall i | 0 <= i < |path| - 1
      ensures Linked(Inherited(roles), path, i)
    {
      assert Linked(Pruned(roles, permissions), path, i);
    }
  }

  // Nothing stops in the pruned trees below roles that have no stop below them.
  lemma {:induction false} StopFreeForest(roles: TeamRoles, permissions: seq<FilePermission>, roots: seq<Id>,
                                          start: seq<Id>, bound: nat, ids: seq<Id>)
    requires StopFree(roles, permissions, roots) && AllReachable(Inherited(roles), roots, ids)
    requires PathsAtMost(Pruned(roles, permissions), start, bound)
    requires AllReachable(Pruned(roles, permissions), start, ids)
    ensures FirstStop(roles, permissions, Forest(Pruned(roles, permissions), start, bound, ids)).NothingFound?
    decreases |Forest(Pruned(roles, permissions), start, bound, ids)|
  {
    var g, p := Inherited(roles), Pruned(roles, permissions);
    if ids != [] {
      var before, last := ids[..|ids| - 1], ids[|ids| - 1];
      assert ids == before + [last];
      ExpandingLastRole(p, start, bound, before, last);
      forall child | child in Children(p, last)
        ensures Reachable(g, roots, child)
      {
        ChildReachable(g, roots, last, child);
      }
      StopFreeForest(roles, permissions, roots, start, bound, before + Children(p, last));
    }
  }

  lemma ClearSnoc(roles: TeamRoles, permissions: seq<FilePermission>, before: seq<Id>, last: Id)
    ensures Clear(roles, permissions, before + [last]) <==> Clear(roles, permissions, before) && Clear(roles, permissions, [last])
    ensures Visited(roles, permissions, before + [last]) ==
            if Clear(roles, permissions, [last]) then Visited(roles, permissions, before) + [last] else [last]
  {
    ClearParts(roles, permissions, before);
    ClearParts(roles, permissions, before + [last]);
    assert (before + [last])[..|before|] == before && last in before + [last];
    assert forall id :: id in before ==> id in before + [last];
  }

  ghost function PrunedOrder(roles: TeamRoles, permissions: seq<FilePermission>, start: seq<Id>, bound: nat, ids: seq<Id>): seq<Id>
    requires PathsAtMost(Pruned(roles, permissions), start, bound)
    requires AllReachable(Pruned(roles, permissions), start, ids)
  {
    Forest(Pruned(roles, permissions), start, bound, ids)
  }

  // Above `rest` the walk through a list leaves it behind, or reports the first stop of the order after n iterations.
  ghost predicate Decided(roles: TeamRoles, permissions: seq<FilePermission>, rest: seq<Id>, ids: seq<Id>, order: seq<Id>, n: nat) {
    var walk := FirstStop(roles, permissions, order);
    && (walk.NothingFound? <==> Clear(roles, permissions, ids))
    && (!walk.NothingFound? ==> Iterate(roles, permissions, rest + ids, n) == Some(walk))
  }

  lemma ClearLastDecided(roles: TeamRoles, permissions: seq<FilePermission>, rest: seq<Id>, before: seq<Id>, last: Id,
                         order: seq<Id>, longer: seq<Id>, n: nat) returns (m: nat)
    requires Clear(roles, permissions, [last]) && Decided(roles, permissions, rest, before, order, n)
    requires FirstStop(roles, permissions, longer) == FirstStop(roles, permissions, order)
    ensures Decided(roles, permissions, rest, before + [last], longer, m)
  {
    ClearSnoc(roles, permissions, before, last);
    var k := ClearEmpties(roles, permissions, [last]);
    m := GetsThere(roles, permissions, rest + before, [last], k, n);
    AppendAssociates(rest, before, [last]);
  }

  lemma UnclearLastDecided(roles: TeamRoles, permissions: seq<FilePermission>, rest: seq<Id>, before: seq<Id>, last: Id,
                           order: seq<Id>, n: nat)
    requires !Clear(roles, permissions, [last]) && Decided(roles, permissions, rest + before, [last], order, n)
    ensures Decided(roles, permissions, rest, before + [last], order, n)
  {
    ClearSnoc(roles, permissions, before, last);
    AppendAssociates(rest, before, [last]);
  }

  /** The walk through a list leaves it behind or reports the first stop of its depth-first order, whatever lies
      below the list on the stack. */
  lemma {:induction false} PrunedDecides(roles: TeamRoles, permissions: seq<FilePermission>, start: seq<Id>, bound: nat,
                                         rest: seq<Id>, ids: seq<Id>) returns (n: nat)
    requires PathsAtMost(Pruned(roles, permissions), start, bound)
    requires AllReachable(Pruned(roles, permissions), start, Visited(roles, permissions, ids))
    ensures Decided(roles, permissions, rest, ids,
                    PrunedOrder(roles, permissions, start, bound, Visited(roles, permissions, ids)), n)
    decreases |PrunedOrder(roles, permissions, start, bound, Visited(roles, permissions, ids))|, 1
  {
    if ids == [] {
      ClearParts(roles, permissions, ids);
      return 0;
    }
    var before, last := ids[..|ids| - 1], ids[|ids| - 1];
    assert ids == before + [last];
    ClearSnoc(roles, permissions, before, last);
    if Clear(roles, permissions, [last]) {
      ClearLastDecides(roles, permissions, start, bound, before, last);
      n := PrunedDecides(roles, permissions, start, bound, rest, before);
      n := ClearLastDecided(roles, permissions, rest, before, last,
                       PrunedOrder(roles, permissions, start, bound, Visited(roles, permissions, before)),
                       PrunedOrder(roles, permissions, start, bound, Visited(roles, permissions, ids)), n);
    } else {
      n := UnclearDecides(roles, permissions, start, bound, rest + before, last);
      UnclearLastDecided(roles, permissions, rest, before, last, PrunedOrder(roles, permissions, start, bound, [last]), n);
    }
  }

  lemma ClearLastDecides(roles: TeamRoles, permissions: seq<FilePermission>, start: seq<Id>, bound: nat, before: seq<Id>, last: Id)
    requires PathsAtMost(Pruned(roles, permissions), start, bound) && Clear(roles, permissions, [last])
    requires AllReachable(Pruned(roles, permissions), start, Visited(roles, permissions, before) + [last])
    ensures AllReachable(Pruned(roles, permissions), start, Visited(roles, permissions, before))
    ensures var p, visited := Pruned(roles, permissions), Visited(roles, permissions, before);
            && |PrunedOrder(roles, permissions, start, bound, visited)| < |PrunedOrder(roles, permissions, start, bound, visited + [last])|
            && FirstStop(roles, permissions, PrunedOrder(roles, permissions, start, bound, visited + [last])) ==
               FirstStop(roles, permissions, PrunedOrder(roles, permissions, start, bound, visited))
  {
    var p, visited := Pruned(roles, permissions), Visited(roles, permissions, before);
    ForestOfSnoc(p, start, bound, visited, last);
    RootsReachable(Inherited(roles), [last], last);
    StopFreeForest(roles, permissions, [last], start, bound, [last]);
    FirstStopOfConcat(roles, permissions, Forest(p, start, bound, [last]), PrunedOrder(roles, permissions, start, bound, visited));
  }

  lemma ForestOfSnoc(g: Graph, roots: seq<Id>, bound: nat, before: seq<Id>, last: Id)
    requires PathsAtMost(g, roots, bound) && AllReachable(g, roots, before + [last])
    ensures AllReachable(g, roots, before) && AllReachable(g, roots, [last])
    ensures Forest(g, roots, bound, before + [last]) == Forest(g, roots, bound, [last]) + Forest(g, roots, bound, before)
    ensures |Forest(g, roots, bound, [last])| > 0
  {
    assert last in before + [last] && forall id :: id in before ==> id in before + [last];
    ForestOfConcat(g, roots, bound, before, [last]);
    ForestOfOne(g, roots, bound, last);
  }

  lemma {:induction false} UnclearDecides(roles: TeamRoles, permissions: seq<FilePermission>, start: seq<Id>, bound: nat,
                                          rest: seq<Id>, last: Id) returns (n: nat)
    requires PathsAtMost(Pruned(roles, permissions), start, bound)
    requires AllReachable(Pruned(roles, permissions), start, [last]) && !Clear(roles, permissions, [last])
    ensures Decided(roles, permissions, rest, [last], PrunedOrder(roles, permissions, start, bound, [last]), n)
    decreases |PrunedOrder(roles, permissions, start, bound, [last])|, 0
  {
    var p := Pruned(roles, permissions);
    assert last in [last];
    ForestOfOne(p, start, bound, last);
    var below := Forest(p, start, bound, Children(p, last));
    if Stops(roles, permissions, last) {
      OneIteration(roles, permissions, rest, last, 0);
      n := 1;
    } else {
      n := PrunedDecides(roles, permissions, start, bound, rest, Children(Inherited(roles), last));
      ParentDecided(roles, permissions, rest, last, below, n);
      n := n + 1;
    }
  }

  lemma ParentDecided(roles: TeamRoles, permissions: seq<FilePermission>, rest: seq<Id>, id: Id, below: seq<Id>, n: nat)
    requires !Stops(roles, permissions, id) && !Clear(roles, permissions, [id])
    requires Decided(roles, permissions, rest, Children(Inherited(roles), id), below, n)
    ensures Decided(roles, permissions, rest, [id], [id] + below, n + 1)
  {
    if Clear(roles, permissions, Children(Inherited(roles), id)) {
      ClearFromChildren(roles, permissions, id);
    }
    OneIteration(roles, permissions, rest, id, n);
    assert ([id] + below)[1..] == below;
  }

  lemma DecidedAlone(roles: TeamRoles, permissions: seq<FilePermission>, role: Id, order: seq<Id>, n: nat) returns (m: nat)
    requires Decided(roles, permissions, [], [role], order, n)
    ensures Iterate(roles, permissions, [role], m) == Some(FirstStop(roles, permissions, order))
  {
    assert [] + [role] == [role];
    m := n;
    if Clear(roles, permissions, [role]) {
      m := ClearEmpties(roles, permissions, [role]);
    }
  }

  lemma AcyclicPrunedEnds(roles: TeamRoles, permissions: seq<FilePermission>, role: Id) returns (n: nat)
    requires !Cyclic(Pruned(roles, permissions), [role])
    ensures Iterate(roles, permissions, [role], n) == Some(FirstStop(roles, permissions, Order(roles, permissions, role)))
    ensures FirstStop(roles, permissions, Order(roles, permissions, role)).NothingFound? <==> Clear(roles, permissions, [role])
  {
    var p := Pruned(roles, permissions);
    AcyclicPathsAreShort(p, [role]);
    ForestIsReachable(p, [role], |p| + 1);
    ClearSnoc(roles, permissions, [], role);
    assert [] + [role] == [role];
    n := PrunedDecides(roles, permissions, [role], |p| + 1, [], [role]);
    n := DecidedAlone(roles, permissions, role, Order(roles, permissions, role), n);
  }

  // A walk that ends has no cycle ahead of it.

  lemma {:induction false} VisitedIsAhead(roles: TeamRoles, permissions: seq<FilePermission>, ids: seq<Id>, id: Id) returns (i: nat)
    requires id in Visited(roles, permissions, ids)
    ensures i < |ids| && ids[i] == id && Clear(roles, permissions, ids[i + 1..])
  {
    var before, last := ids[..|ids| - 1], ids[|ids| - 1];
    if id == last {
      i := |ids| - 1;
      ClearParts(roles, permissions, []);
      assert ids[i + 1..] == [];
    } else {
      i := VisitedIsAhead(roles, permissions, before, id);
      ClearParts(roles, permissions, before[i + 1..]);
      assert ids[i + 1..] == before[i + 1..] + [last];
      ClearParts(roles, permissions, ids[i + 1..]);
    }
  }

  lemma PrunedChild(roles: TeamRoles, permissions: seq<FilePermission>, id: Id, child: Id)
    requires child in Children(Pruned(roles, permissions), id)
    ensures !Stops(roles, permissions, id) && child in Visited(roles, permissions, Children(Inherited(roles), id))
  {
  }

  // A walk that ends gets from a role to each of its children in the pruned hierarchy, in fewer iterations.
  lemma ChildIsReached(roles: TeamRoles, permissions: seq<FilePermission>, rest: seq<Id>, id: Id, child: Id, n: nat)
    returns (below: seq<Id>, k: nat)
    requires !Stops(roles, permissions, id) && child in Visited(roles, permissions, Children(Inherited(roles), id))
    requires Iterate(roles, permissions, rest + [id], n).Some?
    ensures k < n && Iterate(roles, permissions, below + [child], k).Some?
  {
    var ids := Children(Inherited(roles), id);
    OneIteration(roles, permissions, rest, id, n - 1);
    var i := VisitedIsAhead(roles, permissions, ids, child);
    k := AheadIsReached(roles, permissions, rest, ids, i, n - 1);
    below := rest + ids[..i];
  }

  lemma {:induction false} EndingBoundsPaths(roles: TeamRoles, permissions: seq<FilePermission>, rest: seq<Id>, n: nat, path: seq<Id>)
    requires Path(Pruned(roles, permissions), path)
    requires Iterate(roles, permissions, rest + [path[0]], n).Some?
    ensures |path| <= n
    decreases n
  {
    if |path| > 1 {
      assert Linked(Pruned(roles, permissions), path, 0);
      PrunedChild(roles, permissions, path[0], path[1]);
      var below, k := ChildIsReached(roles, permissions, rest, path[0], path[1], n);
      PathPart(Pruned(roles, permissions), path, 1, |path|);
      EndingBoundsPaths(roles, permissions, below, k, path[1..|path|]);
    }
  }

  // A walk that ends gets past the clear end of a list.
  lemma AheadIsReached(roles: TeamRoles, permissions: seq<FilePermission>, rest: seq<Id>, ids: seq<Id>, i: nat, n: nat) returns (k: nat)
    requires i < |ids| && Clear(roles, permissions, ids[i + 1..])
    requires Iterate(roles, permissions, rest + ids, n).Some?
    ensures k <= n && Iterate(roles, permissions, rest + ids[..i] + [ids[i]], k).Some?
  {
    var lower, clear := rest + ids[..i] + [ids[i]], ids[i + 1..];
    assert rest + ids == lower + clear;
    var m := ClearEmpties(roles, permissions, clear);
    k := GetsPast(roles, permissions, lower, clear, m, n);
  }

  /** When the loop ends: if and only if there is no cycle among the roles it can get to, that is, along roles without
      an entry and past later inherited roles below which there is neither a stop nor a cycle. */
  lemma WalkEndsIff(roles: TeamRoles, permissions: seq<FilePermission>, role: Id)
    ensures Ends(roles, permissions, role) <==> !Cyclic(Pruned(roles, permissions), [role])
  {
    var p := Pruned(roles, permissions);
    if n: nat :| Iterate(roles, permissions, [role], n).Some? {
      forall path | PathFrom(p, [role], path)
        ensures |path| <= n
      {
        assert [] + [path[0]] == [role];
        EndingBoundsPaths(roles, permissions, [], n, path);
      }
      assert PathsAtMost(p, [role], n);
      AcyclicIffBounded(p, [role]);
    }
    if !Cyclic(p, [role]) {
      var n := AcyclicPrunedEnds(roles, permissions, role);
    }
  }

  /** On acyclic hierarchies the walk always ends; where nothing stops it, only on these. */
  lemma WalkEndsIffAcyclic(roles: TeamRoles, permissions: seq<FilePermission>, role: Id)
    ensures !Cyclic(Inherited(roles), [role]) ==> Ends(roles, permissions, role)
    ensures (forall id :: Reachable(Inherited(roles), [role], id) ==> !Stops(roles, permissions, id)) ==>
              (Ends(roles, permissions, role) <==> !Cyclic(Inherited(roles), [role]))
  {
    var p := Pruned(roles, permissions);
    WalkEndsIff(roles, permissions, role);
    if Cyclic(p, [role]) {
      var path :| PathFrom(p, [role], path) && Repeats(path);
      PrunedPath(roles, permissions, [role], path);
    } else {
      var n := AcyclicPrunedEnds(roles, permissions, role);
      ReportIsReachable(roles, permissions, role);
    }
  }

  // What is reported is a role that stops the walk and is inherited.
  lemma ReportIsReachable(roles: TeamRoles, permissions: seq<FilePermission>, role: Id)
    requires !Cyclic(Pruned(roles, permissions), [role])
    ensures !FirstStop(roles, permissions, Order(roles, permissions, role)).NothingFound? ==>
              exists id :: Reachable(Inherited(roles), [role], id) && Stops(roles, permissions, id)
  {
    var p, order := Pruned(roles, permissions), Order(roles, permissions, role);
    AcyclicPathsAreShort(p, [role]);
    ForestIsReachable(p, [role], |p| + 1);
    FirstStopIsFirst(roles, permissions, order);
    if !FirstStop(roles, permissions, order).NothingFound? {
      var k: nat :| FirstStopAt(roles, permissions, order, k);
      assert order[k] in order && Reachable(p, [role], order[k]);
      var path :| PathFrom(p, [role], path) && path[|path| - 1] == order[k];
      PrunedPath(roles, permissions, [role], path);
      assert Reachable(Inherited(roles), [role], order[k]);
    }
  }

  /** The walk comes back empty-handed if and only if every inherited role is stored and none has an entry. */
  lemma NothingFoundIffNoEntry(roles: TeamRoles, permissions: seq<FilePermission>, role: Id)
    requires !Cyclic(Pruned(roles, permissions), [role])
    ensures FirstStop(roles, permissions, Order(roles, permissions, role)).NothingFound? <==>
            forall id :: Reachable(Inherited(roles), [role], id) ==>
              id in roles && forall e :: e in permissions ==> e.refId != id
  {
    var n := AcyclicPrunedEnds(roles, permissions, role);
    ReportIsReachable(roles, permissions, role);
    forall id
      ensures Stops(roles, permissions, id) <==> id !in roles || exists e :: e in permissions && e.refId == id
    {
      StopsMeans(roles, permissions, id);
    }
  }

  /** Where nothing inherits from itself, what is reported is the first stop in the depth-first order of everything
      inherited, later roles of a list first. */
  lemma ReportIsFirstInDepthFirstOrder(roles: TeamRoles, permissions: seq<FilePermission>, role: Id)
    requires !Cyclic(Inherited(roles), [role])
    ensures !Cyclic(Pruned(roles, permissions), [role])
    ensures var g := Inherited(roles);
            && PathsAtMost(g, [role], |g| + 1) && AllReachable(g, [role], [role])
            && FirstStop(roles, permissions, Order(roles, permissions, role)) ==
                 FirstStop(roles, permissions, Forest(g, [role], |g| + 1, [role]))
  {
    var g := Inherited(roles);
    WalkEndsIffAcyclic(roles, permissions, role);
    WalkEndsIff(roles, permissions, role);
    AcyclicPathsAreShort(g, [role]);
    ForestIsReachable(g, [role], |g| + 1);
    var n := AcyclicPrunedEnds(roles, permissions, role);
    IterateFollowsOrder(roles, permissions, [role], |g| + 1, [role]);
    OneReport(roles, permissions, [role], n, |Forest(g, [role], |g| + 1, [role])|);
  }

  lemma OneReport(roles: TeamRoles, permissions: seq<FilePermission>, stack: seq<Id>, n: nat, m: nat)
    requires Iterate(roles, permissions, stack, n).Some? && Iterate(roles, permissions, stack, m).Some?
    ensures Iterate(roles, permissions, stack, n) == Iterate(roles, permissions, stack, m)
  {
    MoreIterations(roles, permissions, stack, n, n + m);
    MoreIterations(roles, permissions, stack, m, n + m);
  }

  const OWN_CYCLE: TeamRoles := map["b" := None, "c" := Some(["c"])]

  lemma EntryForB(granted: set<Action>)
    ensures var entries := [FilePermission("b", granted)];
            FirstEntry(entries, "a").None? && FirstEntry(entries, "c").None? && FirstEntry(entries, "b") == Some(entries[0])
  {
    var entry := FilePermission("b", granted);
    assert "a"[0] != "b"[0] && "c"[0] != "b"[0];
    OneEntry(entry, "a");
    OneEntry(entry, "b");
    OneEntry(entry, "c");
  }

  /** A cycle alone does not decide.  With an entry for b, and c inheriting from itself, the walk from a role that
      inherits c and then b ends at b. */
  lemma CycleBehindEntryIsHarmless(granted: set<Action>)
    ensures var entries := [FilePermission("b", granted)];
            Iterate(OWN_CYCLE["a" := Some(["c", "b"])], entries, ["a"], 2) == Some(Found(entries[0]))
  {
    var entries, roles := [FilePermission("b", granted)], OWN_CYCLE["a" := Some(["c", "b"])];
    EntryForB(granted);
    OneIteration(roles, entries, [], "a", 1);
    OneIteration(roles, entries, ["c"], "b", 0);
    assert [] + ["a"] == ["a"] && [] + ["c", "b"] == ["c"] + ["b"];
  }

  /** From a role that inherits b and then c it never ends, although b has an entry. */
  lemma EntryBehindCycleIsNotFound(granted: set<Action>)
    ensures !Ends(OWN_CYCLE["a" := Some(["b", "c"])], [FilePermission("b", granted)], "a")
  {
    var entries, roles := [FilePermission("b", granted)], OWN_CYCLE["a" := Some(["b", "c"])];
    EntryForB(granted);
    forall n: nat
      ensures Iterate(roles, entries, ["a"], n).None?
    {
      if n > 0 {
        OneIteration(roles, entries, [], "a", n - 1);
        assert [] + ["a"] == ["a"] && [] + ["b", "c"] == ["b", "c"];
        StackStays(roles, entries, n - 1);
      }
    }
  }

  lemma OneEntry(entry: FilePermission, id: Id)
    ensures FirstEntry([entry], id) == if entry.refId == id then Some(entry) else None
  {
    assert [entry][1..] == [];
  }

  lemma {:induction false} StackStays(roles: TeamRoles, permissions: seq<FilePermission>, n: nat)
    requires Children(Inherited(roles), "c") == ["c"] && !Stops(roles, permissions, "c")
    ensures Iterate(roles, permissions, ["b", "c"], n).None?
  {
    if n > 0 {
      OneIteration(roles, permissions, ["b"], "c", n - 1);
      assert ["b"] + ["c"] == ["b", "c"];
      StackStays(roles, permissions, n - 1);
    }
  }

  // The loop, wherever it ends within n iterations.
  method TestRoles(roles: TeamRoles, permissions: seq<FilePermission>, role: Id, ghost n: nat) returns (walk: Walk)
    requires Iterate(roles, permissions, [role], n).Some?
    ensures Iterate(roles, permissions, [role], n) == Some(walk)
  {
    ghost var ahead := n;
    var rolesToTest := [role];
    var rolePermissions: Option<FilePermission> := None;
    while |rolesToTest| > 0 && rolePermissions.None?
      invariant rolePermissions.None? ==>
                  Iterate(roles, permissions, rolesToTest, ahead) == Iterate(roles, permissions, [role], n)
      invariant rolePermissions.Some? ==> Iterate(roles, permissions, [role], n) == Some(Found(rolePermissions.value))
      decreases if rolePermissions.None? then ahead + 1 else 0
    {
      var roleId := rolesToTest[|rolesToTest| - 1];
      rolesToTest := rolesToTest[..|rolesToTest| - 1];
      rolePermissions := FirstEntry(permissions, roleId);
      if roleId !in roles {
        return UnknownRole;
      }
      rolesToTest := rolesToTest + (if roles[roleId].Some? then roles[roleId].value else []);
      ahead := ahead - 1;
    }
    walk := if rolePermissions.Some? then Found(rolePermissions.value) else NothingFound;
  }

  /** The walk, on all hierarchies on which its loop ends: it reports the first stop of the depth-first order. */
  method WalkRoles(roles: TeamRoles, permissions: seq<FilePermission>, role: Id) returns (walk: Walk)
    requires !Cyclic(Pruned(roles, permissions), [role])
    ensures walk == FirstStop(roles, permissions, Order(roles, permissions, role))
  {
    ghost var n := AcyclicPrunedEnds(roles, permissions, role);
    walk := TestRoles(roles, permissions, role, n);
  }

  lemma {:induction false} FirstEntryIsFirst(permissions: seq<FilePermission>, id: Id)
    ensures match FirstEntry(permissions, id)
            case None => forall e :: e in permissions ==> e.refId != id
            case Some(entry) => exists i :: 0 <= i < |permissions| && permissions[i] == entry && entry.refId == id
                                  && forall j :: 0 <= j < i ==> permissions[j].refId != id
  {
    if permissions != [] && permissions[0].refId != id {
      FirstEntryIsFirst(permissions[1..], id);
      if FirstEntry(permissions, id).Some? {
        var i :| 0 <= i < |permissions[1..]| && permissions[1..][i] == FirstEntry(permissions, id).value
          && forall j :: 0 <= j < i ==> permissions[1..][j].refId != id;
        assert permissions[i + 1] == FirstEntry(permissions, id).value;
        forall j | 0 <= j < i + 1
          ensures permissions[j].refId != id
        {
          assert j > 0 ==> permissions[1..][j - 1] == permissions[j];
        }
      }
    }
  }

  lemma {:induction false} FirstStopIsFirst(roles: TeamRoles, permissions: seq<FilePermission>, order: seq<Id>)
    ensures match FirstStop(roles, permissions, order)
            case NothingFound => forall id :: id in order ==> !Stops(roles, permissions, id)
            case UnknownRole => exists k: nat :: FirstStopAt(roles, permissions, order, k) && order[k] !in roles
            case Found(entry) => exists k: nat :: FirstStopAt(roles, permissions, order, k) && order[k] in roles
                                   && FirstEntry(permissions, order[k]) == Some(entry)
  {
    if order != [] {
      if Stops(roles, permissions, order[0]) {
        assert FirstStopAt(roles, permissions, order, 0);
      } else {
        FirstStopIsFirst(roles, permissions, order[1..]);
        if !FirstStop(roles, permissions, order).NothingFound? {
          var k: nat :| FirstStopAt(roles, permissions, order[1..], k)
            && match FirstStop(roles, permissions, order)
               case UnknownRole => order[1..][k] !in roles
               case Found(entry) => order[1..][k] in roles && FirstEntry(permissions, order[1..][k]) == Some(entry)
               case NothingFound => false;
          FirstStopShifts(roles, permissions, order, k);
          assert FirstStopAt(roles, permissions, order, k + 1);
        }
      }
    }
  }

  predicate FirstStopAt(roles: TeamRoles, permissions: seq<FilePermission>, order: seq<Id>, k: nat) {
    k < |order| && Stops(roles, permissions, order[k]) && forall i :: 0 <= i < k ==> !Stops(roles, permissions, order[i])
  }

  lemma FirstStopShifts(roles: TeamRoles, permissions: seq<FilePermission>, order: seq<Id>, k: nat)
    requires order != [] && !Stops(roles, permissions, order[0])
    requires FirstStopAt(roles, permissions, order[1..], k)
    ensures FirstStopAt(roles, permissions, order, k + 1) && order[k + 1] == order[1..][k]
  {
    forall i | 0 <= i < k + 1
      ensures !Stops(roles, permissions, order[i])
    {
      assert i > 0 ==> order[1..][i - 1] == order[i];
    }
  }

  lemma StopsMeans(roles: TeamRoles, permissions: seq<FilePermission>, id: Id)
    ensures Stops(roles, permissions, id) <==> id !in roles || exists e :: e in permissions && e.refId == id
  {
    FirstEntryIsFirst(permissions, id);
  }

  /** The decision.  Positions come from the ranking of the team roles; `creatorPos` is missing when the file's
      creator is not a member of the owning team.  Everything but `true` is a rejection. */
  method CheckTeamPermission(roles: TeamRoles, permissions: seq<FilePermission>, role: Id,
                             userPos: int, creatorPos: Option<int>, action: Action) returns (allowed: bool)
    requires !Cyclic(Pruned(roles, permissions), [role])
    ensures allowed <==>
      && creatorPos.Some?
      && !FirstStop(roles, permissions, Order(roles, permissions, role)).UnknownRole?
      && (userPos > creatorPos.value ||
          exists entry :: FirstStop(roles, permissions, Order(roles, permissions, role)) == Found(entry) && action in entry.granted)
  {
    var walk := WalkRoles(roles, permissions, role);
    if walk.UnknownRole? || creatorPos.None? {
      return false;
    }
    if userPos > creatorPos.value {
      return true;
    }
    // reading the permission of a missing entry throws
    return walk.Found? && action in walk.entry.granted;
  }
}
