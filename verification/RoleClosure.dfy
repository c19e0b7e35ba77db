/** Resolving the permissions of a list of roles: asynchronous lookups that fill one shared set, every
    answer starting the lookups of the inherited roles.  One step is one answer, and a schedule picks which of
    the pending lookups answers next. */
module RoleClosure {
  import opened RoleGraphs

  type Permission = string
  datatype Role = Role(permissions: seq<Permission>, roles: seq<Id>)
  type Roles = map<Id, Role>

  function Inherits(db: Roles): Graph {
    map id | id in db :: db[id].roles
  }

  /** How the visited list compares ids.  Ids read from different documents are different
      objects, so comparing them by identity never finds one; comparing by value is what the list is meant for. */
  datatype Comparison = ByIdentity | ByValue

  datatype Resolution = Resolution(
    pending: seq<Id>,               // lookups without an answer
    processed: seq<Id>,             // the visited list
    permissions: set<Permission>,
    answered: set<Id>,
    failed: bool)                   // some lookup rejected, and with it the joint promise

  // The roots themselves are not marked as visited.
  function Start(roots: seq<Id>): Resolution {
    Resolution(roots, [], {}, {}, false)
  }

  // The filter runs over the whole list before anything is marked, so duplicates in one list all pass.
  function ToVisit(c: Comparison, ids: seq<Id>, processed: seq<Id>): seq<Id> {
    if c.ByIdentity? || ids == [] then ids
    else (if ids[0] in processed then [] else [ids[0]]) + ToVisit(c, ids[1..], processed)
  }

  function Without(ids: seq<Id>, i: nat): seq<Id>
    requires i < |ids|
  {
    ids[..i] + ids[i + 1..]
  }

  function Answer(db: Roles, c: Comparison, r: Resolution, i: nat): Resolution
    requires i < |r.pending|
  {
    var id := r.pending[i];
    var rest := Without(r.pending, i);
    if id !in db then
      r.(pending := rest, answered := r.answered + {id}, failed := true)
    else
      var next := ToVisit(c, db[id].roles, r.processed);
      Resolution(rest + next, r.processed + next, r.permissions + (set p | p in db[id].permissions),
                 r.answered + {id}, r.failed)
  }

  predicate Schedule(db: Roles, c: Comparison, r: Resolution, picks: seq<nat>)
    decreases |picks|
  {
    picks == [] || (picks[0] < |r.pending| && Schedule(db, c, Answer(db, c, r, picks[0]), picks[1..]))
  }

  function Resolve(db: Roles, c: Comparison, r: Resolution, picks: seq<nat>): Resolution
    requires Schedule(db, c, r, picks)
    decreases |picks|
  {
    if picks == [] then r else Resolve(db, c, Answer(db, c, r, picks[0]), picks[1..])
  }

  // What the resolution should compute.

  ghost predicate Dangling(db: Roles, roots: seq<Id>) {
    exists id :: Reachable(Inherits(db), roots, id) && id !in db
  }

  ghost predicate Grants(db: Roles, roots: seq<Id>, p: Permission) {
    exists id :: Reachable(Inherits(db), roots, id) && id in db && p in db[id].permissions
  }

  ghost predicate Inv(db: Roles, roots: seq<Id>, r: Resolution) {
    && AllReachable(Inherits(db), roots, r.pending)
    && (forall id :: id in r.answered ==> Reachable(Inherits(db), roots, id))
    && (forall id :: id in roots || id in r.processed ==> id in r.pending || id in r.answered)
    && (forall id, child :: id in r.answered && child in Children(Inherits(db), id) ==>
          child in r.pending || child in r.answered)
    && (r.failed <==> exists id :: id in r.answered && id !in db)
    && (forall p :: p in r.permissions <==> exists id :: id in r.answered && id in db && p in db[id].permissions)
  }

  lemma {:induction false} ToVisitKeepsTheRest(c: Comparison, ids: seq<Id>, processed: seq<Id>)
    ensures forall id :: id in ToVisit(c, ids, processed) ==> id in ids
    ensures forall id :: id in ids ==> id in processed || id in ToVisit(c, ids, processed)
    ensures c.ByValue? ==> forall id :: id in ToVisit(c, ids, processed) ==> id !in processed
    ensures |ToVisit(c, ids, processed)| <= |ids|
    decreases |ids|
  {
    if ids != [] {
      ToVisitKeepsTheRest(c, ids[1..], processed);
    }
  }

  lemma WithoutKeepsTheRest(ids: seq<Id>, i: nat)
    requires i < |ids|
    ensures forall id :: id in Without(ids, i) ==> id in ids
    ensures forall id :: id in ids ==> id == ids[i] || id in Without(ids, i)
  {
    assert ids == ids[..i] + [ids[i]] + ids[i + 1..];
  }

  lemma AnswerKeepsInv(db: Roles, c: Comparison, roots: seq<Id>, r: Resolution, i: nat)
    requires Inv(db, roots, r) && i < |r.pending|
    ensures Inv(db, roots, Answer(db, c, r, i))
  {
    var id := r.pending[i];
    var r' := Answer(db, c, r, i);
    WithoutKeepsTheRest(r.pending, i);
    if id in db {
      var next := ToVisit(c, db[id].roles, r.processed);
      ToVisitKeepsTheRest(c, db[id].roles, r.processed);
      assert Children(Inherits(db), id) == db[id].roles;
      forall x | x in r'.pending
        ensures Reachable(Inherits(db), roots, x)
      {
        if x in next {
          ChildReachable(Inherits(db), roots, id, x);
        }
      }
      assert forall x :: x in r.pending ==> x in r'.pending || x in r'.answered;
    }
  }

  lemma {:induction false} ResolveKeepsInv(db: Roles, c: Comparison, roots: seq<Id>, r: Resolution, picks: seq<nat>)
    requires Inv(db, roots, r) && Schedule(db, c, r, picks)
    ensures Inv(db, roots, Resolve(db, c, r, picks))
    decreases |picks|
  {
    if picks != [] {
      AnswerKeepsInv(db, c, roots, r, picks[0]);
      ResolveKeepsInv(db, c, roots, Answer(db, c, r, picks[0]), picks[1..]);
    }
  }

  lemma StartInv(db: Roles, roots: seq<Id>)
    ensures Inv(db, roots, Start(roots))
  {
    forall id | id in roots
      ensures Reachable(Inherits(db), roots, id)
    {
      RootsReachable(Inherits(db), roots, id);
    }
  }

  lemma DoneMeansAnswered(db: Roles, roots: seq<Id>, r: Resolution)
    requires Inv(db, roots, r) && r.pending == []
    ensures r.failed <==> Dangling(db, roots)
    ensures forall p :: p in r.permissions <==> Grants(db, roots, p)
  {
    forall id | Reachable(Inherits(db), roots, id)
      ensures id in r.answered
    {
      var path :| PathFrom(Inherits(db), roots, path) && path[|path| - 1] == id;
      ClosedSetHoldsPath(Inherits(db), roots, r.answered, path);
    }
  }

  /** For every role graph, cyclic or not, and every order in which the lookups answer: a finished
      resolution has collected exactly the permissions of the roles reachable from the roots, and it has
      failed exactly when one of these roles does not exist. */
  lemma ResolvesToClosure(db: Roles, c: Comparison, roots: seq<Id>, picks: seq<nat>)
    requires Schedule(db, c, Start(roots), picks)
    requires Resolve(db, c, Start(roots), picks).pending == []
    ensures var r := Resolve(db, c, Start(roots), picks);
            && (r.failed <==> Dangling(db, roots))
            && (forall p :: p in r.permissions <==> Grants(db, roots, p))
  {
    StartInv(db, roots);
    ResolveKeepsInv(db, c, roots, Start(roots), picks);
    DoneMeansAnswered(db, roots, Resolve(db, c, Start(roots), picks));
  }

  // Termination when ids are compared by value.

  function Mentioned(db: Roles): set<Id> {
    set id, child | id in db && child in db[id].roles :: child
  }

  ghost predicate ListsAtMost(db: Roles, limit: nat) {
    forall id :: id in db ==> |db[id].roles| <= limit
  }

  function Elements(ids: seq<Id>): set<Id> {
    set id | id in ids
  }

  // Every batch of new lookups marks at least one role that was not marked before.
  ghost predicate Counted(db: Roles, roots: seq<Id>, limit: nat, r: Resolution, steps: nat) {
    && Elements(r.processed) <= Mentioned(db)
    && |r.processed| <= |Elements(r.processed)| * limit
    && steps + |r.pending| <= |roots| + |r.processed|
  }

  lemma AnswerCounts(db: Roles, roots: seq<Id>, limit: nat, r: Resolution, steps: nat, i: nat)
    requires ListsAtMost(db, limit) && Counted(db, roots, limit, r, steps) && i < |r.pending|
    ensures Counted(db, roots, limit, Answer(db, ByValue, r, i), steps + 1)
  {
    var id := r.pending[i];
    if id in db {
      var next := ToVisit(ByValue, db[id].roles, r.processed);
      ToVisitKeepsTheRest(ByValue, db[id].roles, r.processed);
      var marked, marked' := Elements(r.processed), Elements(r.processed + next);
      assert forall x :: x in next ==> x in Mentioned(db);
      if next != [] {
        assert marked + {next[0]} <= marked';
        assert |marked + {next[0]}| == |marked| + 1;
        SubsetIsSmaller(marked + {next[0]}, marked');
        ProductGrows(|marked|, |marked'|, limit);
      } else {
        assert r.processed + next == r.processed;
      }
    }
  }

  lemma {:induction false} SubsetIsSmaller(a: set<Id>, b: set<Id>)
    requires a <= b
    ensures |a| <= |b|
  {
    if a != {} {
      var x :| x in a;
      SubsetIsSmaller(a - {x}, b - {x});
    }
  }

  lemma {:induction false} ProductGrows(a: nat, b: nat, limit: nat)
    requires a < b
    ensures a * limit + limit <= b * limit
  {
    if a + 1 < b {
      ProductGrows(a, b - 1, limit);
    }
  }

  lemma {:induction false} ScheduleCounts(db: Roles, roots: seq<Id>, limit: nat, r: Resolution, steps: nat, picks: seq<nat>)
    requires ListsAtMost(db, limit) && Counted(db, roots, limit, r, steps) && Schedule(db, ByValue, r, picks)
    ensures Counted(db, roots, limit, Resolve(db, ByValue, r, picks), steps + |picks|)
    decreases |picks|
  {
    if picks != [] {
      AnswerCounts(db, roots, limit, r, steps, picks[0]);
      ScheduleCounts(db, roots, limit, Answer(db, ByValue, r, picks[0]), steps + 1, picks[1..]);
    }
  }

  /** Compared by value, the visited list bounds every schedule, on cyclic graphs as well. */
  lemma ByValueTerminates(db: Roles, roots: seq<Id>, limit: nat, picks: seq<nat>)
    requires ListsAtMost(db, limit) && Schedule(db, ByValue, Start(roots), picks)
    ensures |picks| <= |roots| + |Mentioned(db)| * limit
  {
    assert Elements([]) == {};
    ScheduleCounts(db, roots, limit, Start(roots), 0, picks);
    var r := Resolve(db, ByValue, Start(roots), picks);
    SubsetIsSmaller(Elements(r.processed), Mentioned(db));
    if |Elements(r.processed)| < |Mentioned(db)| {
      ProductGrows(|Elements(r.processed)|, |Mentioned(db)|, limit);
    }
  }

  // Termination when ids are compared by identity.

  lemma {:induction false} IdentityUnfolds(db: Roles, roots: seq<Id>, bound: nat, r: Resolution, picks: seq<nat>)
    requires var g := Inherits(db); PathsAtMost(g, roots, bound) && AllReachable(g, roots, r.pending)
    requires Schedule(db, ByIdentity, r, picks)
    ensures AllReachable(Inherits(db), roots, Resolve(db, ByIdentity, r, picks).pending)
    ensures |Forest(Inherits(db), roots, bound, r.pending)| ==
            |picks| + |Forest(Inherits(db), roots, bound, Resolve(db, ByIdentity, r, picks).pending)|
    decreases |picks|
  {
    if picks != [] {
      var g, i := Inherits(db), picks[0];
      assert r.pending == r.pending[..i] + [r.pending[i]] + r.pending[i + 1..];
      ExpandingOneRole(g, roots, bound, r.pending[..i], r.pending[i], r.pending[i + 1..]);
      var r' := Answer(db, ByIdentity, r, i);
      assert r'.pending == r.pending[..i] + r.pending[i + 1..] + Children(g, r.pending[i]);
      IdentityUnfolds(db, roots, bound, r', picks[1..]);
    }
  }

  // Some schedule looks up the roles of a path one after the other.
  lemma {:induction false} PathIsScheduled(db: Roles, r: Resolution, path: seq<Id>) returns (picks: seq<nat>)
    requires Path(Inherits(db), path) && path[0] in r.pending
    ensures |picks| == |path| && Schedule(db, ByIdentity, r, picks)
    decreases |path|
  {
    var i :| 0 <= i < |r.pending| && r.pending[i] == path[0];
    if |path| == 1 {
      picks := [i];
    } else {
      var r' := Answer(db, ByIdentity, r, i);
      assert Linked(Inherits(db), path, 0) && path[1] in db[path[0]].roles;
      PathPart(Inherits(db), path, 1, |path|);
      assert path[1..|path|] == path[1..];
      var rest := PathIsScheduled(db, r', path[1..]);
      picks := [i] + rest;
      assert picks[1..] == rest;
    }
  }

  ghost predicate SchedulesAtMost(db: Roles, c: Comparison, roots: seq<Id>, bound: nat) {
    forall picks :: Schedule(db, c, Start(roots), picks) ==> |picks| <= bound
  }

  /** Compared by identity, as the code does, the number of lookups is bounded if and only if no
      role reachable from the roots inherits from itself. */
  lemma ByIdentityTerminatesIffAcyclic(db: Roles, roots: seq<Id>)
    ensures (exists bound :: SchedulesAtMost(db, ByIdentity, roots, bound)) <==> !Cyclic(Inherits(db), roots)
  {
    var g := Inherits(db);
    if !Cyclic(g, roots) {
      AcyclicPathsAreShort(g, roots);
      StartInv(db, roots);
      forall picks | Schedule(db, ByIdentity, Start(roots), picks)
        ensures |picks| <= |Forest(g, roots, |g| + 1, roots)|
      {
        IdentityUnfolds(db, roots, |g| + 1, Start(roots), picks);
      }
      assert SchedulesAtMost(db, ByIdentity, roots, |Forest(g, roots, |g| + 1, roots)|);
    }
    if bound: nat :| SchedulesAtMost(db, ByIdentity, roots, bound) {
      forall path | PathFrom(g, roots, path)
        ensures |path| <= bound
      {
        var picks := PathIsScheduled(db, Start(roots), path);
      }
      assert PathsAtMost(g, roots, bound);
      AcyclicIffBounded(g, roots);
    }
  }

  /** A role that inherits from itself is looked up without end when ids are compared by identity. */
  lemma SelfInheritanceIsUnbounded(id: Id, permissions: seq<Permission>, bound: nat)
    ensures !SchedulesAtMost(map[id := Role(permissions, [id])], ByIdentity, [id], bound)
  {
    var db := map[id := Role(permissions, [id])];
    var g, path := Inherits(db), [id, id];
    assert Linked(g, path, 0) && PathFrom(g, [id], path);
    assert path[0] == path[1] && Repeats(path);
    ByIdentityTerminatesIffAcyclic(db, [id]);
  }
}
