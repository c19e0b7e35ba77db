/** The role store with its permission cache: which writes clear the cache, and how old an answer can be. */
module RoleModel {
  import opened Caches
  import opened Options
  import opened RoleGraphs
  import opened RoleClosure

  // Mongoose operations on the role model.  Those up to UpdateMany have a post hook that clears the cache.
  datatype Operation =
    | FindOneAndDelete | FindOneAndRemove | FindOneAndUpdate | DeleteMany
    | DeleteOne | Remove | UpdateOne | UpdateMany
    | Save | InsertMany | ReplaceOne | BulkWrite

  predicate ClearsCache(op: Operation) {
    op in {FindOneAndDelete, FindOneAndRemove, FindOneAndUpdate, DeleteMany, DeleteOne, Remove, UpdateOne, UpdateMany}
  }

  const ONE_HOUR := 60 * 60 * 1000

  type PermissionEntries = Entries<set<Permission>>

  datatype Store = Store(
    roles: Roles,
    entries: PermissionEntries,
    seen: seq<(int, Roles)>)     // for every resolution that finished, when and on which roles

  const EMPTY := Store(map[], map[], [])

  function AllPermissions(db: Roles): set<Permission> {
    set id, p | id in db && p in db[id].permissions :: p
  }

  // All permissions reachable from the roots, if all these roles exist.
  ghost function Closure(db: Roles, roots: seq<Id>): Option<set<Permission>> {
    if Dangling(db, roots) then None else Some(set p | p in AllPermissions(db) && Grants(db, roots, p))
  }

  lemma ClosureIs(db: Roles, roots: seq<Id>, permissions: set<Permission>)
    requires !Dangling(db, roots)
    requires forall p :: p in permissions <==> Grants(db, roots, p)
    ensures Closure(db, roots) == Some(permissions)
  {
    var closure := set p | p in AllPermissions(db) && Grants(db, roots, p);
    forall p
      ensures p in closure <==> p in permissions
    {
      if Grants(db, roots, p) {
        var id :| Reachable(Inherits(db), roots, id) && id in db && p in db[id].permissions;
        assert p in AllPermissions(db);
      }
    }
    assert closure == permissions;
  }

  // What a role reaches is itself and what the roles it inherits from reach.
  lemma ReachUnfolds(db: Roles, roots: seq<Id>, id: Id)
    ensures Reachable(Inherits(db), roots, id) <==>
            exists r :: r in roots && (id == r || (r in db && Reachable(Inherits(db), db[r].roles, id)))
  {
    var g := Inherits(db);
    if Reachable(g, roots, id) {
      var path :| PathFrom(g, roots, path) && path[|path| - 1] == id;
      if |path| > 1 {
        assert Linked(g, path, 0) && path[0] in db;
        PathPart(g, path, 1, |path|);
        assert PathFrom(g, db[path[0]].roles, path[1..|path|]);
      }
      assert path[0] in roots;
    }
    if r :| r in roots && (id == r || (r in db && Reachable(g, db[r].roles, id))) {
      RootsReachable(g, roots, r);
      if id != r {
        var down :| PathFrom(g, db[r].roles, down) && down[|down| - 1] == id;
        PathsJoin(g, [r], down);
        assert PathFrom(g, roots, [r] + down);
      }
    }
  }

  /** The resolved permissions of a list of roles: each role's own ones, and those of the roles it inherits from; they
      exist if all roles are stored and theirs do. */
  lemma ClosureUnfolds(db: Roles, roots: seq<Id>)
    ensures Closure(db, roots).Some? <==> forall r :: r in roots ==> r in db && Closure(db, db[r].roles).Some?
    ensures Closure(db, roots).Some? ==>
      forall p :: p in Closure(db, roots).value <==>
        exists r :: r in roots && (p in db[r].permissions || p in Closure(db, db[r].roles).value)
  {
    forall id
      ensures Reachable(Inherits(db), roots, id) <==>
              exists r :: r in roots && (id == r || (r in db && Reachable(Inherits(db), db[r].roles, id)))
    {
      ReachUnfolds(db, roots, id);
    }
    if Closure(db, roots).Some? {
      forall p
        ensures p in Closure(db, roots).value <==>
                exists r :: r in roots && (p in db[r].permissions || p in Closure(db, db[r].roles).value)
      {
        PermissionUnfolds(db, roots, p);
      }
    }
  }

  lemma PermissionUnfolds(db: Roles, roots: seq<Id>, p: Permission)
    requires !Dangling(db, roots) && forall r :: r in roots ==> r in db && !Dangling(db, db[r].roles)
    ensures p in Closure(db, roots).value <==>
            exists r :: r in roots && (p in db[r].permissions || p in Closure(db, db[r].roles).value)
  {
    if p in Closure(db, roots).value {
      var id :| Reachable(Inherits(db), roots, id) && id in db && p in db[id].permissions;
      ReachUnfolds(db, roots, id);
    }
    if r :| r in roots && (p in db[r].permissions || p in Closure(db, db[r].roles).value) {
      var id :| (id == r || Reachable(Inherits(db), db[r].roles, id)) && id in db && p in db[id].permissions;
      ReachUnfolds(db, roots, id);
      assert p in AllPermissions(db);
    }
  }

  datatype Event =
    | Write(op: Operation, roles: Roles)          // any change of the stored roles
    | Create(id: Id, role: Role)                  // a new document
    | Lookup(ids: seq<Id>, started: int, again: int, finished: int)

  datatype Reply = Permissions(permissions: set<Permission>) | Undefined | Failed

  ghost function Fresh(db: Roles, ids: seq<Id>): Reply {
    match Closure(db, ids)
    case Some(permissions) => Permissions(permissions)
    case None => Failed
  }

  /** The cache is read once for the decision and, if that finds an entry, once more for the answer, by a clock that may
      have gone on. */
  ghost function AnswerOf(s: Store, ids: seq<Id>, started: int, again: int): Reply {
    if Served(s.entries, Concat(ids), started).None? then Fresh(s.roles, ids)
    else
      match Served(s.entries, Concat(ids), again)
      case Some(permissions) => Permissions(permissions)
      case None => Undefined
  }

  // The entry expires between the two readings.
  predicate ExpiresBetween(s: Store, ids: seq<Id>, started: int, again: int) {
    Concat(ids) in s.entries && started <= s.entries[Concat(ids)].validUntil < again
  }

  ghost function AfterLookup(s: Store, ids: seq<Id>, started: int, finished: int): Store {
    var closure := Closure(s.roles, ids);
    if Served(s.entries, Concat(ids), started).Some? || closure.None? then s
    else s.(entries := s.entries[Concat(ids) := CacheEntry(closure.value, finished + ONE_HOUR)],
            seen := s.seen + [(finished, s.roles)])
  }

  ghost function Next(s: Store, e: Event): Store {
    match e
    case Write(op, roles) => s.(roles := roles, entries := if ClearsCache(op) then map[] else s.entries)
    case Create(id, role) => s.(roles := s.roles[id := role])
    case Lookup(ids, started, _, finished) => AfterLookup(s, ids, started, finished)
  }

  // New documents get fresh ids, and lookups are made with 24-digit ids, one after the other.
  ghost predicate Possible(s: Store, e: Event, now: int) {
    match e
    case Write(_, _) => true
    case Create(id, _) => id !in s.roles
    case Lookup(ids, started, again, finished) => AreIds(ids) && now <= started <= again <= finished
  }

  function Clock(e: Event, now: int): int {
    if e.Lookup? then e.finished else now
  }

  ghost predicate Run(s: Store, events: seq<Event>, now: int)
    decreases |events|
  {
    events == [] ||
    (Possible(s, events[0], now) && Run(Next(s, events[0]), events[1..], Clock(events[0], now)))
  }

  ghost function After(s: Store, events: seq<Event>): Store
    decreases |events|
  {
    if events == [] then s else After(Next(s, events[0]), events[1..])
  }

  function ClockAfter(events: seq<Event>, now: int): int
    decreases |events|
  {
    if events == [] then now else ClockAfter(events[1..], Clock(events[0], now))
  }

  // Every entry still is the closure of the stored roles.
  ghost predicate Coherent(s: Store) {
    forall ids :: AreIds(ids) && Concat(ids) in s.entries ==>
      Closure(s.roles, ids) == Some(s.entries[Concat(ids)].value)
  }

  // A path from roots with a complete closure never gets to the new role.
  lemma {:induction false} ReachSurvivesCreate(db: Roles, roots: seq<Id>, id: Id, role: Role, path: seq<Id>, k: nat)
    requires id !in db && !Dangling(db, roots)
    requires PathFrom(Inherits(db[id := role]), roots, path) && k < |path|
    ensures Reachable(Inherits(db), roots, path[k])
    decreases k
  {
    if k == 0 {
      RootsReachable(Inherits(db), roots, path[0]);
    } else {
      ReachSurvivesCreate(db, roots, id, role, path, k - 1);
      assert path[k - 1] in db;
      assert Linked(Inherits(db[id := role]), path, k - 1);
      ChildReachable(Inherits(db), roots, path[k - 1], path[k]);
    }
  }

  lemma ReachRemains(db: Roles, roots: seq<Id>, id: Id, role: Role, path: seq<Id>, k: nat)
    requires id !in db
    requires PathFrom(Inherits(db), roots, path) && k < |path|
    ensures Reachable(Inherits(db[id := role]), roots, path[k])
    decreases k
  {
    if k == 0 {
      RootsReachable(Inherits(db[id := role]), roots, path[0]);
    } else {
      ReachRemains(db, roots, id, role, path, k - 1);
      assert Linked(Inherits(db), path, k - 1);
      ChildReachable(Inherits(db[id := role]), roots, path[k - 1], path[k]);
    }
  }

  lemma CreateAddsNoReach(db: Roles, roots: seq<Id>, id: Id, role: Role, x: Id)
    requires id !in db && !Dangling(db, roots) && Reachable(Inherits(db[id := role]), roots, x)
    ensures Reachable(Inherits(db), roots, x)
  {
    var g := Inherits(db[id := role]);
    var path :| PathFrom(g, roots, path) && path[|path| - 1] == x;
    ReachSurvivesCreate(db, roots, id, role, path, |path| - 1);
  }

  lemma CreateKeepsReach(db: Roles, roots: seq<Id>, id: Id, role: Role, x: Id)
    requires id !in db && Reachable(Inherits(db), roots, x)
    ensures Reachable(Inherits(db[id := role]), roots, x)
  {
    var g := Inherits(db);
    var path :| PathFrom(g, roots, path) && path[|path| - 1] == x;
    ReachRemains(db, roots, id, role, path, |path| - 1);
  }

  // A new role changes nothing for roots whose closure was complete without it.
  lemma CreateKeepsClosure(db: Roles, roots: seq<Id>, id: Id, role: Role)
    requires id !in db && !Dangling(db, roots)
    ensures Closure(db[id := role], roots) == Closure(db, roots)
  {
    var db' := db[id := role];
    forall x
      ensures Reachable(Inherits(db'), roots, x) <==> Reachable(Inherits(db), roots, x)
      ensures Reachable(Inherits(db), roots, x) ==> x in db && db'[x] == db[x]
    {
      if Reachable(Inherits(db'), roots, x) {
        CreateAddsNoReach(db, roots, id, role, x);
      }
      if Reachable(Inherits(db), roots, x) {
        CreateKeepsReach(db, roots, id, role, x);
      }
    }
    forall p
      ensures Grants(db', roots, p) <==> Grants(db, roots, p)
    {
    }
    var permissions := Closure(db, roots).value;
    assert forall p :: Grants(db, roots, p) ==> p in AllPermissions(db);
    ClosureIs(db', roots, permissions);
  }

  lemma LookupKeepsCoherence(s: Store, ids: seq<Id>, started: int, finished: int)
    requires Coherent(s) && AreIds(ids)
    ensures Coherent(AfterLookup(s, ids, started, finished))
  {
    var s' := AfterLookup(s, ids, started, finished);
    forall other | AreIds(other) && Concat(other) in s'.entries
      ensures Closure(s'.roles, other) == Some(s'.entries[Concat(other)].value)
    {
      if Concat(other) == Concat(ids) {
        KeysAreInjective(other, ids);
      }
    }
  }

  lemma NextKeepsCoherence(s: Store, e: Event, now: int)
    requires Coherent(s) && Possible(s, e, now)
    requires e.Write? ==> ClearsCache(e.op)
    ensures Coherent(Next(s, e))
  {
    match e
    case Write(op, roles) =>
    case Create(id, role) =>
      forall ids | AreIds(ids) && Concat(ids) in s.entries
        ensures Closure(s.roles[id := role], ids) == Some(s.entries[Concat(ids)].value)
      {
        CreateKeepsClosure(s.roles, ids, id, role);
      }
    case Lookup(ids, started, _, finished) =>
      LookupKeepsCoherence(s, ids, started, finished);
  }

  ghost predicate OnlyHookedWrites(events: seq<Event>) {
    forall e :: e in events && e.Write? ==> ClearsCache(e.op)
  }

  lemma {:induction false} RunKeepsCoherence(s: Store, events: seq<Event>, now: int)
    requires Coherent(s) && Run(s, events, now) && OnlyHookedWrites(events)
    ensures Coherent(After(s, events))
    decreases |events|
  {
    if events != [] {
      assert events[0] in events;
      NextKeepsCoherence(s, events[0], now);
      RunKeepsCoherence(Next(s, events[0]), events[1..], Clock(events[0], now));
    }
  }

  /** While roles are only written by hooked operations, an answer, cached or not, equals a fresh resolution of the
      roles as they are now, if and only if its entry does not expire between the two readings of the cache; if it
      does, the answer is undefined. */
  lemma CachedEqualsFreshIff(events: seq<Event>, now: int, ids: seq<Id>, started: int, again: int)
    requires Run(EMPTY, events, now)
    requires forall e :: e in events && e.Write? ==>
      e.op in {FindOneAndDelete, FindOneAndRemove, FindOneAndUpdate, DeleteMany, DeleteOne, Remove, UpdateOne, UpdateMany}
    requires AreIds(ids) && started <= again
    ensures var s := After(EMPTY, events);
            && (AnswerOf(s, ids, started, again) == Fresh(s.roles, ids) <==> !ExpiresBetween(s, ids, started, again))
            && (AnswerOf(s, ids, started, again).Undefined? <==> ExpiresBetween(s, ids, started, again))
  {
    RunKeepsCoherence(EMPTY, events, now);
  }

  /** What has been withdrawn is not answered: right after one of the eight hooked operations every answer is made from
      the roles as they are then. */
  lemma HookedWriteIsSeen(s: Store, op: Operation, roles: Roles, ids: seq<Id>, started: int, again: int)
    requires op in {FindOneAndDelete, FindOneAndRemove, FindOneAndUpdate, DeleteMany, DeleteOne, Remove, UpdateOne, UpdateMany}
    ensures var s' := Next(s, Write(op, roles));
            s'.roles == roles && AnswerOf(s', ids, started, again) == Fresh(roles, ids)
  {
  }

  // Two lone roles with the same id and different permissions.
  function Lone(id: Id, permissions: seq<Permission>): Roles {
    map[id := Role(permissions, [])]
  }

  lemma ClosureOfLone(id: Id, permissions: seq<Permission>)
    ensures Closure(Lone(id, permissions), [id]) == Some(set p | p in permissions)
  {
    var g := Inherits(Lone(id, permissions));
    RootsReachable(g, [id], id);
    forall x | Reachable(g, [id], x)
      ensures x == id
    {
      var path :| PathFrom(g, [id], path) && path[|path| - 1] == x;
      ClosedSetHoldsPath(g, [id], {id}, path);
    }
    ClosureIs(Lone(id, permissions), [id], set p | p in permissions);
  }

  // One role, looked up, and looked up again an hour later.
  lemma EntryCanExpireBetween()
    ensures var id := seq(24, i => '0');
            var events := [Create(id, Role([], [])), Lookup([id], 0, 0, 0)];
            && Run(EMPTY, events, 0) && AreIds([id])
            && AnswerOf(After(EMPTY, events), [id], 3600000, 3600001) == Undefined
  {
    var id := seq(24, i => '0');
    var create, lookup := Create(id, Role([], [])), Lookup([id], 0, 0, 0);
    var s1 := Next(EMPTY, create);
    assert s1.roles == Lone(id, []);
    ClosureOfLone(id, []);
    var s2 := Next(s1, lookup);
    assert s2.entries[Concat([id])].validUntil == ONE_HOUR;
    var events := [create, lookup];
    assert events[1..] == [lookup] && [lookup][1..] == [];
    assert Run(s2, [], 0) && After(s2, []) == s2;
    assert Run(s1, [lookup], 0) && After(s1, [lookup]) == s2;
  }

  /** The hook list is exactly what keeps the cache truthful: an operation preserves coherence for
      every change of the roles if and only if it is one of the eight that clear the cache. */
  lemma CoherenceNeedsTheHooks(op: Operation)
    ensures (forall s, roles :: Coherent(s) ==> Coherent(Next(s, Write(op, roles)))) <==> op !in {Save, InsertMany, ReplaceOne, BulkWrite}
    ensures op !in {Save, InsertMany, ReplaceOne, BulkWrite} <==>
            op in {FindOneAndDelete, FindOneAndRemove, FindOneAndUpdate, DeleteMany, DeleteOne, Remove, UpdateOne, UpdateMany}
  {
    if !ClearsCache(op) {
      var id := seq(24, i => '0');
      var key := Concat([id]);
      var s := Store(Lone(id, ["A"]), map[key := CacheEntry({"A"}, 0)], []);
      ClosureOfLone(id, ["A"]);
      ClosureOfLone(id, []);
      forall ids | AreIds(ids) && Concat(ids) in s.entries
        ensures ids == [id]
      {
        KeysAreInjective(ids, [id]);
      }
      assert (set p | p in ["A"]) == {"A"};
      assert Coherent(s);
      var s' := Next(s, Write(op, Lone(id, [])));
      assert AreIds([id]) && Concat([id]) in s'.entries;
      assert "A" in s'.entries[key].value && "A" !in Closure(s'.roles, [id]).value;
      assert !Coherent(s');
    }
  }

  // The entry for `ids` was stored by the i-th resolution, which ran on the roles of its time.
  ghost predicate StoredAt(s: Store, ids: seq<Id>, i: nat)
    requires Concat(ids) in s.entries
  {
    && i < |s.seen|
    && s.seen[i].0 == s.entries[Concat(ids)].validUntil - ONE_HOUR
    && Closure(s.seen[i].1, ids) == Some(s.entries[Concat(ids)].value)
  }

  // Every entry is the closure of roles that were current when it was stored, an hour before it expires.
  ghost predicate Dated(s: Store, now: int) {
    && (forall i :: 0 <= i < |s.seen| ==> s.seen[i].0 <= now)
    && (forall ids :: AreIds(ids) && Concat(ids) in s.entries ==>
          exists i :: StoredAt(s, ids, i))
  }

  lemma DatesSurvive(s: Store, s': Store, now: int)
    requires Dated(s, now) && s'.seen == s.seen
    requires s'.entries == s.entries || s'.entries == map[]
    ensures Dated(s', now)
  {
    forall ids | AreIds(ids) && Concat(ids) in s'.entries
      ensures exists i :: StoredAt(s', ids, i)
    {
      var i: nat :| StoredAt(s, ids, i);
      assert StoredAt(s', ids, i);
    }
  }

  lemma LookupKeepsDates(s: Store, ids: seq<Id>, started: int, finished: int, now: int)
    requires Dated(s, now) && AreIds(ids) && now <= started <= finished
    ensures Dated(AfterLookup(s, ids, started, finished), finished)
  {
    var s' := AfterLookup(s, ids, started, finished);
    forall other | AreIds(other) && Concat(other) in s'.entries
      ensures exists i :: StoredAt(s', other, i)
    {
      if Concat(other) == Concat(ids) {
        KeysAreInjective(other, ids);
      }
      if s' != s && Concat(other) == Concat(ids) {
        assert StoredAt(s', other, |s.seen|);
      } else {
        var i: nat :| StoredAt(s, other, i);
        assert StoredAt(s', other, i);
      }
    }
  }

  lemma {:induction false} RunKeepsDates(s: Store, events: seq<Event>, now: int)
    requires Dated(s, now) && Run(s, events, now)
    ensures Dated(After(s, events), ClockAfter(events, now))
    decreases |events|
  {
    if events != [] {
      var e := events[0];
      if e.Lookup? {
        LookupKeepsDates(s, e.ids, e.started, e.finished, now);
      } else {
        DatesSurvive(s, Next(s, e), now);
      }
      RunKeepsDates(Next(s, e), events[1..], Clock(e, now));
    }
  }

  /** Whatever else writes roles: an answer that is neither a fresh resolution nor undefined is a resolution of the
      roles as they were at some moment of the last hour. */
  lemma StaleAtMostOneHour(events: seq<Event>, now: int, ids: seq<Id>, started: int, again: int)
    requires Run(EMPTY, events, now) && AreIds(ids) && ClockAfter(events, now) <= started <= again
    ensures var s := After(EMPTY, events);
            || AnswerOf(s, ids, started, again) == Fresh(s.roles, ids)
            || (AnswerOf(s, ids, started, again).Undefined? && ExpiresBetween(s, ids, started, again))
            || exists i :: 0 <= i < |s.seen|
                 && again - 3600000 <= s.seen[i].0 <= started
                 && AnswerOf(s, ids, started, again) == Fresh(s.seen[i].1, ids)
  {
    RunKeepsDates(EMPTY, events, now);
    var s := After(EMPTY, events);
    if Served(s.entries, Concat(ids), again).Some? {
      var i: nat :| StoredAt(s, ids, i);
      assert AnswerOf(s, ids, started, again) == Fresh(s.seen[i].1, ids);
    }
  }

  // The code.

  class RoleService {
    var roles: Roles
    const cache: Cache<set<Permission>>

    constructor ()
      ensures roles == map[] && cache.entries == map[] && cache.clearInterval == ONE_HOUR && fresh(cache)
    {
      roles := map[];
      cache := new Cache(ONE_HOUR);
    }

    method WriteRoles(op: Operation, newRoles: Roles)
      modifies this, cache
      ensures roles == newRoles
      ensures op in {FindOneAndDelete, FindOneAndRemove, FindOneAndUpdate, DeleteMany, DeleteOne, Remove, UpdateOne, UpdateMany} ==>
        cache.entries == map[]
      ensures op in {Save, InsertMany, ReplaceOne, BulkWrite} ==> cache.entries == old(cache.entries)
    {
      roles := newRoles;
      if ClearsCache(op) {
        cache.Clear();
      }
    }

    method ResolvePermissions(c: Comparison, ids: seq<Id>, started: int, again: int, finished: int)
      returns (answer: Reply)
      requires c.ByIdentity? ==> !Cyclic(Inherits(roles), ids)
      requires cache.clearInterval == ONE_HOUR
      modifies cache
      ensures var s := Store(roles, old(cache.entries), []);
              answer == AnswerOf(s, ids, started, again) && cache.entries == AfterLookup(s, ids, started, finished).entries
    {
      var key := cache.CreateMongooseIndex(ids);
      var cached := cache.Get(key, started);
      if cached.Some? {
        cached := cache.Get(key, again);
        return if cached.Some? then Permissions(cached.value) else Undefined;
      }
      var permissions := LookUpAll(c, ids);
      if permissions.None? {
        return Failed;
      }
      cache.Update(key, permissions.value, finished);
      answer := Permissions(permissions.value);
    }

    /** The lookups answer in an arbitrary order.  With ids compared by identity the loop ends because
        the roles are acyclic; compared by value it ends anyway. */
    method LookUpAll(c: Comparison, ids: seq<Id>) returns (answer: Option<set<Permission>>)
      requires c.ByIdentity? ==> !Cyclic(Inherits(roles), ids)
      ensures answer == Closure(roles, ids)
    {
      var r := Start(ids);
      ghost var db, picks: seq<nat> := roles, [];
      ghost var bound := LookupBound(db, c, ids);
      while r.pending != []
        invariant Schedule(db, c, Start(ids), picks) && r == Resolve(db, c, Start(ids), picks)
        decreases bound - |picks|
      {
        assert |picks| <= bound;
        var i :| 0 <= i < |r.pending|;
        ScheduleExtends(db, c, Start(ids), picks, i);
        r, picks := Answer(roles, c, r, i), picks + [i];
      }
      ResolvesToClosure(db, c, ids, picks);
      if r.failed {
        return None;
      }
      ClosureIs(db, ids, r.permissions);
      answer := Some(r.permissions);
    }
  }

  lemma {:induction false} ScheduleExtends(db: Roles, c: Comparison, r: Resolution, picks: seq<nat>, i: nat)
    requires Schedule(db, c, r, picks) && i < |Resolve(db, c, r, picks).pending|
    ensures Schedule(db, c, r, picks + [i])
    ensures Resolve(db, c, r, picks + [i]) == Answer(db, c, Resolve(db, c, r, picks), i)
    decreases |picks|
  {
    if picks == [] {
      assert [i][1..] == [];
    } else {
      assert (picks + [i])[1..] == picks[1..] + [i];
      ScheduleExtends(db, c, Answer(db, c, r, picks[0]), picks[1..], i);
    }
  }

  lemma LookupsAreBounded(db: Roles, c: Comparison, roots: seq<Id>)
    requires c.ByIdentity? ==> !Cyclic(Inherits(db), roots)
    ensures exists bound: nat :: SchedulesAtMost(db, c, roots, bound)
  {
    if c.ByIdentity? {
      ByIdentityTerminatesIffAcyclic(db, roots);
      return;
    }
    var limit := LongestList(db);
    forall picks | Schedule(db, ByValue, Start(roots), picks)
      ensures |picks| <= |roots| + |Mentioned(db)| * limit
    {
      ByValueTerminates(db, roots, limit, picks);
    }
    assert SchedulesAtMost(db, ByValue, roots, |roots| + |Mentioned(db)| * limit);
  }

  // A number of lookups that no schedule exceeds.
  ghost function LookupBound(db: Roles, c: Comparison, roots: seq<Id>): (bound: nat)
    requires c.ByIdentity? ==> !Cyclic(Inherits(db), roots)
    ensures SchedulesAtMost(db, c, roots, bound)
  {
    LookupsAreBounded(db, c, roots);
    var bound: nat :| SchedulesAtMost(db, c, roots, bound);
    bound
  }

  ghost function LongestList(db: Roles): (limit: nat)
    ensures ListsAtMost(db, limit)
    decreases |db|
  {
    if db == map[] then 0
    else
      var id :| id in db;
      var rest := LongestList(db - {id});
      assert forall x :: x in db ==> x == id || x in db - {id};
      if |db[id].roles| > rest then |db[id].roles| else rest
  }
}
