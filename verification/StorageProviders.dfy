/** Giving every school a bucket on the shared storage provider with most free buckets. */
module StorageProviders {
  import opened Options

  type School = string

  // Providers in the order of their ids.
  datatype Provider = Provider(isShared: bool, freeBuckets: int)
  type Providers = seq<Provider>

  ghost predicate HasShared(ps: Providers) {
    exists i :: 0 <= i < |ps| && ps[i].isShared
  }

  ghost predicate IsBest(ps: Providers, best: nat) {
    && best < |ps| && ps[best].isShared
    && (forall i :: 0 <= i < |ps| && ps[i].isShared ==> ps[i].freeBuckets <= ps[best].freeBuckets)
    && (forall i :: 0 <= i < best && ps[i].isShared ==> ps[i].freeBuckets < ps[best].freeBuckets)
  }

  // Most free buckets first, then by id.
  function Best(ps: Providers): (best: Option<nat>)
    ensures match best
            case None => !HasShared(ps)
            case Some(i) => IsBest(ps, i)
  {
    if ps == [] then None
    else
      var last := |ps| - 1;
      match Best(ps[..last])
      case None => if ps[last].isShared then Some(last) else None
      case Some(i) =>
        if ps[last].isShared && ps[last].freeBuckets > ps[i].freeBuckets then Some(last) else Some(i)
  }

  function Take(ps: Providers, i: nat): Providers
    requires i < |ps|
  {
    ps[i := ps[i].(freeBuckets := ps[i].freeBuckets - 1)]
  }

  /** Which provider is chosen: a shared one than which no shared one has more free buckets, and the first of these. */
  lemma FullestThenFirst(ps: Providers)
    ensures Best(ps).None? <==> forall i :: 0 <= i < |ps| ==> !ps[i].isShared
    ensures Best(ps).Some? ==>
      var best := Best(ps).value;
      && best < |ps| && ps[best].isShared
      && forall i :: 0 <= i < |ps| && ps[i].isShared && i != best ==>
           ps[i].freeBuckets < ps[best].freeBuckets || (ps[i].freeBuckets == ps[best].freeBuckets && best < i)
  {
  }

  // The greedy choice and any other placement.

  function Greedy(ps: Providers, k: nat): Providers {
    if k == 0 then ps
    else
      var before := Greedy(ps, k - 1);
      if Best(before).Some? then Take(before, Best(before).value) else before
  }

  function Place(ps: Providers, placement: seq<nat>): Providers
    requires forall i :: i in placement ==> i < |ps|
    ensures |Place(ps, placement)| == |ps|
  {
    if placement == [] then ps
    else
      var n := |placement| - 1;
      assert placement[n] in placement && forall i :: i in placement[..n] ==> i in placement;
      Take(Place(ps, placement[..n]), placement[n])
  }

  ghost predicate SharedOnly(ps: Providers, placement: seq<nat>) {
    forall i :: i in placement ==> i < |ps| && ps[i].isShared
  }

  function Total(ps: Providers): int {
    if ps == [] then 0
    else (if ps[|ps| - 1].isShared then ps[|ps| - 1].freeBuckets else 0) + Total(ps[..|ps| - 1])
  }

  function SharedCount(ps: Providers): nat {
    if ps == [] then 0
    else (if ps[|ps| - 1].isShared then 1 else 0) + SharedCount(ps[..|ps| - 1])
  }

  ghost predicate SameProviders(ps: Providers, qs: Providers) {
    |ps| == |qs| && forall i :: 0 <= i < |ps| ==> ps[i].isShared == qs[i].isShared && qs[i].freeBuckets <= ps[i].freeBuckets
  }

  lemma {:induction false} TotalAfterTake(ps: Providers, i: nat)
    requires i < |ps| && ps[i].isShared
    ensures Total(Take(ps, i)) == Total(ps) - 1
  {
    var last := |ps| - 1;
    if i < last {
      assert Take(ps, i)[..last] == Take(ps[..last], i);
      TotalAfterTake(ps[..last], i);
    } else {
      assert Take(ps, i)[..last] == ps[..last];
    }
  }

  lemma {:induction false} CountIsSame(ps: Providers, qs: Providers)
    requires SameProviders(ps, qs)
    ensures SharedCount(ps) == SharedCount(qs)
  {
    if ps != [] {
      CountIsSame(ps[..|ps| - 1], qs[..|qs| - 1]);
    }
  }

  lemma {:induction false} TotalAtLeast(ps: Providers, m: int)
    requires forall i :: 0 <= i < |ps| && ps[i].isShared ==> m <= ps[i].freeBuckets
    ensures m * SharedCount(ps) <= Total(ps)
  {
    if ps != [] {
      TotalAtLeast(ps[..|ps| - 1], m);
    }
  }

  lemma {:induction false} TotalAtMost(ps: Providers, m: int)
    requires forall i :: 0 <= i < |ps| && ps[i].isShared ==> ps[i].freeBuckets <= m
    ensures Total(ps) <= m * SharedCount(ps)
  {
    if ps != [] {
      TotalAtMost(ps[..|ps| - 1], m);
    }
  }

  lemma {:induction false} TotalBelow(ps: Providers, m: int, low: nat)
    requires forall i :: 0 <= i < |ps| && ps[i].isShared ==> ps[i].freeBuckets <= m
    requires low < |ps| && ps[low].isShared && ps[low].freeBuckets < m
    ensures Total(ps) < m * SharedCount(ps)
  {
    var last := |ps| - 1;
    if low < last {
      TotalBelow(ps[..last], m, low);
    } else {
      TotalAtMost(ps[..last], m);
    }
  }

  // Whoever gave away a bucket was a fullest provider then, so nobody is more than one bucket ahead of it now.
  ghost predicate Levelled(ps: Providers, qs: Providers) {
    && SameProviders(ps, qs)
    && forall i, j :: 0 <= i < |ps| && 0 <= j < |ps| && qs[i].freeBuckets < ps[i].freeBuckets && qs[j].isShared ==>
         qs[j].freeBuckets <= qs[i].freeBuckets + 1
  }

  lemma TakingTheBestLevels(ps: Providers, before: Providers, best: nat)
    requires Levelled(ps, before) && IsBest(before, best)
    ensures Levelled(ps, Take(before, best))
  {
    var after := Take(before, best);
    forall i, j | 0 <= i < |ps| && 0 <= j < |ps| && after[i].freeBuckets < ps[i].freeBuckets && after[j].isShared
      ensures after[j].freeBuckets <= after[i].freeBuckets + 1
    {
      assert after[j].freeBuckets <= before[j].freeBuckets;
      assert i != best ==> after[i] == before[i];
    }
  }

  lemma {:induction false} GreedyLevels(ps: Providers, k: nat)
    requires HasShared(ps)
    ensures Levelled(ps, Greedy(ps, k)) && Total(Greedy(ps, k)) == Total(ps) - k
  {
    if k > 0 {
      var before := Greedy(ps, k - 1);
      GreedyLevels(ps, k - 1);
      var i :| 0 <= i < |ps| && ps[i].isShared;
      assert before[i].isShared;
      TakingTheBestLevels(ps, before, Best(before).value);
      TotalAfterTake(before, Best(before).value);
    }
  }

  lemma {:induction false} PlacementTotal(ps: Providers, placement: seq<nat>)
    requires SharedOnly(ps, placement)
    ensures SameProviders(ps, Place(ps, placement)) && Total(Place(ps, placement)) == Total(ps) - |placement|
  {
    if placement != [] {
      var n := |placement| - 1;
      assert placement[n] in placement && forall i :: i in placement[..n] ==> i in placement;
      PlacementTotal(ps, placement[..n]);
      TotalAfterTake(Place(ps, placement[..n]), placement[n]);
    }
  }

  /** After any number of choices no two shared providers are further apart than at the start, or than one bucket. */
  lemma SpreadNeverGrows(ps: Providers, k: nat, spread: int)
    requires HasShared(ps) && 1 <= spread
    requires forall i, j :: 0 <= i < |ps| && 0 <= j < |ps| && ps[i].isShared && ps[j].isShared ==>
               ps[j].freeBuckets - ps[i].freeBuckets <= spread
    ensures var qs := Greedy(ps, k);
            forall i, j :: 0 <= i < |qs| && 0 <= j < |qs| && qs[i].isShared && qs[j].isShared ==>
              qs[j].freeBuckets - qs[i].freeBuckets <= spread
  {
    GreedyLevels(ps, k);
  }

  /** Greedy is optimal: any level that some placement of k buckets leaves on every shared provider is left by
      the k greedy choices as well. */
  lemma GreedyKeepsTheHighestMinimum(ps: Providers, placement: seq<nat>, m: int)
    requires SharedOnly(ps, placement)
    requires forall i :: 0 <= i < |ps| && ps[i].isShared ==> m <= Place(ps, placement)[i].freeBuckets
    ensures |Greedy(ps, |placement|)| == |ps|
    ensures forall i :: 0 <= i < |ps| && ps[i].isShared ==> m <= Greedy(ps, |placement|)[i].freeBuckets
  {
    if HasShared(ps) {
      var placed, greedy := Place(ps, placement), Greedy(ps, |placement|);
      PlacementTotal(ps, placement);
      GreedyLevels(ps, |placement|);
      CountIsSame(ps, placed);
      CountIsSame(ps, greedy);
      TotalAtLeast(placed, m);
      forall i | 0 <= i < |ps| && ps[i].isShared
        ensures m <= greedy[i].freeBuckets
      {
        if greedy[i].freeBuckets < m {
          assert greedy[i].freeBuckets < ps[i].freeBuckets;
          TotalBelow(greedy, m, i);
        }
      }
    } else {
      GreedyWithoutShared(ps, |placement|);
    }
  }

  lemma {:induction false} GreedyWithoutShared(ps: Providers, k: nat)
    requires !HasShared(ps)
    ensures Greedy(ps, k) == ps
  {
    if k > 0 {
      GreedyWithoutShared(ps, k - 1);
    }
  }

  // Requests: the school is read first, and the choice follows in a transaction of its own.

  datatype Storage = Storage(
    providers: Providers,
    providerOf: map<School, nat>,
    pending: multiset<School>,      // requests that have seen a school without a provider
    log: seq<(School, nat)>)        // all choices made

  datatype Event =
    | Request(school: School)
    | Choose(school: School)    // a pending request takes a bucket
    | Fail(school: School)      // a pending request finds no shared provider

  predicate Possible(s: Storage, e: Event) {
    match e
    case Request(_) => true
    case Choose(school) => school in s.pending && Best(s.providers).Some?
    case Fail(school) => school in s.pending && Best(s.providers).None?
  }

  function Next(s: Storage, e: Event): Storage
    requires Possible(s, e)
  {
    match e
    case Request(school) =>
      if school in s.providerOf then s else s.(pending := s.pending + multiset{school})
    case Choose(school) =>
      var best := Best(s.providers).value;
      Storage(Take(s.providers, best), s.providerOf[school := best], s.pending - multiset{school}, s.log + [(school, best)])
    case Fail(school) => s.(pending := s.pending - multiset{school})
  }

  predicate Run(s: Storage, events: seq<Event>)
    decreases |events|
  {
    events == [] || (Possible(s, events[0]) && Run(Next(s, events[0]), events[1..]))
  }

  function After(s: Storage, events: seq<Event>): Storage
    requires Run(s, events)
    decreases |events|
  {
    if events == [] then s else After(Next(s, events[0]), events[1..])
  }

  function Start(ps: Providers): Storage {
    Storage(ps, map[], multiset{}, [])
  }

  function Picks(log: seq<(School, nat)>, i: nat): nat {
    if log == [] then 0 else (if log[|log| - 1].1 == i then 1 else 0) + Picks(log[..|log| - 1], i)
  }

  function Schools(log: seq<(School, nat)>): set<School> {
    set entry | entry in log :: entry.0
  }

  ghost predicate Distinct(log: seq<(School, nat)>) {
    forall i, j :: 0 <= i < j < |log| ==> log[i].0 != log[j].0
  }

  ghost predicate Inv(ps: Providers, s: Storage) {
    && s.providers == Greedy(ps, |s.log|)
    && |s.providers| == |ps|
    && (forall i :: 0 <= i < |ps| ==> s.providers[i].freeBuckets + Picks(s.log, i) == ps[i].freeBuckets)
    && s.providerOf.Keys == Schools(s.log)
    && (HasShared(s.providers) <==> HasShared(ps))
    && (!HasShared(ps) ==> s.log == [])
  }

  lemma TakeKeepsShared(ps: Providers, i: nat)
    requires i < |ps|
    ensures HasShared(Take(ps, i)) <==> HasShared(ps)
  {
    if j :| 0 <= j < |ps| && ps[j].isShared {
      assert Take(ps, i)[j].isShared;
    }
    if j :| 0 <= j < |ps| && Take(ps, i)[j].isShared {
      assert ps[j].isShared;
    }
  }

  lemma NextKeepsInv(ps: Providers, s: Storage, e: Event)
    requires Inv(ps, s) && Possible(s, e)
    ensures Inv(ps, Next(s, e))
  {
    if e.Choose? {
      TakeKeepsShared(s.providers, Best(s.providers).value);
      var entry := (e.school, Best(s.providers).value);
      var log := s.log + [entry];
      assert log[..|s.log|] == s.log && log[|log| - 1] == entry;
      assert Schools(log) == Schools(s.log) + {e.school} by {
        assert entry in log;
        assert forall x :: x in log ==> x in s.log || x == entry;
      }
    }
  }

  lemma {:induction false} RunKeepsInv(ps: Providers, s: Storage, events: seq<Event>)
    requires Inv(ps, s) && Run(s, events)
    ensures Inv(ps, After(s, events))
    decreases |events|
  {
    if events != [] {
      NextKeepsInv(ps, s, events[0]);
      RunKeepsInv(ps, Next(s, events[0]), events[1..]);
    }
  }

  /** In every interleaving of requests, each provider has given away exactly the buckets it was chosen for, and
      together the choices are the greedy ones. */
  lemma BucketsAreConserved(ps: Providers, events: seq<Event>)
    requires Run(Start(ps), events)
    ensures var s := After(Start(ps), events);
      && s.providers == Greedy(ps, |s.log|) && |s.providers| == |ps|
      && forall i :: 0 <= i < |ps| ==> s.providers[i].freeBuckets + Picks(s.log, i) == ps[i].freeBuckets
  {
    RunKeepsInv(ps, Start(ps), events);
  }

  lemma SchoolsOfSnoc(log: seq<(School, nat)>, entry: (School, nat))
    ensures Schools(log + [entry]) == Schools(log) + {entry.0}
    ensures Distinct(log + [entry]) <==> Distinct(log) && entry.0 !in Schools(log)
  {
    var longer := log + [entry];
    assert entry in longer && forall x :: x in longer ==> x in log || x == entry;
    assert longer[|log|] == entry;
    if entry.0 in Schools(log) {
      var x :| x in log && x.0 == entry.0;
      var i :| 0 <= i < |log| && log[i] == x;
      assert longer[i].0 == longer[|log|].0;
    } else {
      forall i | 0 <= i < |log|
        ensures longer[i].0 != entry.0
      {
        assert log[i] in log;
      }
    }
    if !Distinct(log) {
      var i, j :| 0 <= i < j < |log| && log[i].0 == log[j].0;
      assert longer[i].0 == longer[j].0;
    }
  }

  lemma {:induction false} DistinctIffAsManySchools(log: seq<(School, nat)>)
    ensures |Schools(log)| <= |log|
    ensures |Schools(log)| == |log| <==> Distinct(log)
  {
    if log == [] {
      assert Schools(log) == {};
    } else {
      var rest, entry := log[..|log| - 1], log[|log| - 1];
      assert log == rest + [entry];
      DistinctIffAsManySchools(rest);
      SchoolsOfSnoc(rest, entry);
      assert entry.0 in Schools(rest) ==> Schools(log) == Schools(rest);
    }
  }

  lemma TwoChoices(s: Storage, school: School)
    requires HasShared(s.providers) && s.pending == multiset{school, school} && s.providerOf == map[] && s.log == []
    ensures var events := [Choose(school), Choose(school)];
            Run(s, events) && |After(s, events).log| == 2 && |After(s, events).providerOf| == 1
  {
    var best := Best(s.providers).value;
    var s1 := Next(s, Choose(school));
    assert s1.providers[best].isShared;
    var s2 := Next(s1, Choose(school));
    assert [Choose(school), Choose(school)][1..] == [Choose(school)] && [Choose(school)][1..] == [];
    assert Run(s2, []) && After(s2, []) == s2;
    assert Run(s1, [Choose(school)]) && After(s1, [Choose(school)]) == s2;
    assert s2.providerOf.Keys == {school} && |s2.providerOf| == |s2.providerOf.Keys|;
  }

  /** Two overlapping requests of one school take two buckets and leave it with one. */
  lemma OverlappingRequestsLoseABucket(ps: Providers, school: School)
    requires HasShared(ps)
    ensures var events := [Request(school), Request(school), Choose(school), Choose(school)];
            && Run(Start(ps), events)
            && |After(Start(ps), events).log| == 2 && |After(Start(ps), events).providerOf| == 1
  {
    var choices := [Choose(school), Choose(school)];
    var s1 := Next(Start(ps), Request(school));
    var s2 := Next(s1, Request(school));
    TwoChoices(s2, school);
    var events := [Request(school), Request(school), Choose(school), Choose(school)];
    assert events[1..] == [Request(school)] + choices && events[1..][1..] == choices;
    assert Run(s1, events[1..]) && After(s1, events[1..]) == After(s2, choices);
  }

  // Requests for a school do not overlap: none arrives while another one is choosing.
  predicate Serial(s: Storage, events: seq<Event>)
    requires Run(s, events)
    decreases |events|
  {
    events == [] ||
    ((events[0].Request? ==> events[0].school !in s.pending) && Serial(Next(s, events[0]), events[1..]))
  }

  // Choices made for a school, and still to be made.
  function Entries(log: seq<(School, nat)>, school: School): nat {
    if log == [] then 0 else (if log[|log| - 1].0 == school then 1 else 0) + Entries(log[..|log| - 1], school)
  }

  function Claims(s: Storage, school: School): nat {
    Entries(s.log, school) + s.pending[school]
  }

  // Nobody takes a second bucket, now or later.
  ghost predicate AtMostOneClaim(s: Storage) {
    forall school :: Claims(s, school) <= 1
  }

  lemma {:induction false} EntryCounts(log: seq<(School, nat)>, i: nat)
    requires i < |log|
    ensures Entries(log, log[i].0) >= 1
    ensures forall j :: i < j < |log| && log[j].0 == log[i].0 ==> Entries(log, log[i].0) >= 2
  {
    var last := |log| - 1;
    if i < last {
      EntryCounts(log[..last], i);
    }
  }

  lemma {:induction false} CountedIsInLog(log: seq<(School, nat)>, school: School)
    requires Entries(log, school) > 0
    ensures school in Schools(log)
  {
    var last := |log| - 1;
    if log[last].0 == school {
      assert log[last] in log;
    } else {
      CountedIsInLog(log[..last], school);
      var x :| x in log[..last] && x.0 == school;
      assert x in log;
    }
  }

  lemma ProviderMeansEntry(s: Storage, school: School)
    requires s.providerOf.Keys == Schools(s.log)
    ensures school in s.providerOf <==> Entries(s.log, school) > 0
  {
    if school in s.providerOf {
      var x :| x in s.log && x.0 == school;
      var i :| 0 <= i < |s.log| && s.log[i] == x;
      EntryCounts(s.log, i);
    } else if Entries(s.log, school) > 0 {
      CountedIsInLog(s.log, school);
    }
  }

  // A choice turns one pending claim into an entry; a request adds a claim unless the school has a provider; a
  // failure takes one away.
  lemma ClaimsAfter(s: Storage, e: Event, school: School)
    requires Possible(s, e)
    ensures Claims(Next(s, e), school) ==
            Claims(s, school) + if e == Request(school) && school !in s.providerOf then 1 else if e == Fail(school) then -1 else 0
  {
    if e.Choose? {
      var log := Next(s, e).log;
      assert log[..|s.log|] == s.log && log[|s.log|].0 == e.school;
    }
  }

  lemma {:induction false} ClaimsNeverFall(ps: Providers, s: Storage, events: seq<Event>, school: School)
    requires Inv(ps, s) && HasShared(ps) && Run(s, events)
    ensures Claims(s, school) <= Claims(After(s, events), school)
    decreases |events|
  {
    if events != [] {
      NextKeepsInv(ps, s, events[0]);
      ClaimsAfter(s, events[0], school);
      ClaimsNeverFall(ps, Next(s, events[0]), events[1..], school);
    }
  }

  lemma SerialStepKeepsClaims(ps: Providers, s: Storage, e: Event)
    requires Inv(ps, s) && AtMostOneClaim(s) && Possible(s, e)
    requires e.Request? ==> e.school !in s.pending
    ensures AtMostOneClaim(Next(s, e))
  {
    ProviderMeansEntry(s, e.school);
    forall school
      ensures Claims(Next(s, e), school) <= 1
    {
      ClaimsAfter(s, e, school);
      assert Claims(s, school) <= 1;
    }
  }

  lemma OverlapClaimsTwice(ps: Providers, s: Storage, school: School)
    requires Inv(ps, s) && school in s.pending
    ensures Claims(Next(s, Request(school)), school) > 1
  {
    ProviderMeansEntry(s, school);
    ClaimsAfter(s, Request(school), school);
  }

  lemma {:induction false} SerialIffOneClaim(ps: Providers, s: Storage, events: seq<Event>)
    requires Inv(ps, s) && HasShared(ps) && AtMostOneClaim(s) && Run(s, events)
    ensures Serial(s, events) <==> AtMostOneClaim(After(s, events))
    decreases |events|
  {
    if events != [] {
      var e, s' := events[0], Next(s, events[0]);
      NextKeepsInv(ps, s, e);
      if e.Request? && e.school in s.pending {
        OverlapClaimsTwice(ps, s, e.school);
        ClaimsNeverFall(ps, s', events[1..], e.school);
        assert Claims(After(s, events), e.school) > 1;
      } else {
        SerialStepKeepsClaims(ps, s, e);
        SerialIffOneClaim(ps, s', events[1..]);
      }
    }
  }

  lemma DistinctIfOneClaim(s: Storage)
    ensures AtMostOneClaim(s) ==> Distinct(s.log)
    ensures s.pending == multiset{} && Distinct(s.log) ==> AtMostOneClaim(s)
  {
    if s.pending == multiset{} && Distinct(s.log) {
      forall school
        ensures Claims(s, school) <= 1
      {
        DistinctCountsOnce(s.log, school);
      }
    }
    if !Distinct(s.log) {
      var i, j :| 0 <= i < j < |s.log| && s.log[i].0 == s.log[j].0;
      EntryCounts(s.log, i);
      assert Claims(s, s.log[i].0) > 1;
    }
  }

  lemma {:induction false} DistinctCountsOnce(log: seq<(School, nat)>, school: School)
    requires Distinct(log)
    ensures Entries(log, school) <= 1
  {
    if log != [] {
      var rest := log[..|log| - 1];
      DistinctCountsOnce(rest, school);
      if Entries(rest, school) > 0 {
        CountedIsInLog(rest, school);
        var x :| x in rest && x.0 == school;
        var i :| 0 <= i < |rest| && rest[i] == x;
        assert log[i].0 == school;
      }
    }
  }

  /** In every interleaving, where there is a shared provider: no school takes a second bucket, now or with a choice that
      is still to come, if and only if none of its requests arrived while another one was choosing.  So once all
      requests are answered, the buckets given away are as many as the schools served exactly if requests of one school
      never overlapped, or all requests failed because there was no provider: the guard that reads the school
      stands outside the transaction. */
  lemma NoBucketIsLostIff(ps: Providers, events: seq<Event>)
    requires Run(Start(ps), events)
    ensures var s := After(Start(ps), events);
      && (HasShared(ps) ==> (Serial(Start(ps), events) <==> AtMostOneClaim(s)))
      && (!HasShared(ps) ==> s.log == [] && s.providerOf == map[])
      && (s.pending == multiset{} ==> (|s.log| == |s.providerOf| <==> Serial(Start(ps), events) || !HasShared(ps)))
  {
    var s := After(Start(ps), events);
    RunKeepsInv(ps, Start(ps), events);
    if HasShared(ps) {
      SerialIffOneClaim(ps, Start(ps), events);
    } else {
      assert s.providerOf.Keys == {};
    }
    DistinctIffAsManySchools(s.log);
    DistinctIfOneClaim(s);
    assert |s.providerOf| == |s.providerOf.Keys|;
  }

  /** When requests for one school never overlap, every school gets exactly one bucket, however often it asks. */
  lemma SerialRequestsLoseNothing(ps: Providers, events: seq<Event>)
    requires Run(Start(ps), events) && Serial(Start(ps), events)
    ensures var s := After(Start(ps), events); |s.log| == |s.providerOf|
  {
    var s := After(Start(ps), events);
    RunKeepsInv(ps, Start(ps), events);
    NoBucketIsLostIff(ps, events);
    DistinctIfOneClaim(s);
    DistinctIffAsManySchools(s.log);
    assert |s.providerOf| == |s.providerOf.Keys|;
  }

  datatype Response = Chosen(provider: nat) | NotFound | NoProvider

  // The schools that have a provider.
  function Assigned(schools: map<School, Option<nat>>): map<School, nat> {
    map school | school in schools && schools[school].Some? :: schools[school].value
  }

  // A stored school whose request is alone goes through these steps of the protocol.
  function Served(providers: Providers, schools: map<School, Option<nat>>, school: School): Storage {
    var s := Next(Storage(providers, Assigned(schools), multiset{}, []), Request(school));
    if school !in s.pending then s
    else if Best(s.providers).Some? then Next(s, Choose(school))
    else Next(s, Fail(school))
  }

  lemma ServedMeans(providers: Providers, schools: map<School, Option<nat>>, school: School)
    requires school in schools
    ensures var s := Served(providers, schools, school);
      if schools[school].Some? || Best(providers).None? then s.providers == providers && s.providerOf == Assigned(schools)
      else
        var best := Best(providers).value;
        s.providers == Take(providers, best) && s.providerOf == Assigned(schools[school := Some(best)])
  {
    if schools[school].None? && Best(providers).Some? {
      var best := Best(providers).value;
      assert Assigned(schools[school := Some(best)]) == Assigned(schools)[school := best];
    }
  }

  class S3Strategy {
    var providers: Providers
    var schools: map<School, Option<nat>>   // the stored schools and their providers

    constructor (providers: Providers, schools: map<School, Option<nat>>)
      ensures this.providers == providers && this.schools == schools
    {
      this.providers, this.schools := providers, schools;
    }

    method ChooseProvider(school: School) returns (response: Response)
      requires school in schools
      modifies this
      ensures match Best(old(providers))
              case None => response.NoProvider? && providers == old(providers) && schools == old(schools)
              case Some(best) => response == Chosen(best) && providers == Take(old(providers), best)
                                   && schools == old(schools)[school := Some(best)]
    {
      var best := Best(providers);
      if best.None? {
        return NoProvider;
      }
      providers := Take(providers, best.value);
      schools := schools[school := Some(best.value)];
      response := Chosen(best.value);
    }

    /** A school that has a provider keeps it; a school without one is assigned the best, whenever there is a shared
        provider at all. */
    method CreateAWSObject(school: School) returns (response: Response)
      modifies this
      ensures response.NotFound? <==> school !in old(schools)
      ensures school in old(schools) && old(schools)[school].None? ==>
        (response.Chosen? <==> HasShared(old(providers))) && (response.NoProvider? <==> !HasShared(old(providers)))
      ensures school in old(schools) ==>
        providers == Served(old(providers), old(schools), school).providers
        && Assigned(schools) == Served(old(providers), old(schools), school).providerOf
      ensures response.NotFound? || response.NoProvider? ==> providers == old(providers) && schools == old(schools)
      ensures forall other :: other in old(schools) && (other != school || old(schools)[other].Some?) ==>
        other in schools && schools[other] == old(schools)[other]
      ensures response.Chosen? ==> school in schools && schools[school] == Some(response.provider)
      ensures school in old(schools) && old(schools)[school].Some? ==> response.Chosen? && providers == old(providers)
      ensures response.Chosen? && old(schools)[school].None? ==>
        IsBest(old(providers), response.provider) && providers == Take(old(providers), response.provider)
    {
      if school !in schools {
        return NotFound;
      }
      ServedMeans(providers, schools, school);
      if schools[school].None? {
        response := ChooseProvider(school);
      } else {
        response := Chosen(schools[school].value);
      }
    }
  }
}
