/** The locking protocol of one queue, as steps over values.

    A ticket is the position of a `getLock` call in the order of the calls.  Its caller holds the
    release handle once the promise is fulfilled, that is, once the ticket is in `granted`. */
module LockProtocol {

  datatype Lock = Lock(
    locked: bool,
    waiting: seq<nat>,    // deferred promises, oldest first
    granted: seq<nat>,    // fulfilled promises, in the order in which they were fulfilled
    released: set<nat>,   // handles whose `released` flag is set
    issued: nat)          // number of getLock calls so far

  const IDLE := Lock(false, [], [], {}, 0)

  datatype Event = Request | Release(ticket: nat)

  function RequestLock(s: Lock): Lock {
    if !s.locked then
      s.(locked := true, granted := s.granted + [s.issued], issued := s.issued + 1)
    else
      s.(waiting := s.waiting + [s.issued], issued := s.issued + 1)
  }

  // A handle acts once; afterwards its releaseLock does nothing.
  function ReleaseLock(s: Lock, ticket: nat): Lock {
    if ticket in s.released then
      s
    else if s.waiting == [] then
      s.(released := s.released + {ticket}, locked := false)
    else
      s.(released := s.released + {ticket},
         waiting := s.waiting[1..],
         granted := s.granted + [s.waiting[0]])
  }

  // Only somebody whose promise was fulfilled owns a handle to call.
  predicate Enabled(s: Lock, e: Event) {
    e.Release? ==> e.ticket in s.granted
  }

  function Step(s: Lock, e: Event): Lock {
    match e
    case Request => RequestLock(s)
    case Release(t) => ReleaseLock(s, t)
  }

  predicate Legal(s: Lock, events: seq<Event>)
    decreases |events|
  {
    events == [] || (Enabled(s, events[0]) && Legal(Step(s, events[0]), events[1..]))
  }

  function Run(s: Lock, events: seq<Event>): Lock
    decreases |events|
  {
    if events == [] then s else Run(Step(s, events[0]), events[1..])
  }

  function Holders(s: Lock): set<nat> {
    set t | t in s.granted && t !in s.released
  }

  // A release is effective when the handle was still armed.
  predicate Effective(s: Lock, e: Event) {
    e.Release? && e.ticket !in s.released
  }

  function EffectiveReleases(s: Lock, events: seq<Event>): nat
    decreases |events|
  {
    if events == [] then 0
    else (if Effective(s, events[0]) then 1 else 0) + EffectiveReleases(Step(s, events[0]), events[1..])
  }

  // Tickets are granted in order, everybody but the last one granted has released, and
  // the flag tells whether the last one still holds.
  ghost predicate Inv(s: Lock) {
    && (forall i :: 0 <= i < |s.granted| ==> s.granted[i] == i)
    && (forall i :: 0 <= i < |s.waiting| ==> s.waiting[i] == |s.granted| + i)
    && s.issued == |s.granted| + |s.waiting|
    && (forall t :: t in s.released ==> t < |s.granted|)
    && (forall t :: 0 <= t < |s.granted| - 1 ==> t in s.released)
    && (s.locked <==> |s.granted| > 0 && |s.granted| - 1 !in s.released)
    && (s.waiting != [] ==> s.locked)
  }

  lemma StepKeepsInv(s: Lock, e: Event)
    requires Inv(s) && Enabled(s, e)
    ensures Inv(Step(s, e))
  {
    match e
    case Request =>
    case Release(t) =>
      assert t < |s.granted|;
  }

  lemma {:induction false} RunKeepsInv(s: Lock, events: seq<Event>)
    requires Inv(s) && Legal(s, events)
    ensures Inv(Run(s, events))
    decreases |events|
  {
    if events != [] {
      StepKeepsInv(s, events[0]);
      RunKeepsInv(Step(s, events[0]), events[1..]);
    }
  }

  lemma HoldersAre(s: Lock)
    requires Inv(s)
    ensures Holders(s) == if s.locked then {|s.granted| - 1} else {}
  {
    forall t | t in s.granted
      ensures t < |s.granted| && (t == |s.granted| - 1 || t in s.released)
    {
    }
    if s.locked {
      assert s.granted[|s.granted| - 1] in s.granted;
    }
  }

  /** In every interleaving there is at most one unreleased handle, `locked` tells exactly
      whether there is one, and nobody waits for a free lock. */
  lemma MutualExclusion(events: seq<Event>)
    requires Legal(IDLE, events)
    ensures var s := Run(IDLE, events);
            && |Holders(s)| == (if s.locked then 1 else 0)
            && (s.waiting != [] ==> s.locked)
  {
    RunKeepsInv(IDLE, events);
    HoldersAre(Run(IDLE, events));
  }

  lemma {:induction false} InitialSegmentSize(s: set<nat>, n: nat)
    requires forall t: nat :: t in s <==> t < n
    ensures |s| == n
  {
    if n != 0 {
      InitialSegmentSize(s - {n - 1}, n - 1);
    }
  }

  /** Locks are granted in exact request order, and every ticket is waiting, holding or released. */
  lemma GrantsInRequestOrder(events: seq<Event>)
    requires Legal(IDLE, events)
    ensures var s := Run(IDLE, events);
            && s.granted + s.waiting == seq(s.issued, i => i)
            && |s.waiting| + |Holders(s)| + |s.released| == s.issued
  {
    var s := Run(IDLE, events);
    RunKeepsInv(IDLE, events);
    HoldersAre(s);
    var done: nat := if s.locked then |s.granted| - 1 else |s.granted|;
    assert forall t: nat :: t in s.released <==> t < done;
    InitialSegmentSize(s.released, done);
  }

  lemma {:induction false} GrantsAreKept(s: Lock, events: seq<Event>)
    ensures s.granted <= Run(s, events).granted
    decreases |events|
  {
    if events != [] {
      GrantsAreKept(Step(s, events[0]), events[1..]);
    }
  }

  /** The waiter behind k others is served exactly when k + 1 effective releases have happened:
      neither later requests nor repeated releases of old handles move it. */
  lemma {:induction false} ServedAfterExactly(s: Lock, events: seq<Event>, k: nat)
    requires Inv(s) && Legal(s, events)
    requires k < |s.waiting|
    ensures s.waiting[k] in Run(s, events).granted <==> EffectiveReleases(s, events) > k
    decreases |events|
  {
    if events == [] {
      assert s.waiting[k] !in s.granted;
    } else {
      var e, s' := events[0], Step(s, events[0]);
      StepKeepsInv(s, e);
      if !Effective(s, e) {
        assert s'.waiting[k] == s.waiting[k];
        ServedAfterExactly(s', events[1..], k);
      } else if k == 0 {
        GrantsAreKept(s', events[1..]);
        assert s'.granted[|s.granted|] == s.waiting[0];
        assert s'.granted[|s.granted|] in Run(s', events[1..]).granted;
      } else {
        assert s'.waiting[k - 1] == s.waiting[k];
        ServedAfterExactly(s', events[1..], k - 1);
      }
    }
  }

  /** A release changes something only when it comes from the current holder: the second
      release of an old handle never frees the next one. */
  lemma OnlyTheHolderReleases(events: seq<Event>, t: nat)
    requires Legal(IDLE, events)
    requires t in Run(IDLE, events).granted
    ensures ReleaseLock(Run(IDLE, events), t) != Run(IDLE, events) <==> Holders(Run(IDLE, events)) == {t}
  {
    var s := Run(IDLE, events);
    RunKeepsInv(IDLE, events);
    HoldersAre(s);
    if t !in s.released {
      assert t in ReleaseLock(s, t).released;
      assert t in Holders(s);
    }
  }

  // Every holder releases once, one after the other, starting with `first`.
  function Drain(first: nat, n: nat): seq<Event>
    decreases n
  {
    if n == 0 then [] else [Release(first)] + Drain(first + 1, n - 1)
  }

  /** No wake-up is lost: when each holder releases once, everybody is served and the lock is free. */
  lemma {:induction false} DrainServesEveryone(s: Lock)
    requires Inv(s) && s.locked
    ensures var events := Drain(|s.granted| - 1, |s.waiting| + 1);
            && Legal(s, events)
            && Run(s, events).granted == s.granted + s.waiting
            && !Run(s, events).locked && Holders(Run(s, events)) == {}
    decreases |s.waiting|
  {
    var t := |s.granted| - 1;
    assert s.granted[t] in s.granted;
    var e := Release(t);
    var s' := Step(s, e);
    StepKeepsInv(s, e);
    var events := Drain(t, |s.waiting| + 1);
    assert events[0] == e && events[1..] == Drain(t + 1, |s.waiting|);
    if s.waiting == [] {
      HoldersAre(s');
    } else {
      DrainServesEveryone(s');
      assert s.granted + s.waiting == s'.granted + s'.waiting;
    }
  }
}
