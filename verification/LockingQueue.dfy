/** The locking queue as its class: two fields, and one-shot release handles that write to them.
    Every method is specified by the step of LockProtocol it performs. */
module LockingQueues {
  import opened LockProtocol

  ghost function Tickets(handles: seq<ReleaseHandle>): seq<nat> {
    seq<nat>(|handles|, i requires 0 <= i < |handles| => handles[i].ticket)
  }

  // The object getLock's promise is fulfilled with, together with that promise's state.
  class ReleaseHandle {
    const queue: LockingQueue
    ghost const ticket: nat
    var released: bool
    var fulfilled: bool

    constructor (queue: LockingQueue, ghost ticket: nat, fulfilled: bool)
      ensures this.queue == queue && this.ticket == ticket
      ensures this.fulfilled == fulfilled && !released
    {
      this.queue, this.ticket := queue, ticket;
      this.fulfilled, this.released := fulfilled, false;
    }

    method ReleaseLock()
      requires queue.Valid() && this in queue.handles && fulfilled
      modifies queue, queue.handles
      ensures queue.Valid() && queue.handles == old(queue.handles)
      ensures queue.State() == LockProtocol.ReleaseLock(old(queue.State()), ticket)
    {
      assert this == queue.handles[ticket];
      if !released {
        released := true;
        queue.PassOn();
        ReleasedTickets();
        assert queue.State() == LockProtocol.ReleaseLock(old(queue.State()), ticket);
        StepKeepsInv(old(queue.State()), Release(ticket));
      }
    }

    // Setting one flag adds one ticket to the released ones.
    twostate lemma ReleasedTickets()
      requires old(queue.Indexed()) && queue.Indexed()
      requires old(this in queue.handles) && old(!released) && released
      requires queue.handles == old(queue.handles)
      requires forall h :: h in queue.handles && h != this ==> h.released == old(h.released)
      ensures queue.Released() == old(queue.Released()) + {ticket}
    {
      assert queue.handles[ticket] == this;
    }
  }

  class LockingQueue {
    var locked: bool
    var waiters: seq<ReleaseHandle>
    ghost var handles: seq<ReleaseHandle>   // one per getLock call, in call order
    ghost var grants: seq<nat>              // tickets in the order their promises were fulfilled

    // A ticket is the position of its handle.
    ghost predicate Indexed()
      reads this, handles
    {
      forall i :: 0 <= i < |handles| ==> handles[i].ticket == i && handles[i].queue == this
    }

    ghost function Released(): set<nat>
      reads this, handles
    {
      set i | 0 <= i < |handles| && handles[i].released
    }

    // The promises of granted tickets are fulfilled, and no others.
    ghost predicate Fulfilled()
      reads this, handles
    {
      forall i :: 0 <= i < |handles| ==> (handles[i].fulfilled <==> i in grants)
    }

    ghost predicate Valid()
      reads this, handles
    {
      && Indexed()
      && (forall w :: w in waiters ==> w in handles)
      && Fulfilled()
      && Inv(State())
    }

    ghost function State(): Lock
      reads this, handles
      requires Indexed()
    {
      Lock(locked, Tickets(waiters), grants, Released(), |handles|)
    }

    constructor ()
      ensures Valid() && State() == IDLE && handles == []
    {
      locked, waiters, handles, grants := false, [], [], [];
    }

    // A handle whose ticket is granted has a fulfilled promise.
    lemma GrantedIsFulfilled(handle: ReleaseHandle)
      requires Valid() && handle in handles
      ensures handle.fulfilled <==> handle.ticket in State().granted
    {
      assert handle == handles[handle.ticket];
    }

    // What a release does to the queue: the oldest waiting promise is fulfilled, or else the lock is free.
    method PassOn()
      requires Indexed() && Fulfilled() && forall w :: w in waiters ==> w in handles
      modifies this, handles
      ensures Indexed() && Fulfilled() && handles == old(handles)
      ensures forall h :: h in handles ==> h.released == old(h.released)
      ensures waiters == if old(waiters) == [] then [] else old(waiters)[1..]
      ensures grants == if old(waiters) == [] then old(grants) else old(grants) + [old(waiters[0].ticket)]
      ensures locked == (old(locked) && old(waiters) != [])
    {
      if |waiters| == 0 {
        locked := false;
      } else {
        var next := waiters[0];
        assert next in waiters && handles[next.ticket] == next;
        waiters := waiters[1..];
        next.fulfilled := true;
        grants := grants + [next.ticket];
      }
    }

    method GetLock() returns (handle: ReleaseHandle)
      requires Valid()
      modifies this
      ensures Valid() && fresh(handle) && handles == old(handles) + [handle]
      ensures State() == RequestLock(old(State()))
      ensures handle.queue == this && handle.ticket == old(|handles|) && !handle.released
    {
      handle := new ReleaseHandle(this, |handles|, !locked);
      if !locked {
        locked := true;
        grants := grants + [|handles|];
      } else {
        waiters := waiters + [handle];
      }
      handles := handles + [handle];
      StepKeepsInv(old(State()), Request);
      assert State() == RequestLock(old(State()));
    }
  }
}
