/** searchCollection as code: a map of locking queues, created on first use, and the handlers that one
    search registers.  The handlers change one lock and one search, in the way FinalEventReleasesOnce describes. */
module LdapServices {
  import opened LockProtocol
  import opened LockingQueues
  import opened LdapProtocol

  // One call of searchCollection: its lock, the entries collected so far and its promise.
  class SearchCall {
    const lock: ReleaseHandle
    var objects: seq<Entry>
    var outcome: Outcome

    constructor (lock: ReleaseHandle)
      ensures this.lock == lock && State() == Search([], Pending)
    {
      this.lock, this.objects, this.outcome := lock, [], Pending;
    }

    function State(): Search
      reads this
    {
      Search(objects, outcome)
    }

    // The lock was granted, so the search is with its server and handlers may run.
    ghost predicate Sent()
      reads this, lock, lock.queue, lock.queue.handles
    {
      lock.queue.Valid() && lock in lock.queue.handles && lock.fulfilled
    }

    // A promise settles once; later calls of resolve or reject are ignored.
    method SettlePromise(outcome: Outcome)
      modifies this
      ensures State() == Settle(old(State()), outcome)
    {
      if this.outcome.Pending? {
        this.outcome := outcome;
      }
    }

    method HandleError()
      requires Sent()
      modifies this, lock.queue, lock.queue.handles
      ensures Sent() && lock.queue.handles == old(lock.queue.handles)
      ensures lock.queue.State() == ReleaseLock(old(lock.queue.State()), lock.ticket)
      ensures State() == Settle(old(State()), Rejected)
    {
      lock.ReleaseLock();
      SettlePromise(Rejected);
      lock.queue.GrantedIsFulfilled(lock);
    }

    method OnSearchEntry(entry: Entry)
      requires Sent()
      modifies this
      ensures Sent() && State() == Search(old(objects) + [entry], old(outcome))
    {
      objects := objects + [entry];
    }

    /** The handler of `end` releases on both branches, after handleError may already have done so. */
    method OnEnd(status: int)
      requires Sent()
      modifies this, lock.queue, lock.queue.handles
      ensures Sent() && lock.queue.handles == old(lock.queue.handles)
      ensures lock.queue.State() == ReleaseLock(old(lock.queue.State()), lock.ticket)
      ensures State() == Settle(old(State()), if status == 0 then Resolved else Rejected)
    {
      if status == 0 {
        SettlePromise(Resolved);
      } else {
        HandleError();
      }
      lock.ReleaseLock();
      lock.queue.GrantedIsFulfilled(lock);
    }
  }

  class LdapService {
    var mapOfLocks: map<Url, LockingQueue>


    // Every server has a queue of its own.
    ghost predicate Valid()
      reads this
    {
      forall u, v :: u in mapOfLocks && v in mapOfLocks && u != v ==> mapOfLocks[u] != mapOfLocks[v]
    }

    constructor ()
      ensures Valid() && mapOfLocks == map[]
    {
      mapOfLocks := map[];
    }

    // A server without a queue counts as one whose lock nobody has asked for.
    ghost function LockOf(url: Url): Lock
      reads this
      reads if url in mapOfLocks then {mapOfLocks[url]} else {}
      reads if url in mapOfLocks then mapOfLocks[url].handles else []
      requires url in mapOfLocks ==> mapOfLocks[url].Valid()
    {
      if url in mapOfLocks then mapOfLocks[url].State() else IDLE
    }

    method QueueFor(url: Url) returns (queue: LockingQueue)
      requires Valid() && (url in mapOfLocks ==> mapOfLocks[url].Valid())
      modifies this
      ensures Valid() && queue.Valid() && queue.State() == old(LockOf(url))
      ensures mapOfLocks == old(mapOfLocks)[url := queue]
      ensures if url in old(mapOfLocks) then queue == old(mapOfLocks[url]) else fresh(queue)
    {
      if url !in mapOfLocks {
        queue := new LockingQueue();
        mapOfLocks := mapOfLocks[url := queue];
      }
      queue := mapOfLocks[url];
    }

    /** Draws the next ticket of the server's own queue.  By the frame, no other queue changes. */
    method SearchCollection(url: Url) returns (call: SearchCall)
      requires Valid() && (url in mapOfLocks ==> mapOfLocks[url].Valid())
      modifies this, if url in mapOfLocks then {mapOfLocks[url]} else {}
      ensures Valid() && url in mapOfLocks && mapOfLocks[url].Valid()
      ensures mapOfLocks == old(mapOfLocks)[url := mapOfLocks[url]]
      ensures if url in old(mapOfLocks) then mapOfLocks[url] == old(mapOfLocks[url]) else fresh(mapOfLocks[url])
      ensures LockOf(url) == RequestLock(old(LockOf(url)))
      ensures call.lock.queue == mapOfLocks[url] && call.lock in mapOfLocks[url].handles
      ensures call.lock.ticket == old(LockOf(url)).issued
      ensures fresh(call) && call.State() == Search([], Pending)
    {
      var queue := QueueFor(url);
      var lock := queue.GetLock();
      call := new SearchCall(lock);
    }
  }
}
