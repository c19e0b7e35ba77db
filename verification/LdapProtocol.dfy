/** Searching LDAP servers: one locking queue per server url, and for every search the events its
    connection may deliver, in any order and any number of times.  Each failing event releases the lock, and an
    `end` event releases it once more. */
module LdapProtocol {
  import opened LockProtocol

  type Url = string
  type Entry = string

  datatype Outcome = Pending | Resolved | Rejected
  // `objects` is the array the promise is resolved with, shared with the entry handler.
  datatype Search = Search(objects: seq<Entry>, outcome: Outcome)
  // A search is known by its server and the ticket it drew there.
  datatype Id = Id(url: Url, ticket: nat)
  datatype Service = Service(locks: map<Url, Lock>, searches: map<Id, Search>)

  datatype LdapEvent =
    | Begin(url: Url)                     // searchCollection is called
    | Throws(id: Id)                      // client.search throws
    | CallbackError(id: Id)               // client.search calls back with an error
    | StreamError(id: Id)
    | SearchEntry(id: Id, entry: Entry)
    | End(id: Id, status: int)

  const NO_SEARCHES := Service(map[], map[])

  function Settle(search: Search, outcome: Outcome): Search {
    if search.outcome.Pending? then search.(outcome := outcome) else search
  }

  function LockOf(s: Service, url: Url): Lock {
    if url in s.locks then s.locks[url] else IDLE
  }

  function BeginSearch(s: Service, url: Url): Service {
    var lock := LockOf(s, url);
    Service(s.locks[url := RequestLock(lock)], s.searches[Id(url, lock.issued) := Search([], Pending)])
  }

  function FreeLock(s: Service, id: Id): Service
    requires id.url in s.locks
  {
    s.(locks := s.locks[id.url := ReleaseLock(s.locks[id.url], id.ticket)])
  }

  function SettleSearch(s: Service, id: Id, outcome: Outcome): Service
    requires id in s.searches
  {
    s.(searches := s.searches[id := Settle(s.searches[id], outcome)])
  }

  function HandleError(s: Service, id: Id): Service
    requires id.url in s.locks && id in s.searches
  {
    SettleSearch(FreeLock(s, id), id, Rejected)
  }

  function AddEntry(s: Service, id: Id, entry: Entry): Service
    requires id in s.searches
  {
    s.(searches := s.searches[id := s.searches[id].(objects := s.searches[id].objects + [entry])])
  }

  function EndSearch(s: Service, id: Id, status: int): Service
    requires id.url in s.locks && id in s.searches
  {
    FreeLock(if status == 0 then SettleSearch(s, id, Resolved) else HandleError(s, id), id)
  }

  // A search was sent to its server once its lock promise is fulfilled; only then can events arrive.
  predicate Sent(s: Service, id: Id) {
    id.url in s.locks && id in s.searches && id.ticket in s.locks[id.url].granted
  }

  predicate Possible(s: Service, e: LdapEvent) {
    e.Begin? || Sent(s, e.id)
  }

  function Next(s: Service, e: LdapEvent): Service
    requires Possible(s, e)
  {
    match e
    case Begin(url) => BeginSearch(s, url)
    case SearchEntry(id, entry) => AddEntry(s, id, entry)
    case End(id, status) => EndSearch(s, id, status)
    case _ => HandleError(s, e.id)
  }

  predicate Trace(s: Service, events: seq<LdapEvent>)
    decreases |events|
  {
    events == [] || (Possible(s, events[0]) && Trace(Next(s, events[0]), events[1..]))
  }

  function After(s: Service, events: seq<LdapEvent>): Service
    requires Trace(s, events)
    decreases |events|
  {
    if events == [] then s else After(Next(s, events[0]), events[1..])
  }

  // In flight: sent to the server and not yet answered to the caller.
  predicate InFlight(s: Service, id: Id) {
    Sent(s, id) && s.searches[id].outcome.Pending?
  }

  // Searches exist for exactly the tickets drawn, and a search is settled if and only if its handle is released.
  ghost predicate ServiceInv(s: Service) {
    && (forall url :: url in s.locks ==> Inv(s.locks[url]))
    && (forall id :: id in s.searches <==> id.url in s.locks && id.ticket < s.locks[id.url].issued)
    && (forall id :: id in s.searches ==>
          (s.searches[id].outcome.Pending? <==> id.ticket !in s.locks[id.url].released))
  }

  // What the first final event of a search means for its promise.
  function VerdictOf(e: LdapEvent): Outcome {
    if e.End? && e.status == 0 then Resolved else Rejected
  }

  // However many times a final event releases the handle, the lock takes one step.
  lemma FinalEventReleasesOnce(s: Service, e: LdapEvent)
    requires Possible(s, e) && !e.Begin? && !e.SearchEntry?
    ensures Next(s, e) == Service(s.locks[e.id.url := ReleaseLock(s.locks[e.id.url], e.id.ticket)],
                                  s.searches[e.id := Settle(s.searches[e.id],
                                                            if e.End? && e.status == 0 then Resolved else Rejected)])
  {
    var lock := s.locks[e.id.url];
    assert ReleaseLock(ReleaseLock(lock, e.id.ticket), e.id.ticket) == ReleaseLock(lock, e.id.ticket);
  }

  // Replacing one url's lock and one of its searches keeps the invariant if the two agree.
  lemma OneSearchChanges(s: Service, id: Id, lock: Lock, search: Search)
    requires ServiceInv(s) && Inv(lock)
    requires id.ticket < lock.issued
    requires lock.issued == LockOf(s, id.url).issued || lock.issued == id.ticket + 1 == LockOf(s, id.url).issued + 1
    requires forall t :: t != id.ticket ==> (t in lock.released <==> t in LockOf(s, id.url).released)
    requires search.outcome.Pending? <==> id.ticket !in lock.released
    ensures ServiceInv(Service(s.locks[id.url := lock], s.searches[id := search]))
  {
  }

  lemma FinalEventKeepsInv(s: Service, id: Id, outcome: Outcome)
    requires ServiceInv(s) && Sent(s, id) && !outcome.Pending?
    ensures ServiceInv(Service(s.locks[id.url := ReleaseLock(s.locks[id.url], id.ticket)],
                               s.searches[id := Settle(s.searches[id], outcome)]))
  {
    var lock := s.locks[id.url];
    StepKeepsInv(lock, Release(id.ticket));
    OneSearchChanges(s, id, ReleaseLock(lock, id.ticket), Settle(s.searches[id], outcome));
  }

  lemma BeginKeepsInv(s: Service, url: Url)
    requires ServiceInv(s)
    ensures ServiceInv(BeginSearch(s, url))
  {
    var lock := LockOf(s, url);
    StepKeepsInv(lock, Request);
    assert lock.issued !in lock.released;
    OneSearchChanges(s, Id(url, lock.issued), RequestLock(lock), Search([], Pending));
  }

  lemma NextKeepsInv(s: Service, e: LdapEvent)
    requires ServiceInv(s) && Possible(s, e)
    ensures ServiceInv(Next(s, e))
  {
    match e
    case Begin(url) => BeginKeepsInv(s, url);
    case SearchEntry(id, entry) =>
    case _ =>
      FinalEventReleasesOnce(s, e);
      FinalEventKeepsInv(s, e.id, VerdictOf(e));
  }

  lemma {:induction false} TraceKeepsInv(s: Service, events: seq<LdapEvent>)
    requires ServiceInv(s) && Trace(s, events)
    ensures ServiceInv(After(s, events))
    decreases |events|
  {
    if events != [] {
      NextKeepsInv(s, events[0]);
      TraceKeepsInv(Next(s, events[0]), events[1..]);
    }
  }

  /** Whatever the servers deliver, at most one search per url is in flight. */
  lemma OneSearchPerServer(events: seq<LdapEvent>, a: Id, b: Id)
    requires Trace(NO_SEARCHES, events)
    requires a.url == b.url
    requires InFlight(After(NO_SEARCHES, events), a) && InFlight(After(NO_SEARCHES, events), b)
    ensures a == b
  {
    TraceKeepsInv(NO_SEARCHES, events);
    var s := After(NO_SEARCHES, events);
    HoldersAre(s.locks[a.url]);
    assert a.ticket in Holders(s.locks[a.url]) && b.ticket in Holders(s.locks[a.url]);
  }

  predicate Final(e: LdapEvent, id: Id) {
    !e.Begin? && !e.SearchEntry? && e.id == id
  }

  lemma HandOver(s: Service, id: Id, e: LdapEvent)
    requires ServiceInv(s) && InFlight(s, id) && Final(e, id)
    requires s.locks[id.url].waiting != []
    ensures InFlight(Next(s, e), Id(id.url, s.locks[id.url].waiting[0]))
  {
    var lock := s.locks[id.url];
    var oldest := Id(id.url, lock.waiting[0]);
    assert oldest in s.searches && oldest != id && oldest.ticket !in lock.released;
    FinalEventReleasesOnce(s, e);
    assert ReleaseLock(lock, id.ticket).granted[|lock.granted|] == oldest.ticket;
  }

  /** No search is stuck behind a free lock: while one waits, another on the same server is in
      flight, and any of its final events sends the one that has waited longest. */
  lemma WaitingSearchIsNext(events: seq<LdapEvent>, url: Url)
    requires Trace(NO_SEARCHES, events)
    requires var s := After(NO_SEARCHES, events); url in s.locks && s.locks[url].waiting != []
    ensures var s := After(NO_SEARCHES, events);
            exists id: Id ::
              && id.url == url && InFlight(s, id)
              && forall e :: Final(e, id) ==> InFlight(Next(s, e), Id(url, s.locks[url].waiting[0]))
  {
    TraceKeepsInv(NO_SEARCHES, events);
    var s := After(NO_SEARCHES, events);
    var lock := s.locks[url];
    HoldersAre(lock);
    var id := Id(url, |lock.granted| - 1);
    assert id.ticket in Holders(lock);
    assert id in s.searches && InFlight(s, id);
    forall e | Final(e, id)
      ensures InFlight(Next(s, e), Id(url, lock.waiting[0]))
    {
      HandOver(s, id, e);
    }
  }

  // What the events of a trace say about one search.

  function EntriesFor(events: seq<LdapEvent>, id: Id): seq<Entry>
    decreases |events|
  {
    if events == [] then []
    else (if events[0].SearchEntry? && events[0].id == id then [events[0].entry] else []) + EntriesFor(events[1..], id)
  }

  // The first final event decides.
  function Verdict(events: seq<LdapEvent>, id: Id): Outcome
    decreases |events|
  {
    if events == [] then Pending
    else if Final(events[0], id) then VerdictOf(events[0])
    else Verdict(events[1..], id)
  }

  function SearchAfter(search: Search, e: LdapEvent, id: Id): Search {
    if Final(e, id) then Settle(search, VerdictOf(e))
    else if e.SearchEntry? && e.id == id then search.(objects := search.objects + [e.entry])
    else search
  }

  lemma EventOnSearch(s: Service, e: LdapEvent, id: Id)
    requires ServiceInv(s) && Possible(s, e)
    requires id in s.searches
    ensures id in Next(s, e).searches
    ensures Next(s, e).searches[id] == SearchAfter(s.searches[id], e, id)
  {
    if !e.Begin? && !e.SearchEntry? {
      FinalEventReleasesOnce(s, e);
    }
  }

  function Replay(search: Search, events: seq<LdapEvent>, id: Id): Search
    decreases |events|
  {
    if events == [] then search else Replay(SearchAfter(search, events[0], id), events[1..], id)
  }

  lemma {:induction false} SearchFollowsItsEvents(s: Service, events: seq<LdapEvent>, id: Id)
    requires ServiceInv(s) && Trace(s, events)
    requires id in s.searches
    ensures id in After(s, events).searches && After(s, events).searches[id] == Replay(s.searches[id], events, id)
    decreases |events|
  {
    if events != [] {
      NextKeepsInv(s, events[0]);
      EventOnSearch(s, events[0], id);
      SearchFollowsItsEvents(Next(s, events[0]), events[1..], id);
    }
  }

  lemma {:induction false} ReplayMeans(search: Search, events: seq<LdapEvent>, id: Id)
    ensures Replay(search, events, id).objects == search.objects + EntriesFor(events, id)
    ensures Replay(search, events, id).outcome ==
            if search.outcome.Pending? then Verdict(events, id) else search.outcome
    decreases |events|
  {
    if events != [] {
      ReplayMeans(SearchAfter(search, events[0], id), events[1..], id);
    }
  }

  // The event at position k is the first one that answers the search.
  ghost predicate Answers(events: seq<LdapEvent>, id: Id, k: nat) {
    && k < |events| && !events[k].Begin? && !events[k].SearchEntry? && events[k].id == id
    && forall j :: 0 <= j < k ==> events[j].Begin? || events[j].SearchEntry? || events[j].id != id
  }

  lemma {:induction false} VerdictMeans(events: seq<LdapEvent>, id: Id)
    ensures Verdict(events, id).Pending? <==> forall k: nat :: !Answers(events, id, k)
    ensures forall k: nat :: Answers(events, id, k) ==>
      Verdict(events, id) == if events[k] == End(id, 0) then Resolved else Rejected
  {
    if events != [] {
      if Final(events[0], id) {
        assert Answers(events, id, 0);
      } else {
        VerdictMeans(events[1..], id);
        forall k: nat
          ensures Answers(events, id, k) <==> k > 0 && Answers(events[1..], id, k - 1)
        {
          AnswersShift(events, id, k);
        }
        if k: nat :| Answers(events[1..], id, k) {
          assert Answers(events, id, k + 1);
        }
      }
    }
  }

  lemma AnswersShift(events: seq<LdapEvent>, id: Id, k: nat)
    requires events != [] && !Final(events[0], id)
    ensures Answers(events, id, k) <==> k > 0 && Answers(events[1..], id, k - 1)
  {
    if k > 0 && Answers(events[1..], id, k - 1) {
      forall j | 0 <= j < k
        ensures events[j].Begin? || events[j].SearchEntry? || events[j].id != id
      {
        assert j > 0 ==> events[j] == events[1..][j - 1];
      }
    }
  }

  lemma {:induction false} EntriesMean(events: seq<LdapEvent>, id: Id)
    ensures forall entry :: entry in EntriesFor(events, id) <==> SearchEntry(id, entry) in events
  {
    if events != [] {
      EntriesMean(events[1..], id);
    }
  }

  /** The promise of a search that began at `start`: it is resolved if and only if the first event that answers the search
      is an end with status 0, rejected if and only if it is any other, and holds exactly the entries that arrived for it. */
  lemma PromiseFollowsAnswer(events: seq<LdapEvent>, start: nat, id: Id)
    requires Trace(NO_SEARCHES, events)
    requires start < |events| && events[start] == Begin(id.url)
    requires Trace(NO_SEARCHES, events[..start])
    requires id.ticket == LockOf(After(NO_SEARCHES, events[..start]), id.url).issued
    ensures id in After(NO_SEARCHES, events).searches
    ensures var search, later := After(NO_SEARCHES, events).searches[id], events[start + 1..];
            && (search.outcome == Pending <==> forall k: nat :: !Answers(later, id, k))
            && (forall k: nat :: Answers(later, id, k) ==>
                  search.outcome == if later[k] == End(id, 0) then Resolved else Rejected)
            && (forall entry :: entry in search.objects <==> SearchEntry(id, entry) in later)
  {
    CallerGetsItsEntries(events, start, id);
    VerdictMeans(events[start + 1..], id);
    EntriesMean(events[start + 1..], id);
  }

  /** The caller of the search that began at position `start` gets the entries that arrived for it,
      in order, if and only if its first final event was an `end` with status 0. */
  lemma CallerGetsItsEntries(events: seq<LdapEvent>, start: nat, id: Id)
    requires Trace(NO_SEARCHES, events)
    requires start < |events| && events[start] == Begin(id.url)
    requires Trace(NO_SEARCHES, events[..start])
    requires id.ticket == LockOf(After(NO_SEARCHES, events[..start]), id.url).issued
    ensures id in After(NO_SEARCHES, events).searches
    ensures var search := After(NO_SEARCHES, events).searches[id];
            && search.objects == EntriesFor(events[start + 1..], id)
            && search.outcome == Verdict(events[start + 1..], id)
  {
    var before := After(NO_SEARCHES, events[..start]);
    assert events == events[..start] + events[start..];
    TraceSplits(NO_SEARCHES, events[..start], events[start..]);
    TraceKeepsInv(NO_SEARCHES, events[..start]);
    NextKeepsInv(before, events[start]);
    assert events[start..][1..] == events[start + 1..];
    SearchFollowsItsEvents(Next(before, events[start]), events[start + 1..], id);
    ReplayMeans(Search([], Pending), events[start + 1..], id);
  }

  lemma {:induction false} TraceSplits(s: Service, first: seq<LdapEvent>, rest: seq<LdapEvent>)
    requires Trace(s, first + rest)
    ensures Trace(s, first) && Trace(After(s, first), rest)
    ensures After(s, first + rest) == After(After(s, first), rest)
    decreases |first|
  {
    if first == [] {
      assert first + rest == rest;
    } else {
      assert (first + rest)[1..] == first[1..] + rest;
      TraceSplits(Next(s, first[0]), first[1..], rest);
    }
  }

  function UrlOf(e: LdapEvent): Url {
    if e.Begin? then e.url else e.id.url
  }

  /** Servers do not block each other: events on other urls leave a url's lock and searches alone. */
  lemma {:induction false} ServersAreIndependent(s: Service, events: seq<LdapEvent>, url: Url)
    requires Trace(s, events)
    requires forall e :: e in events ==> UrlOf(e) != url
    ensures LockOf(After(s, events), url) == LockOf(s, url)
    ensures forall id: Id :: id.url == url ==>
      (id in After(s, events).searches <==> id in s.searches)
      && (id in s.searches ==> After(s, events).searches[id] == s.searches[id])
    decreases |events|
  {
    if events != [] {
      assert events[0] in events;
      ServersAreIndependent(Next(s, events[0]), events[1..], url);
    }
  }
}
