/** Importing news feeds: every item of every feed is written by guid, and afterwards the school's feed news
    that no successful feed has confirmed are removed. */
module RssNews {
  import opened Options

  type Guid = string
  type SchoolId = string

  datatype Source = Rss | Internal
  datatype News = News(schoolId: SchoolId, source: Source, externalId: Option<Guid>, text: string)
  datatype Item = Item(guid: Guid, text: string)

  /** One feed as it is read: the items that are written, and whether reading or writing fails after them. */
  datatype Feed = Feed(items: seq<Item>, fails: bool)

  // Documents in natural order, and the id the next new document gets.
  datatype Store = Store(news: map<nat, News>, next: nat)

  ghost predicate Valid(s: Store) {
    && (forall id :: id in s.news ==> id < s.next)
    && (forall id :: id in s.news && s.news[id].source.Internal? ==> s.news[id].externalId.None?)
  }

  predicate HasGuid(s: Store, school: SchoolId, guid: Guid, id: nat) {
    id in s.news && s.news[id].schoolId == school && s.news[id].externalId == Some(guid)
  }

  // The first document of the school with this guid.
  function FindFrom(s: Store, school: SchoolId, guid: Guid, from: nat): (found: Option<nat>)
    requires from <= s.next
    ensures found.Some? ==> HasGuid(s, school, guid, found.value) && from <= found.value < s.next
    ensures forall id :: from <= id < s.next && HasGuid(s, school, guid, id) ==> found.Some? && found.value <= id
    decreases s.next - from
  {
    if from == s.next then None
    else if HasGuid(s, school, guid, from) then Some(from)
    else FindFrom(s, school, guid, from + 1)
  }

  function Find(s: Store, school: SchoolId, guid: Guid): Option<nat> {
    FindFrom(s, school, guid, 0)
  }

  function TargetOf(s: Store, school: SchoolId, item: Item): nat {
    if Find(s, school, item.guid).Some? then Find(s, school, item.guid).value else s.next
  }

  // findOneAndUpdate with upsert
  function Upsert(s: Store, school: SchoolId, item: Item): Store {
    var id := TargetOf(s, school, item);
    Store(s.news[id := News(school, Rss, Some(item.guid), item.text)], if id == s.next then s.next + 1 else s.next)
  }

  function UpsertAll(s: Store, school: SchoolId, items: seq<Item>): Store
    decreases |items|
  {
    if items == [] then s else Upsert(UpsertAll(s, school, items[..|items| - 1]), school, items[|items| - 1])
  }

  function AllItems(feeds: seq<Feed>): seq<Item> {
    if feeds == [] then [] else AllItems(feeds[..|feeds| - 1]) + feeds[|feeds| - 1].items
  }

  // Guids that some successful feed contains.
  function Confirmed(feeds: seq<Feed>): set<Guid> {
    set feed, item | feed in feeds && !feed.fails && item in feed.items :: item.guid
  }

  predicate IsFeedNews(news: News, school: SchoolId) {
    news.source.Rss? && news.schoolId == school
  }

  // deleteMany
  function Prune(s: Store, school: SchoolId, keep: set<nat>): Store {
    s.(news := map id | id in s.news && (id in keep || !IsFeedNews(s.news[id], school)) :: s.news[id])
  }

  function KeptIds(s: Store, school: SchoolId, feeds: seq<Feed>): set<nat> {
    set guid | guid in Confirmed(feeds) && Find(s, school, guid).Some? :: Find(s, school, guid).value
  }

  // processSchool
  function Process(s: Store, school: SchoolId, feeds: seq<Feed>): Store {
    var written := UpsertAll(s, school, AllItems(feeds));
    Prune(written, school, KeptIds(written, school, feeds))
  }

  // The last text that was written under a guid.
  function LastText(items: seq<Item>, guid: Guid): Option<string> {
    if items == [] then None
    else if items[|items| - 1].guid == guid then Some(items[|items| - 1].text)
    else LastText(items[..|items| - 1], guid)
  }

  // One write.

  lemma UpsertKeepsValid(s: Store, school: SchoolId, item: Item)
    requires Valid(s)
    ensures Valid(Upsert(s, school, item)) && s.next <= Upsert(s, school, item).next
  {
  }

  lemma FindIs(s: Store, school: SchoolId, guid: Guid, id: nat)
    requires Valid(s) && HasGuid(s, school, guid, id)
    requires forall other :: HasGuid(s, school, guid, other) ==> id <= other
    ensures Find(s, school, guid) == Some(id)
  {
    assert id < s.next;
  }

  lemma FindIsNone(s: Store, school: SchoolId, guid: Guid)
    requires forall id :: !HasGuid(s, school, guid, id)
    ensures Find(s, school, guid) == None
  {
  }

  // A write decides what is found under its guid, and nothing else.
  lemma FindAfterUpsert(s: Store, school: SchoolId, item: Item, guid: Guid)
    requires Valid(s)
    ensures Find(Upsert(s, school, item), school, guid) ==
            if guid == item.guid then Some(TargetOf(s, school, item)) else Find(s, school, guid)
  {
    var s', target := Upsert(s, school, item), TargetOf(s, school, item);
    UpsertKeepsValid(s, school, item);
    assert forall id :: HasGuid(s', school, guid, id) <==>
      (if id == target then guid == item.guid else HasGuid(s, school, guid, id));
    if guid == item.guid {
      assert HasGuid(s', school, guid, target);
      FindIs(s', school, guid, target);
    } else if Find(s, school, guid).Some? {
      FindIs(s', school, guid, Find(s, school, guid).value);
    } else {
      FindIsNone(s', school, guid);
    }
  }

  // All writes.

  /** Writing a list of items: what was found before stays found, every written guid is found with its last text, and
      documents that are not feed news of this school are not touched. */
  lemma {:induction false} WritesAreByGuid(s: Store, school: SchoolId, items: seq<Item>)
    requires Valid(s)
    ensures var s' := UpsertAll(s, school, items);
      && Valid(s') && s.next <= s'.next
      && (forall guid :: Find(s, school, guid).Some? ==> Find(s', school, guid) == Find(s, school, guid))
      && (forall guid :: Find(s', school, guid).Some? <==> Find(s, school, guid).Some? || LastText(items, guid).Some?)
      && (forall guid :: LastText(items, guid).Some? ==>
            s'.news[Find(s', school, guid).value] == News(school, Rss, Some(guid), LastText(items, guid).value))
      && (forall guid :: LastText(items, guid).None? && Find(s, school, guid).Some? ==>
            s'.news[Find(s', school, guid).value] == s.news[Find(s, school, guid).value])
      && (forall id :: id in s.news && !IsFeedNews(s.news[id], school) ==> id in s'.news && s'.news[id] == s.news[id])
      && (forall id :: id in s'.news && !IsFeedNews(s'.news[id], school) ==> id in s.news && s'.news[id] == s.news[id])
    decreases |items|
  {
    if items != [] {
      var before, item := items[..|items| - 1], items[|items| - 1];
      var t := UpsertAll(s, school, before);
      WritesAreByGuid(s, school, before);
      UpsertKeepsValid(t, school, item);
      forall guid
        ensures Find(Upsert(t, school, item), school, guid) ==
                if guid == item.guid then Some(TargetOf(t, school, item)) else Find(t, school, guid)
      {
        FindAfterUpsert(t, school, item, guid);
      }
    }
  }

  lemma {:induction false} ConfirmedIsWritten(feeds: seq<Feed>, guid: Guid)
    requires guid in Confirmed(feeds)
    ensures LastText(AllItems(feeds), guid).Some?
  {
    var last := feeds[|feeds| - 1];
    if exists item :: item in last.items && item.guid == guid {
      LastTextOfConcat(AllItems(feeds[..|feeds| - 1]), last.items, guid);
    } else {
      ConfirmedIsWritten(feeds[..|feeds| - 1], guid);
      LastTextOfConcat(AllItems(feeds[..|feeds| - 1]), last.items, guid);
    }
  }

  lemma {:induction false} LastTextOfConcat(a: seq<Item>, b: seq<Item>, guid: Guid)
    ensures LastText(a + b, guid) == if LastText(b, guid).Some? then LastText(b, guid) else LastText(a, guid)
    ensures LastText(b, guid).Some? <==> exists item :: item in b && item.guid == guid
    decreases |b|
  {
    if b == [] {
      assert a + b == a;
    } else {
      assert (a + b)[..|a + b| - 1] == a + b[..|b| - 1];
      LastTextOfConcat(a, b[..|b| - 1], guid);
      assert b == b[..|b| - 1] + [b[|b| - 1]];
    }
  }

  /** What processing a school leaves: the feed news of the school are one document per confirmed guid,
      with the text that was written last, also if a failing feed wrote it; everything else is as before. */
  lemma FeedNewsAreTheConfirmedItems(s: Store, school: SchoolId, feeds: seq<Feed>)
    requires Valid(s)
    ensures var s' := Process(s, school, feeds);
      && Valid(s')
      && (forall id :: id in s'.news && s'.news[id].source == Rss && s'.news[id].schoolId == school ==>
            exists guid :: guid in Confirmed(feeds) && Find(s', school, guid) == Some(id))
      && (forall guid :: guid in Confirmed(feeds) ==>
            && Find(s', school, guid).Some?
            && LastText(AllItems(feeds), guid).Some?
            && s'.news[Find(s', school, guid).value] ==
                 News(school, Rss, Some(guid), LastText(AllItems(feeds), guid).value))
      && (forall id :: id in s.news && !(s.news[id].source == Rss && s.news[id].schoolId == school) ==> id in s'.news && s'.news[id] == s.news[id])
      && (forall id :: id in s'.news && !(s'.news[id].source == Rss && s'.news[id].schoolId == school) ==> id in s.news && s'.news[id] == s.news[id])
  {
    var written := UpsertAll(s, school, AllItems(feeds));
    var s' := Process(s, school, feeds);
    WritesAreByGuid(s, school, AllItems(feeds));
    forall guid | guid in Confirmed(feeds)
      ensures LastText(AllItems(feeds), guid).Some? && Find(s', school, guid) == Find(written, school, guid)
    {
      ConfirmedIsWritten(feeds, guid);
      KeptIsFound(written, school, feeds, guid);
    }
    forall id | id in s'.news && IsFeedNews(s'.news[id], school)
      ensures exists guid :: guid in Confirmed(feeds) && Find(s', school, guid) == Some(id)
    {
      assert id in KeptIds(written, school, feeds);
    }
  }

  // What failing feeds leave behind.

  function Successful(feeds: seq<Feed>): seq<Feed> {
    if feeds == [] then []
    else
      var before, last := Successful(feeds[..|feeds| - 1]), feeds[|feeds| - 1];
      if last.fails then before else before + [last]
  }

  predicate Contains(feed: Feed, guid: Guid) {
    exists item :: item in feed.items && item.guid == guid
  }

  // The failing feeds behind the last successful one that contains the guid.
  function LaterFailures(feeds: seq<Feed>, guid: Guid): seq<Feed> {
    if feeds == [] then []
    else
      var before, last := feeds[..|feeds| - 1], feeds[|feeds| - 1];
      if last.fails then LaterFailures(before, guid) + [last]
      else if Contains(last, guid) then []
      else LaterFailures(before, guid)
  }

  lemma {:induction false} SuccessfulConfirms(feeds: seq<Feed>)
    ensures Confirmed(Successful(feeds)) == Confirmed(feeds)
  {
    forall feed
      ensures feed in Successful(feeds) <==> feed in feeds && !feed.fails
    {
      SuccessfulAre(feeds, feed);
    }
  }

  lemma {:induction false} SuccessfulAre(feeds: seq<Feed>, feed: Feed)
    ensures feed in Successful(feeds) <==> feed in feeds && !feed.fails
  {
    if feeds != [] {
      SuccessfulAre(feeds[..|feeds| - 1], feed);
      assert feeds == feeds[..|feeds| - 1] + [feeds[|feeds| - 1]];
    }
  }

  lemma AllItemsOfSnoc(feeds: seq<Feed>, feed: Feed, guid: Guid)
    ensures LastText(AllItems(feeds + [feed]), guid) ==
            if LastText(feed.items, guid).Some? then LastText(feed.items, guid) else LastText(AllItems(feeds), guid)
    ensures LastText(feed.items, guid).Some? <==> Contains(feed, guid)
  {
    assert (feeds + [feed])[..|feeds|] == feeds;
    LastTextOfConcat(AllItems(feeds), feed.items, guid);
  }

  lemma {:induction false} LastTextWithFailures(feeds: seq<Feed>, guid: Guid)
    ensures var late := LastText(AllItems(LaterFailures(feeds, guid)), guid);
            LastText(AllItems(feeds), guid) == if late.Some? then late else LastText(AllItems(Successful(feeds)), guid)
  {
    if feeds != [] {
      var before, last := feeds[..|feeds| - 1], feeds[|feeds| - 1];
      assert feeds == before + [last];
      LastTextWithFailures(before, guid);
      AllItemsOfSnoc(before, last, guid);
      if last.fails {
        AllItemsOfSnoc(LaterFailures(before, guid), last, guid);
      } else {
        AllItemsOfSnoc(Successful(before), last, guid);
      }
    }
  }

  /** Failing feeds decide about no document, but they can decide its text: a confirmed guid has the text that the
      successful feeds alone would give it if and only if the failing feeds behind the last successful one
      with this guid do not contain it, or happen to end with the same text. */
  lemma TextIsFromSuccessfulFeedsIff(s: Store, school: SchoolId, feeds: seq<Feed>, guid: Guid)
    requires Valid(s) && guid in Confirmed(feeds)
    ensures var s', t := Process(s, school, feeds), Process(s, school, Successful(feeds));
            var late := LastText(AllItems(LaterFailures(feeds, guid)), guid);
            && Confirmed(Successful(feeds)) == Confirmed(feeds)
            && Find(s', school, guid).Some? && Find(t, school, guid).Some?
            && (s'.news[Find(s', school, guid).value].text == t.news[Find(t, school, guid).value].text <==>
                  late.None? || late == LastText(AllItems(Successful(feeds)), guid))
  {
    SuccessfulConfirms(feeds);
    FeedNewsAreTheConfirmedItems(s, school, feeds);
    FeedNewsAreTheConfirmedItems(s, school, Successful(feeds));
    LastTextWithFailures(feeds, guid);
  }

  /** It happens: a feed that fails after it has written leaves its text in the document another feed confirms. */
  lemma LateFailureLeavesItsText(s: Store, school: SchoolId, guid: Guid, good: string, bad: string)
    requires Valid(s) && good != bad
    ensures var feeds := [Feed([Item(guid, good)], false), Feed([Item(guid, bad)], true)];
            var s' := Process(s, school, feeds);
            && Confirmed(feeds) == {guid}
            && Find(s', school, guid).Some?
            && s'.news[Find(s', school, guid).value] == News(school, Rss, Some(guid), bad)
  {
    var first, second := Feed([Item(guid, good)], false), Feed([Item(guid, bad)], true);
    var feeds := [first, second];
    assert first in feeds && Item(guid, good) in first.items;
    assert Confirmed(feeds) == {guid};
    assert feeds[..1] == [first] && feeds[1] == second;
    FeedNewsAreTheConfirmedItems(s, school, feeds);
    assert feeds == [first] + [second];
    AllItemsOfSnoc([first], second, guid);
    assert LastText(second.items, guid) == Some(bad);
  }

  /** Which guids the school has feed news for afterwards: those of the items of feeds that did not fail. */
  lemma FeedNewsIffSuccessful(s: Store, school: SchoolId, feeds: seq<Feed>, guid: Guid)
    requires Valid(s)
    ensures var s' := Process(s, school, feeds);
            (exists id :: id in s'.news && s'.news[id].source == Rss && s'.news[id].schoolId == school
                          && s'.news[id].externalId == Some(guid)) <==>
            (exists feed, item :: feed in feeds && !feed.fails && item in feed.items && item.guid == guid)
  {
    FeedNewsAreTheConfirmedItems(s, school, feeds);
    var s' := Process(s, school, feeds);
    assert guid in Confirmed(feeds) <==> exists feed, item :: feed in feeds && !feed.fails && item in feed.items && item.guid == guid;
    if guid in Confirmed(feeds) {
      assert HasGuid(s', school, guid, Find(s', school, guid).value);
    }
  }

  // Pruning keeps the first document of every confirmed guid.
  lemma KeptIsFound(written: Store, school: SchoolId, feeds: seq<Feed>, guid: Guid)
    requires Valid(written) && guid in Confirmed(feeds) && Find(written, school, guid).Some?
    ensures var s' := Prune(written, school, KeptIds(written, school, feeds));
            Find(s', school, guid) == Find(written, school, guid)
  {
    var s' := Prune(written, school, KeptIds(written, school, feeds));
    var id := Find(written, school, guid).value;
    assert id in KeptIds(written, school, feeds);
    assert HasGuid(s', school, guid, id);
    forall other: nat | HasGuid(s', school, guid, other)
      ensures id <= other
    {
      assert HasGuid(written, school, guid, other) && other < written.next;
    }
    FindIs(s', school, guid, id);
  }

  /** No two feed news of the school share a guid, even if they did before. */
  lemma OneDocumentPerGuid(s: Store, school: SchoolId, feeds: seq<Feed>, a: nat, b: nat)
    requires Valid(s)
    requires var s' := Process(s, school, feeds);
             && a in s'.news && IsFeedNews(s'.news[a], school) && b in s'.news && IsFeedNews(s'.news[b], school)
             && s'.news[a].externalId == s'.news[b].externalId
    ensures a == b
  {
    FeedNewsAreTheConfirmedItems(s, school, feeds);
    var s' := Process(s, school, feeds);
    var g :| g in Confirmed(feeds) && Find(s', school, g) == Some(a);
    var h :| h in Confirmed(feeds) && Find(s', school, h) == Some(b);
  }

  // A second run finds every confirmed guid where the first one left it.
  lemma SecondRunFinds(s: Store, school: SchoolId, feeds: seq<Feed>, guid: Guid)
    requires Valid(s) && guid in Confirmed(feeds)
    ensures var s1 := Process(s, school, feeds);
            var s2 := Process(s1, school, feeds);
            Find(s1, school, guid).Some? && Find(s2, school, guid) == Find(s1, school, guid)
  {
    var s1 := Process(s, school, feeds);
    FeedNewsAreTheConfirmedItems(s, school, feeds);
    WritesAreByGuid(s1, school, AllItems(feeds));
    KeptIsFound(UpsertAll(s1, school, AllItems(feeds)), school, feeds, guid);
  }

  lemma SecondRunKeeps(s: Store, school: SchoolId, feeds: seq<Feed>, id: nat)
    requires Valid(s)
    ensures var s1 := Process(s, school, feeds);
            var s2 := Process(s1, school, feeds);
            && (id in s1.news ==> id in s2.news && s2.news[id] == s1.news[id])
            && (id in s2.news ==> id in s1.news)
  {
    var s1 := Process(s, school, feeds);
    var s2 := Process(s1, school, feeds);
    FeedNewsAreTheConfirmedItems(s, school, feeds);
    FeedNewsAreTheConfirmedItems(s1, school, feeds);
    if id in s1.news && IsFeedNews(s1.news[id], school) {
      var guid :| guid in Confirmed(feeds) && Find(s1, school, guid) == Some(id);
      SecondRunFinds(s, school, feeds, guid);
    }
    if id in s2.news && IsFeedNews(s2.news[id], school) {
      var guid :| guid in Confirmed(feeds) && Find(s2, school, guid) == Some(id);
      SecondRunFinds(s, school, feeds, guid);
    }
  }

  /** A second run with the same feeds, failing ones included, changes no document. */
  lemma SecondRunChangesNothing(s: Store, school: SchoolId, feeds: seq<Feed>)
    requires Valid(s)
    ensures Process(Process(s, school, feeds), school, feeds).news == Process(s, school, feeds).news
  {
    var s1 := Process(s, school, feeds);
    var s2 := Process(s1, school, feeds);
    forall id: nat
      ensures id in s1.news <==> id in s2.news
      ensures id in s1.news && id in s2.news ==> s1.news[id] == s2.news[id]
    {
      SecondRunKeeps(s, school, feeds, id);
    }
  }

  // The job.

  class NewsJob {
    var store: Store

    constructor (store: Store)
      ensures this.store == store
    {
      this.store := store;
    }

    method FindOneAndUpdate(school: SchoolId, item: Item) returns (id: nat)
      requires Valid(store)
      modifies this
      ensures store == Upsert(old(store), school, item) && Valid(store)
      ensures Find(store, school, item.guid) == Some(id)
    {
      id := TargetOf(store, school, item);
      UpsertKeepsValid(store, school, item);
      FindAfterUpsert(store, school, item, item.guid);
      store := Upsert(store, school, item);
    }

    // A failing feed throws after its last written item, so that its ids are lost.
    method HandleFeed(feed: Feed, school: SchoolId) returns (checkedNews: Option<set<nat>>)
      requires Valid(store)
      modifies this
      ensures Valid(store) && store == UpsertAll(old(store), school, feed.items)
      ensures checkedNews == if feed.fails then None else Some(FoundIds(store, school, feed.items))
    {
      var checked := {};
      for i := 0 to |feed.items|
        invariant Valid(store) && store == UpsertAll(old(store), school, feed.items[..i])
        invariant checked == FoundIds(store, school, feed.items[..i])
      {
        assert feed.items[..i + 1] == feed.items[..i] + [feed.items[i]];
        NextItem(old(store), school, feed.items[..i], feed.items[i]);
        var id := FindOneAndUpdate(school, feed.items[i]);
        checked := checked + {id};
      }
      assert feed.items[..|feed.items|] == feed.items;
      checkedNews := if feed.fails then None else Some(checked);
    }

    method ProcessSchool(school: SchoolId, feeds: seq<Feed>) returns (statuses: seq<bool>)
      requires Valid(store)
      modifies this
      ensures store == Process(old(store), school, feeds)
      ensures |statuses| == |feeds| && forall i :: 0 <= i < |feeds| ==> statuses[i] == !feeds[i].fails
    {
      var allCheckedNews := {};
      statuses := [];
      for i := 0 to |feeds|
        invariant Valid(store) && store == UpsertAll(old(store), school, AllItems(feeds[..i]))
        invariant allCheckedNews == KeptIds(store, school, feeds[..i])
        invariant |statuses| == i && forall j :: 0 <= j < i ==> statuses[j] == !feeds[j].fails
      {
        assert feeds[..i + 1] == feeds[..i] + [feeds[i]];
        NextFeed(old(store), school, feeds[..i], feeds[i]);
        var checkedNews := HandleFeed(feeds[i], school);
        if checkedNews.Some? {
          allCheckedNews := allCheckedNews + checkedNews.value;
        }
        statuses := statuses + [checkedNews.Some?];
      }
      assert feeds[..|feeds|] == feeds;
      store := Prune(store, school, allCheckedNews);
    }
  }

  lemma WrittenIsFound(s: Store, school: SchoolId, items: seq<Item>)
    requires Valid(s)
    ensures forall item :: item in items ==> Find(UpsertAll(s, school, items), school, item.guid).Some?
  {
    WritesAreByGuid(s, school, items);
    forall item | item in items
      ensures LastText(items, item.guid).Some?
    {
      LastTextOfConcat([], items, item.guid);
      assert [] + items == items;
    }
  }

  lemma ConfirmedIsFound(s: Store, school: SchoolId, feeds: seq<Feed>)
    requires Valid(s)
    ensures forall guid :: guid in Confirmed(feeds) ==> Find(UpsertAll(s, school, AllItems(feeds)), school, guid).Some?
  {
    WritesAreByGuid(s, school, AllItems(feeds));
    forall guid | guid in Confirmed(feeds)
      ensures LastText(AllItems(feeds), guid).Some?
    {
      ConfirmedIsWritten(feeds, guid);
    }
  }

  // The documents the guids of these items are stored in.
  ghost function FoundIds(s: Store, school: SchoolId, items: seq<Item>): set<nat> {
    set item | item in items && Find(s, school, item.guid).Some? :: Find(s, school, item.guid).value
  }

  lemma FoundIdsGrow(s: Store, school: SchoolId, items: seq<Item>, item: Item)
    requires Valid(s) && forall i :: i in items ==> Find(s, school, i.guid).Some?
    ensures FoundIds(Upsert(s, school, item), school, items + [item]) ==
            FoundIds(s, school, items) + {TargetOf(s, school, item)}
  {
    var s', target := Upsert(s, school, item), TargetOf(s, school, item);
    forall guid
      ensures Find(s', school, guid) == if guid == item.guid then Some(target) else Find(s, school, guid)
    {
      FindAfterUpsert(s, school, item, guid);
    }
    forall i | i in items
      ensures Find(s', school, i.guid) == Find(s, school, i.guid)
    {
    }
    assert item in items + [item];
    forall id | id in FoundIds(s, school, items)
      ensures id in FoundIds(s', school, items + [item])
    {
      var i :| i in items && Find(s, school, i.guid) == Some(id);
      assert i in items + [item];
    }
  }

  lemma {:induction false} UpsertAllOfConcat(s: Store, school: SchoolId, a: seq<Item>, b: seq<Item>)
    ensures UpsertAll(s, school, a + b) == UpsertAll(UpsertAll(s, school, a), school, b)
    decreases |b|
  {
    if b == [] {
      assert a + b == a;
    } else {
      assert (a + b)[..|a + b| - 1] == a + b[..|b| - 1];
      UpsertAllOfConcat(s, school, a, b[..|b| - 1]);
    }
  }

  // One more item, and one more feed, for the two loops.

  lemma NextItem(s: Store, school: SchoolId, done: seq<Item>, item: Item)
    requires Valid(s)
    ensures var before, after := UpsertAll(s, school, done), UpsertAll(s, school, done + [item]);
            && after == Upsert(before, school, item)
            && FoundIds(after, school, done + [item]) == FoundIds(before, school, done) + {TargetOf(before, school, item)}
            && Find(after, school, item.guid) == Some(TargetOf(before, school, item))
  {
    assert (done + [item])[..|done|] == done;
    var before := UpsertAll(s, school, done);
    WritesAreByGuid(s, school, done);
    WrittenIsFound(s, school, done);
    FoundIdsGrow(before, school, done, item);
    FindAfterUpsert(before, school, item, item.guid);
  }

  lemma NextFeed(s: Store, school: SchoolId, done: seq<Feed>, feed: Feed)
    requires Valid(s)
    ensures var before := UpsertAll(s, school, AllItems(done));
            var after := UpsertAll(before, school, feed.items);
            && after == UpsertAll(s, school, AllItems(done + [feed]))
            && KeptIds(after, school, done + [feed]) ==
                 KeptIds(before, school, done) + if feed.fails then {} else FoundIds(after, school, feed.items)
  {
    assert (done + [feed])[..|done|] == done;
    WritesAreByGuid(s, school, AllItems(done));
    ConfirmedIsFound(s, school, done);
    KeptIdsGrow(UpsertAll(s, school, AllItems(done)), school, done, feed);
    UpsertAllOfConcat(s, school, AllItems(done), feed.items);
  }

  lemma KeptIdsGrow(s: Store, school: SchoolId, feeds: seq<Feed>, feed: Feed)
    requires Valid(s) && forall guid :: guid in Confirmed(feeds) ==> Find(s, school, guid).Some?
    ensures var s' := UpsertAll(s, school, feed.items);
            KeptIds(s', school, feeds + [feed]) ==
            KeptIds(s, school, feeds) + if feed.fails then {} else FoundIds(s', school, feed.items)
  {
    WritesAreByGuid(s, school, feed.items);
  }
}
