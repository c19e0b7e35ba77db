/** A cache whose entries expire, keyed by the concatenation of a list of ids. */
module Caches {
  import opened Options

  datatype CacheEntry<V> = CacheEntry(value: V, validUntil: int)
  type Entries<V> = map<string, CacheEntry<V>>

  // An entry is served up to and including the moment of its expiry.
  function Served<V>(entries: Entries<V>, key: string, now: int): Option<V> {
    if key !in entries || entries[key].validUntil < now then None else Some(entries[key].value)
  }

  function Concat(ids: seq<string>): string {
    if ids == [] then "" else ids[0] + Concat(ids[1..])
  }

  lemma {:induction false} ConcatSnoc(ids: seq<string>, id: string)
    ensures Concat(ids + [id]) == Concat(ids) + id
  {
    if ids == [] {
      assert [id][1..] == [];
      assert id + "" == id;
    } else {
      assert (ids + [id])[1..] == ids[1..] + [id];
      ConcatSnoc(ids[1..], id);
    }
  }

  // Keys list the ids in their order.
  lemma {:induction false} ConcatJoins(a: seq<string>, b: seq<string>)
    ensures Concat(a + b) == Concat(a) + Concat(b)
    ensures |a| == 1 ==> Concat(a) == a[0]
  {
    if a == [] {
      assert a + b == b;
    } else {
      assert (a + b)[1..] == a[1..] + b;
      ConcatJoins(a[1..], b);
      assert a[0] + "" == a[0];
    }
  }

  // Ids are printed as 24 hexadecimal digits.
  predicate IsId(id: string) {
    |id| == 24
  }

  predicate AreIds(ids: seq<string>) {
    forall id :: id in ids ==> IsId(id)
  }

  /** Different lists of ids never share a key. */
  lemma {:induction false} KeysAreInjective(a: seq<string>, b: seq<string>)
    requires AreIds(a) && AreIds(b)
    requires Concat(a) == Concat(b)
    ensures a == b
  {
    assert a != [] ==> IsId(a[0]);
    assert b != [] ==> IsId(b[0]);
    if a != [] {
      assert a[0] == Concat(a)[..24] && b[0] == Concat(b)[..24];
      assert Concat(a[1..]) == Concat(a)[24..] && Concat(b[1..]) == Concat(b)[24..];
      KeysAreInjective(a[1..], b[1..]);
      assert a == [a[0]] + a[1..] && b == [b[0]] + b[1..];
    }
  }

  // What happened to a cache, and the entries that are left.
  datatype CacheEvent<V> = Updated(key: string, value: V, at: int) | Cleared

  function EntriesAfter<V>(events: seq<CacheEvent<V>>, clearInterval: int): Entries<V> {
    if events == [] then map[]
    else
      var before, last := EntriesAfter(events[..|events| - 1], clearInterval), events[|events| - 1];
      if last.Cleared? then map[] else before[last.key := CacheEntry(last.value, last.at + clearInterval)]
  }

  // The last update of a key, with no clearing after it.
  predicate IsLastUpdate<V>(events: seq<CacheEvent<V>>, key: string, i: nat) {
    && i < |events| && events[i].Updated? && events[i].key == key
    && forall j :: i < j < |events| ==> events[j].Updated? && events[j].key != key
  }

  lemma LastUpdateOfSnoc<V>(events: seq<CacheEvent<V>>, key: string, i: nat)
    requires events != [] && i < |events| - 1
    ensures IsLastUpdate(events, key, i) <==>
            IsLastUpdate(events[..|events| - 1], key, i) && events[|events| - 1].Updated? && events[|events| - 1].key != key
  {
    var before := events[..|events| - 1];
    assert forall j :: 0 <= j < |before| ==> before[j] == events[j];
  }

  /** In every run, a value is served if and only if the last update of its key stored it, at most `clearInterval`
      ago, and the cache was not cleared since. */
  lemma {:induction false} ServedIffLastUpdate<V>(events: seq<CacheEvent<V>>, clearInterval: int, key: string, value: V, now: int)
    ensures Served(EntriesAfter(events, clearInterval), key, now) == Some(value) <==>
            exists i: nat :: IsLastUpdate(events, key, i) && events[i].value == value && now - events[i].at <= clearInterval
  {
    if events != [] {
      var n := |events| - 1;
      ServedIffLastUpdate(events[..n], clearInterval, key, value, now);
      forall i: nat | i < n
        ensures IsLastUpdate(events, key, i) <==>
                IsLastUpdate(events[..n], key, i) && events[n].Updated? && events[n].key != key
      {
        LastUpdateOfSnoc(events, key, i);
      }
      assert IsLastUpdate(events, key, n) <==> events[n].Updated? && events[n].key == key;
    }
  }

  class Cache<V> {
    var entries: Entries<V>
    const clearInterval: int

    constructor (clearInterval: int)
      ensures entries == map[] && this.clearInterval == clearInterval
    {
      this.entries, this.clearInterval := map[], clearInterval;
    }

    method Clear()
      modifies this
      ensures entries == map[]
    {
      entries := map[];
    }

    method CreateMongooseIndex(ids: seq<string>) returns (index: string)
      ensures index == Concat(ids)
    {
      index := "";
      for i := 0 to |ids|
        invariant index == Concat(ids[..i])
      {
        ConcatSnoc(ids[..i], ids[i]);
        assert ids[..i] + [ids[i]] == ids[..i + 1];
        index := index + ids[i];
      }
      assert ids[..|ids|] == ids;
    }

    method Update(key: string, value: V, now: int)
      modifies this
      ensures entries == old(entries)[key := CacheEntry(value, now + clearInterval)]
    {
      entries := entries[key := CacheEntry(value, now + clearInterval)];
    }

    method Get(key: string, now: int) returns (value: Option<V>)
      ensures value == Served(entries, key, now)
    {
      if key !in entries || entries[key].validUntil < now {
        return None;
      }
      value := Some(entries[key].value);
    }
  }
}
