/** The bounded caches of Google tokens and overviews. */
module TtlCache {
  import opened Sequences
  import opened Wrappers

  const CACHE_MAX := 32

  datatype Entry<+V> = Entry(expiry: real, value: V)

  /** A Python dict: keys in the order they were inserted. */
  datatype Dict<+V> = Dict(keys: seq<string>, entries: map<string, Entry<V>>)

  ghost predicate WellFormed<V>(d: Dict<V>) {
    Distinct(d.keys) && (forall k :: k in d.keys <==> k in d.entries) && |d.keys| <= CACHE_MAX
  }

  function Empty<V>(): Dict<V> {
    Dict([], map[])
  }

  /** Room is made by dropping the oldest key, whether or not the key to store is new. */
  function Evicted<V>(d: Dict<V>): Dict<V> {
    if |d.keys| >= CACHE_MAX then Dict(d.keys[1..], d.entries - {d.keys[0]}) else d
  }

  /** A key that is present keeps its place. */
  function Store<V>(d: Dict<V>, key: string, entry: Entry<V>): Dict<V> {
    Dict(if key in d.entries then d.keys else d.keys + [key], d.entries[key := entry])
  }

  function Put<V>(d: Dict<V>, key: string, value: V, ttl: real, now: real): Dict<V> {
    Store(Evicted(d), key, Entry(now + ttl, value))
  }

  function Lookup<V>(d: Dict<V>, key: string, now: real): Option<V> {
    if key in d.entries && d.entries[key].expiry > now then Some(d.entries[key].value) else None
  }

  class Cache<V> {
    var keys: seq<string>
    var entries: map<string, Entry<V>>

    ghost function View(): Dict<V>
      reads this
    {
      Dict(keys, entries)
    }

    constructor ()
      ensures View() == Empty() && WellFormed(View())
    {
      keys, entries := [], map[];
    }

    /** `_cache_put`. */
    method CachePut(key: string, value: V, ttl: real, now: real)
      requires WellFormed(View())
      modifies this
      ensures View() == Put(old(View()), key, value, ttl, now) && WellFormed(View())
    {
      PutIsWellFormed(View(), key, value, ttl, now);
      if |keys| >= CACHE_MAX {
        entries := entries - {keys[0]};
        keys := keys[1..];
      }
      if key !in entries {
        keys := keys + [key];
      }
      entries := entries[key := Entry(now + ttl, value)];
    }

    method Clear()
      modifies this
      ensures View() == Empty() && WellFormed(View())
    {
      keys, entries := [], map[];
    }
  }

  lemma EvictedIsWellFormed<V>(d: Dict<V>)
    requires WellFormed(d)
    ensures WellFormed(Evicted(d)) && |Evicted(d).keys| < CACHE_MAX
  {
    if |d.keys| >= CACHE_MAX {
      var rest := d.keys[1..];
      forall k ensures k in rest <==> k in d.keys && k != d.keys[0] {
        if k in d.keys {
          var i :| 0 <= i < |d.keys| && d.keys[i] == k;
          assert i > 0 ==> rest[i - 1] == k;
        }
      }
    }
  }

  lemma PutIsWellFormed<V>(d: Dict<V>, key: string, value: V, ttl: real, now: real)
    requires WellFormed(d)
    ensures WellFormed(Put(d, key, value, ttl, now))
  {
    hide Evicted;
    EvictedIsWellFormed(d);
  }

  // ----- histories -----

  datatype Event<+V> = Stored(key: string, value: V, ttl: real, at: real) | Cleared

  function After<V>(events: seq<Event<V>>): Dict<V> {
    if events == [] then Empty() else Then(After(events[..|events| - 1]), events[|events| - 1])
  }

  function Then<V>(d: Dict<V>, e: Event<V>): Dict<V> {
    match e
    case Stored(key, value, ttl, at) => Put(d, key, value, ttl, at)
    case Cleared => Empty()
  }

  lemma AfterMore<V>(events: seq<Event<V>>, more: seq<Event<V>>)
    requires |more| <= 1
    ensures After(events + more) == if more == [] then After(events) else Then(After(events), more[0])
  {
    if more == [] {
      assert events + more == events;
    } else {
      assert (events + more)[..|events|] == events;
    }
  }

  /** The most recent store of key since the cache was last cleared. */
  function LastStored<V>(events: seq<Event<V>>, key: string): Option<Event<V>> {
    if events == [] then None else
    var e := events[|events| - 1];
    if e.Cleared? then None
    else if e.key == key then Some(e)
    else LastStored(events[..|events| - 1], key)
  }

  /** Whatever was stored and cleared: at most 32 distinct keys, and each entry is the last one stored for its key. */
  lemma {:induction false} EntriesAreLastStored<V>(events: seq<Event<V>>)
    ensures var d := After(events);
      WellFormed(d) && forall k :: k in d.entries ==>
        var e := LastStored(events, k);
        e.Some? && e.value.Stored? && e.value.key == k && d.entries[k] == Entry(e.value.at + e.value.ttl, e.value.value)
  {
    if events != [] {
      var before, e := events[..|events| - 1], events[|events| - 1];
      EntriesAreLastStored(before);
      if e.Stored? {
        PutIsWellFormed(After(before), e.key, e.value, e.ttl, e.at);
      }
    }
  }

  /** A hit is the value most recently stored for the key since the last clear, less than its time to live ago. */
  lemma HitIsLastStored<V>(events: seq<Event<V>>, key: string, now: real)
    ensures var d := After(events);
      WellFormed(d) && |d.keys| <= 32
      && (Lookup(d, key, now).Some? ==>
            var e := LastStored(events, key);
            e.Some? && e.value.Stored? && Lookup(d, key, now).value == e.value.value && now - e.value.at < e.value.ttl)
  {
    hide After, LastStored;
    EntriesAreLastStored(events);
  }

  // ----- how long an entry stays -----

  /** Where key comes in the order. */
  function Place(keys: seq<string>, key: string): (i: nat)
    requires key in keys
    ensures i < |keys| && keys[i] == key
  {
    if keys[0] == key then 0 else 1 + Place(keys[1..], key)
  }

  /** The keys before key, and the room left. */
  function Slack<V>(d: Dict<V>, key: string): int
    requires key in d.keys
  {
    Place(d.keys, key) + CACHE_MAX - |d.keys|
  }

  lemma PlaceIs(keys: seq<string>, key: string, i: nat)
    requires Distinct(keys) && i < |keys| && keys[i] == key
    ensures Place(keys, key) == i
  {
  }

  lemma EvictedKeys<V>(d: Dict<V>, key: string)
    requires WellFormed(d)
    ensures WellFormed(Evicted(d)) && |Evicted(d).keys| < CACHE_MAX
    ensures var full := |d.keys| >= CACHE_MAX;
      key in Evicted(d).keys <==> key in d.keys && !(full && d.keys[0] == key)
    ensures key in Evicted(d).keys ==>
      key in d.keys && Place(Evicted(d).keys, key) == Place(d.keys, key) - (if |d.keys| >= CACHE_MAX then 1 else 0)
  {
    EvictedIsWellFormed(d);
    if key in Evicted(d).keys {
      var i := Place(Evicted(d).keys, key);
      PlaceIs(d.keys, key, if |d.keys| >= CACHE_MAX then i + 1 else i);
    }
  }

  /** Storing another key takes one off the slack, or none if it is there already; without slack, key can be dropped. */
  lemma SlackAfterOther<V>(d: Dict<V>, key: string, other: string, entry: Entry<V>)
    requires WellFormed(d) && key in d.keys && key != other
    ensures var d' := Store(Evicted(d), other, entry);
      && WellFormed(d') && Slack(d, key) >= 0
      && (Slack(d, key) > 0 ==>
            key in d'.keys && d'.entries[key] == d.entries[key] && Slack(d', key) >= Slack(d, key) - 1)
      && (other !in d.entries && Slack(d, key) > 0 ==> key in d'.keys && Slack(d', key) == Slack(d, key) - 1)
      && (other !in d.entries && Slack(d, key) == 0 ==> key !in d'.keys)
  {
    EvictedKeys(d, key);
    var e := Evicted(d);
    var d' := Store(e, other, entry);
    assert other !in d.entries ==> other !in e.entries;
    if key in e.keys {
      PlaceIs(d'.keys, key, Place(e.keys, key));
    }
  }

  /** Storing a key again does not change its slack, unless that is 0: then, as when it was absent, it goes to the
      end. */
  lemma SlackAfterOwn<V>(d: Dict<V>, key: string, value: V, ttl: real, now: real)
    requires WellFormed(d)
    ensures var d' := Put(d, key, value, ttl, now);
      && key in d'.keys
      && Slack(d', key) == (if key in d.keys && Slack(d, key) != 0 then Slack(d, key) else CACHE_MAX - 1)
  {
    EvictedKeys(d, key);
    var e := Evicted(d);
    var d' := Put(d, key, value, ttl, now);
    PutIsWellFormed(d, key, value, ttl, now);
    if key in e.keys {
      PlaceIs(d'.keys, key, Place(e.keys, key));
    } else {
      assert d'.keys[|e.keys|] == key;
      PlaceIs(d'.keys, key, |e.keys|);
    }
  }

  predicate OnlyOthers<V>(events: seq<Event<V>>, key: string) {
    forall i :: 0 <= i < |events| ==> events[i].Stored? && events[i].key != key
  }

  lemma {:induction false} SlackLasts<V>(before: seq<Event<V>>, after: seq<Event<V>>, key: string)
    requires key in After(before).keys && OnlyOthers(after, key) && |after| <= Slack(After(before), key)
    ensures var d, d' := After(before), After(before + after);
      && key in d.entries && key in d'.keys && Slack(d', key) >= Slack(d, key) - |after|
      && key in d'.entries && d'.entries[key] == d.entries[key]
    decreases |after|
  {
    hide After, Put, LastStored, Evicted, Store, Slack;
    EntriesAreLastStored(before);
    if after == [] {
      assert before + after == before;
    } else {
      var shorter, e := after[..|after| - 1], after[|after| - 1];
      SlackLasts(before, shorter, key);
      assert before + after == before + shorter + [e];
      AfterMore(before + shorter, [e]);
      EntriesAreLastStored(before + shorter);
      EntriesAreLastStored(before + after);
      SlackAfterOther(After(before + shorter), key, e.key, Entry(e.at + e.ttl, e.value));
      PutIs(After(before + shorter), e);
    }
  }

  lemma PutIs<V>(d: Dict<V>, e: Event<V>)
    requires e.Stored?
    ensures Then(d, e) == Store(Evicted(d), e.key, Entry(e.at + e.ttl, e.value))
  {
  }

  lemma {:induction false} Longer(keys: seq<string>) returns (key: string)
    ensures key != "" && forall k :: k in keys ==> |k| < |key|
  {
    key := "x";
    if keys != [] {
      var rest := Longer(keys[1..]);
      key := rest + keys[0];
      assert keys == [keys[0]] + keys[1..];
    }
  }

  lemma NotStored<V>(d: Dict<V>, key: string, other: string, entry: Entry<V>)
    requires key !in d.keys && key != other
    ensures key !in Store(Evicted(d), other, entry).keys
  {
    assert forall k :: k in Evicted(d).keys ==> k in d.keys;
  }

  /** One more store than the slack can drop the key: new keys do. */
  lemma {:induction false} NewKeysDrop<V>(before: seq<Event<V>>, key: string, value: V, n: nat)
    returns (after: seq<Event<V>>)
    requires key in After(before).keys ==> n > Slack(After(before), key)
    ensures OnlyOthers(after, key) && |after| == n && key !in After(before + after).keys
    decreases n
  {
    hide After, Put, LastStored, Evicted, Store, Slack;
    EntriesAreLastStored(before);
    after := [];
    assert before + [] == before;
    if n > 0 {
      var d := After(before);
      var other := Longer(d.keys + [key]);
      assert other !in d.keys && other != key by {
        assert key in d.keys + [key] && forall k :: k in d.keys ==> k in d.keys + [key];
      }
      var e := Stored(other, value, 0.0, 0.0);
      AfterMore(before, [e]);
      PutIs(d, e);
      if key in d.keys {
        SlackAfterOther(d, key, other, Entry(0.0 + 0.0, value));
      } else {
        NotStored(d, key, other, Entry(0.0 + 0.0, value));
      }
      var rest := NewKeysDrop(before + [e], key, value, n - 1);
      after := [e] + rest;
      assert before + after == before + [e] + rest;
    } else if key in After(before).keys {
      SlackIsNotNegative(After(before), key);
    }
  }

  lemma SlackIsNotNegative<V>(d: Dict<V>, key: string)
    requires WellFormed(d) && key in d.keys
    ensures Slack(d, key) >= 0
  {
  }

  /** An entry stays through every history of n stores of other keys if and only if its slack is at least n. */
  lemma StaysExactlyWithinSlack<V(!new)>(before: seq<Event<V>>, key: string, n: nat)
    requires key in After(before).keys
    ensures (forall after :: OnlyOthers(after, key) && |after| == n ==> key in After(before + after).keys)
      <==> n <= Slack(After(before), key)
  {
    hide After, Slack, OnlyOthers;
    EntriesAreLastStored(before);
    if n <= Slack(After(before), key) {
      forall after: seq<Event<V>> | OnlyOthers(after, key) && |after| == n ensures key in After(before + after).keys {
        SlackLasts(before, after, key);
      }
    } else {
      var after := NewKeysDrop(before, key, After(before).entries[key].value, n);
    }
  }

  /** The slack right after a store: 31 if the key was absent or about to be dropped, otherwise what it was. */
  function SlackStored<V>(d: Dict<V>, key: string): int {
    if key in d.keys && Slack(d, key) != 0 then Slack(d, key) else CACHE_MAX - 1
  }

  lemma JustStored<V>(before: seq<Event<V>>, e: Event<V>)
    requires e.Stored?
    ensures var d := After(before + [e]);
      && e.key in d.keys && Slack(d, e.key) == SlackStored(After(before), e.key)
      && e.key in d.entries && d.entries[e.key] == Entry(e.at + e.ttl, e.value)
  {
    hide After, Evicted, Slack;
    EntriesAreLastStored(before);
    AfterMore(before, [e]);
    SlackAfterOwn(After(before), e.key, e.value, e.ttl, e.at);
  }

  /** A stored value is served until its time to live is over, through so many stores of other keys as it has slack,
      whether its key was new or not. */
  lemma StoredEntryIsServed<V>(before: seq<Event<V>>, e: Event<V>, after: seq<Event<V>>, now: real)
    requires e.Stored? && OnlyOthers(after, e.key) && |after| <= SlackStored(After(before), e.key)
    ensures Lookup(After(before + [e] + after), e.key, now) == if now - e.at < e.ttl then Some(e.value) else None
  {
    hide After, Slack, SlackStored, OnlyOthers;
    JustStored(before, e);
    SlackLasts(before + [e], after, e.key);
  }

  /** That is exact: any more stores can drop it. */
  lemma ServedExactlyWithinSlack<V(!new)>(before: seq<Event<V>>, e: Event<V>, n: nat, now: real)
    requires e.Stored? && now - e.at < e.ttl
    ensures (forall after :: OnlyOthers(after, e.key) && |after| == n ==>
              Lookup(After(before + [e] + after), e.key, now) == Some(e.value))
      <==> n <= SlackStored(After(before), e.key)
  {
    hide After, Slack, SlackStored, OnlyOthers, Lookup;
    JustStored(before, e);
    if n <= SlackStored(After(before), e.key) {
      forall after: seq<Event<V>> | OnlyOthers(after, e.key) && |after| == n
        ensures Lookup(After(before + [e] + after), e.key, now) == Some(e.value)
      {
        StoredEntryIsServed(before, e, after, now);
      }
    } else {
      var after := NewKeysDrop(before + [e], e.key, e.value, n);
      EntriesAreLastStored(before + [e] + after);
      NoEntryNoHit(After(before + [e] + after), e.key, now);
    }
  }

  lemma NoEntryNoHit<V>(d: Dict<V>, key: string, now: real)
    requires WellFormed(d) && key !in d.keys
    ensures Lookup(d, key, now) == None
  {
  }

  /** A key stored while absent is served through any 31 stores of other keys. */
  lemma FreshEntryIsServed<V>(before: seq<Event<V>>, e: Event<V>, after: seq<Event<V>>, now: real)
    requires e.Stored? && e.key !in After(before).keys && OnlyOthers(after, e.key) && |after| <= 31
    ensures Lookup(After(before + [e] + after), e.key, now) == if now - e.at < e.ttl then Some(e.value) else None
  {
    hide After, OnlyOthers;
    StoredEntryIsServed(before, e, after, now);
  }

  /** A key stored again in a full cache keeps its place: if i > 0 keys come before it, some i + 1 stores drop it. */
  lemma StoredAgainIsDroppedSoon<V(!new)>(before: seq<Event<V>>, e: Event<V>, now: real)
    requires e.Stored? && e.key in After(before).keys && |After(before).keys| == CACHE_MAX
    requires Place(After(before).keys, e.key) > 0
    ensures exists after ::
      && OnlyOthers(after, e.key) && |after| == Place(After(before).keys, e.key) + 1
      && Lookup(After(before + [e] + after), e.key, now) == None
  {
    hide After, Lookup, OnlyOthers;
    JustStored(before, e);
    var n := Place(After(before).keys, e.key) + 1;
    var after := NewKeysDrop(before + [e], e.key, e.value, n);
    EntriesAreLastStored(before + [e] + after);
    NoEntryNoHit(After(before + [e] + after), e.key, now);
  }
}
