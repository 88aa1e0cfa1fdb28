/** The overview cache as several threads use it: the lock is not held while Google is asked. */
module GoogleThreads {
  import opened GoogleCaches
  import opened TtlCache
  import opened Wrappers

  type Tid = nat

  /** An overview, and how often the caches had been cleared when its fetch began; no step reads that number. */
  datatype Fetched = Fetched(overview: Overview, epoch: nat)

  /** A fetch under way. */
  datatype Flight = Flight(key: string, epoch: nat)

  /** started are the calls so far, history what was stored and cleared; no step reads the history. */
  datatype World = World(cache: Dict<Fetched>, flights: map<Tid, Flight>, started: set<Tid>, epoch: nat,
                         history: seq<Event<Fetched>>)

  /** A lookup, which serves a hit or sets out to fetch; the end of a fetch, which may store; and `cache_clear`. */
  datatype Label =
    | Ask(tid: Tid, key: string, force: bool, asked: real)
    | Land(tid: Tid, overview: Overview, ttl: real, stored: real)
    | Wipe

  function Begin(): World {
    World(Empty(), map[], {}, 0, [])
  }

  function Step(w: World, tick: Label): World {
    match tick
    case Wipe => w.(cache := Empty(), epoch := w.epoch + 1, history := w.history + [Cleared])
    case Ask(tid, key, force, asked) =>
      if tid in w.started then w else
      var v := w.(started := w.started + {tid});
      if !force && Lookup(w.cache, key, asked).Some? then v
      else v.(flights := v.flights[tid := Flight(key, w.epoch)])
    case Land(tid, overview, ttl, stored) =>
      if tid !in w.flights then w else
      var f := w.flights[tid];
      var v := w.(flights := w.flights - {tid});
      if !HasData(overview) then v else
      v.(cache := Put(w.cache, f.key, Fetched(overview, f.epoch), ttl, stored),
         history := w.history + [Stored(f.key, Fetched(overview, f.epoch), ttl, stored)])
  }

  function Walk(w: World, labels: seq<Label>): World
    decreases |labels|
  {
    if labels == [] then w else Walk(Step(w, labels[0]), labels[1..])
  }

  // ----- what survives every interleaving -----

  predicate HasOnlyData(history: seq<Event<Fetched>>) {
    forall i :: 0 <= i < |history| && history[i].Stored? ==> HasData(history[i].value.overview)
  }

  predicate Inv(w: World) {
    && w.cache == After(w.history) && HasOnlyData(w.history)
    && (forall t :: t in w.flights ==> w.flights[t].epoch <= w.epoch && t in w.started)
  }

  lemma StepKeepsInv(w: World, tick: Label)
    requires Inv(w)
    ensures Inv(Step(w, tick))
  {
    hide After, Put, Lookup;
    match tick
    case Wipe =>
      AfterMore(w.history, [Cleared]);
    case Ask(_, _, _, _) =>
    case Land(tid, overview, ttl, stored) =>
      if tid in w.flights {
        AfterMore(w.history, [Stored(w.flights[tid].key, Fetched(overview, w.flights[tid].epoch), ttl, stored)]);
      }
  }

  lemma {:induction false} WalkKeepsInv(w: World, labels: seq<Label>)
    requires Inv(w)
    ensures Inv(Walk(w, labels))
    decreases |labels|
  {
    hide Inv, Step;
    if labels != [] {
      StepKeepsInv(w, labels[0]);
      WalkKeepsInv(Step(w, labels[0]), labels[1..]);
    }
  }

  lemma BeginInv()
    ensures Inv(Begin())
  {
  }

  lemma {:induction false} LastStoredHasData(history: seq<Event<Fetched>>, key: string)
    requires HasOnlyData(history)
    ensures var e := LastStored(history, key);
      e.Some? && e.value.Stored? ==> HasData(e.value.value.overview)
  {
    if history != [] {
      LastStoredHasData(history[..|history| - 1], key);
    }
  }

  /** However lookups, fetches and clears interleave: at most 32 keys are held, and a hit is the overview most recently
      stored under its key since the last clear, younger than its time to live, with data from at least one source. */
  lemma HitsInEveryInterleaving(labels: seq<Label>, key: string, now: real)
    ensures var w := Walk(Begin(), labels);
      && |w.cache.keys| <= 32
      && (Lookup(w.cache, key, now).Some? ==>
            var e := LastStored(w.history, key);
            && e.Some? && e.value.Stored? && Lookup(w.cache, key, now).value == e.value.value
            && now - e.value.at < e.value.ttl && HasData(e.value.value.overview))
  {
    hide Walk, Inv, LastStored, After;
    BeginInv();
    WalkKeepsInv(Begin(), labels);
    var w := Walk(Begin(), labels);
    CacheIsHistory(w);
    HitIsLastStored(w.history, key, now);
    LastStoredHasData(w.history, key);
  }

  lemma CacheIsHistory(w: World)
    requires Inv(w)
    ensures w.cache == After(w.history) && HasOnlyData(w.history)
  {
  }

  // ----- what a clear does not stop -----

  /** Every entry was fetched since the caches were last cleared. */
  predicate IsFresh(w: World) {
    forall k :: k in w.cache.entries ==> w.cache.entries[k].value.epoch == w.epoch
  }

  predicate NoOldFlights(w: World) {
    forall t :: t in w.flights ==> w.flights[t].epoch == w.epoch
  }

  predicate NoWipe(labels: seq<Label>) {
    forall i :: 0 <= i < |labels| ==> !labels[i].Wipe?
  }

  lemma FreshStep(w: World, tick: Label)
    requires IsFresh(w) && NoOldFlights(w) && !tick.Wipe?
    ensures IsFresh(Step(w, tick)) && NoOldFlights(Step(w, tick))
  {
    hide Lookup;
  }

  lemma {:induction false} FreshWalk(w: World, labels: seq<Label>)
    requires IsFresh(w) && NoOldFlights(w) && NoWipe(labels)
    ensures IsFresh(Walk(w, labels))
    decreases |labels|
  {
    hide IsFresh, NoOldFlights, Step;
    if labels != [] {
      FreshStep(w, labels[0]);
      FreshWalk(Step(w, labels[0]), labels[1..]);
    }
  }

  /** From a world whose entries are all fetched since the last clear, as they are right after one: this stays so
      until the next clear if and only if no fetch under way began before that clear. */
  lemma FreshExactlyWhen(w: World)
    requires IsFresh(w)
    ensures (forall labels :: NoWipe(labels) ==> IsFresh(Walk(w, labels)))
      <==> (forall t :: t in w.flights ==> w.flights[t].epoch == w.epoch)
  {
    hide Walk, IsFresh;
    if NoOldFlights(w) {
      forall labels | NoWipe(labels) ensures IsFresh(Walk(w, labels)) {
        FreshWalk(w, labels);
      }
    } else {
      var t :| t in w.flights && w.flights[t].epoch != w.epoch;
      var labels := [Land(t, Overview(Some(""), None), 0.0, 0.0)];
      OldFlightLands(w, t);
      assert NoWipe(labels);
    }
  }

  lemma OldFlightLands(w: World, t: Tid)
    requires t in w.flights && w.flights[t].epoch != w.epoch
    ensures !IsFresh(Walk(w, [Land(t, Overview(Some(""), None), 0.0, 0.0)]))
  {
    var x := Land(t, Overview(Some(""), None), 0.0, 0.0);
    assert [x][1..] == [];
    assert Walk(w, [x]) == Step(w, x);
    assert w.flights[t].key in Step(w, x).cache.entries;
  }

  /** A fetch that began before a clear is stored after it and served to a later call under the same key. */
  lemma OldFetchIsServed(key: string, overview: Overview, ttl: real, now: real)
    requires HasData(overview) && ttl > 0.0
    ensures var w := Walk(Begin(), [Ask(0, key, false, now), Wipe, Land(0, overview, ttl, now)]);
      w.epoch == 1 && Lookup(w.cache, key, now) == Some(Fetched(overview, 0))
  {
    hide HasData;
    var x, y, z := Ask(0, key, false, now), Wipe, Land(0, overview, ttl, now);
    assert [x, y, z][1..] == [y, z] && [y, z][1..] == [z] && [z][1..] == [];
    var a := Step(Begin(), x);
    var b := Step(a, y);
    assert Walk(Begin(), [x, y, z]) == Walk(a, [y, z]);
    assert Walk(a, [y, z]) == Walk(b, [z]);
    assert Walk(b, [z]) == Step(b, z);
  }

  // ----- without interruption, the atomic call -----

  /** The cache without the numbers that no step reads. */
  function Plain(d: Dict<Fetched>): Dict<Overview> {
    Dict(d.keys, map k | k in d.entries :: Entry(d.entries[k].expiry, d.entries[k].value.overview))
  }

  lemma PlainPut(d: Dict<Fetched>, key: string, f: Fetched, ttl: real, now: real)
    ensures Plain(Put(d, key, f, ttl, now)) == Put(Plain(d), key, f.overview, ttl, now)
  {
  }

  lemma PlainLookup(d: Dict<Fetched>, key: string, now: real)
    ensures Lookup(Plain(d), key, now)
      == if Lookup(d, key, now).Some? then Some(Lookup(d, key, now).value.overview) else None
  {
  }

  /** A call whose fetch nothing interrupts does to the cache what one atomic call does, and fetches exactly when that
      is not served from the cache. */
  lemma AloneIsAtomic(w: World, tid: Tid, c: Caches, call: Call, tokenTtl: real, ttl: real)
    requires call.AskOverview? && tid !in w.started && tid !in w.flights && c.overviews == Plain(w.cache)
    ensures var key := OverviewKey(call.gscProperty, call.ga4Property);
      var asked := Step(w, Ask(tid, key, call.force, call.asked));
      var o := Collect(call.gscProperty, call.gsc, call.ga4Property, call.ga4);
      var (d, a) := Serve(c, call, tokenTtl, ttl);
      && Plain(Step(asked, Land(tid, o, ttl, call.stored)).cache) == d.overviews
      && a.Data? && (a.cached <==> tid !in asked.flights)
      && (tid in asked.flights ==> a.overview == o)
  {
    hide Put, Lookup, Plain, OverviewKey, Collect;
    var key := OverviewKey(call.gscProperty, call.ga4Property);
    var o := Collect(call.gscProperty, call.gsc, call.ga4Property, call.ga4);
    PlainLookup(w.cache, key, call.asked);
    PlainPut(w.cache, key, Fetched(o, w.epoch), ttl, call.stored);
  }
}
