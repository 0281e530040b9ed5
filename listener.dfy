/** The dispatcher (nari/src/models/event.rs, `EventListener`, lines 108-194): an
    in-memory copy of the cache, reloaded when the cache file changes, and a polling
    loop that takes the due entries out of it and sends their events. One turn of
    that loop is one call of `Tick`, with the clock reading passed in. */
module Listener {

  import opened Ids
  import opened Events
  import opened OrderedMaps
  import opened Database

  /** `has_passed_event(now, m)`: the smallest key of `m` is at most `now`, which is
      the same as some key being at most `now`. An empty map has nothing due. */
  function HasPassedEvent(now: U64, m: map<U64, U64>): (r: bool)
    ensures r <==> exists k :: k in m && k <= now
    ensures m == map[] ==> !r
  {
    if m == map[] then false else MinKey(m.Keys) <= now
  }

  /** The ids one tick collects with `range(..now)`: the values of the keys strictly
      below `now`, in ascending key order. */
  function DueIds(m: map<U64, U64>, now: U64): (r: seq<U64>)
    ensures |r| == |KeysBelow(m, now)|
  {
    ValuesAt(m, Ascending(KeysBelow(m, now)))
  }

  /** The collected ids are exactly the values of the keys below `now`, one per key,
      in strictly ascending key order. */
  lemma DueIdsInKeyOrder(m: map<U64, U64>, now: U64)
    ensures var ks := Ascending(KeysBelow(m, now));
      && (forall i, j :: 0 <= i < j < |ks| ==> ks[i] < ks[j])
      && (forall k :: k in m && k < now <==> k in ks)
      && |DueIds(m, now)| == |ks|
      && (forall i :: 0 <= i < |ks| ==> DueIds(m, now)[i] == m[ks[i]])
  {
    var ks := Ascending(KeysBelow(m, now));
    forall k | k in ks
      ensures k in m && k < now
    {
      var i :| 0 <= i < |ks| && ks[i] == k;
    }
  }

  /** What the tick takes and what it keeps partition the cache: every entry is either
      below `now` (collected and removed) or at least `now` (kept), never both. */
  lemma TickPartitionsCache(m: map<U64, U64>, now: U64)
    ensures KeysBelow(m, now) !! RetainFrom(m, now).Keys
    ensures KeysBelow(m, now) + RetainFrom(m, now).Keys == m.Keys
    ensures RetainFrom(m, now) + (map k | k in KeysBelow(m, now) :: m[k]) == m
  {
    var below := map k | k in KeysBelow(m, now) :: m[k];
    assert forall k :: k in RetainFrom(m, now) + below <==> k in m;
  }

  /** Without a due entry nothing is below `now`: the tick collects nothing and its
      `retain` would keep everything. */
  lemma NothingDueUnlessPassed(m: map<U64, U64>, now: U64)
    requires !HasPassedEvent(now, m)
    ensures KeysBelow(m, now) == {}
    ensures DueIds(m, now) == []
    ensures RetainFrom(m, now) == m
  {
    assert forall k :: k in m ==> now < k;
    assert KeysBelow(m, now) == {};
  }

  /** An entry at exactly `now` makes the tick fire, but `range(..now)` does not
      reach it and `retain(k >= now)` keeps it: it stays for a later tick, which
      collects it once the clock has moved past it. */
  lemma EntryAtNowIsDetectedNotTaken(m: map<U64, U64>, now: U64, later: U64)
    requires now in m
    requires now < later
    ensures HasPassedEvent(now, m)
    ensures now !in KeysBelow(m, now)
    ensures now in RetainFrom(m, now) && RetainFrom(m, now)[now] == m[now]
    ensures now in KeysBelow(RetainFrom(m, now), later)
  {
  }

  /** A tick at the same clock value right after a tick re-detects exactly an entry at
      `now`, and collects nothing more. */
  lemma RetickAtSameSecond(m: map<U64, U64>, now: U64)
    ensures HasPassedEvent(now, RetainFrom(m, now)) <==> now in m
    ensures KeysBelow(RetainFrom(m, now), now) == {}
  {
    var r := RetainFrom(m, now);
    if HasPassedEvent(now, r) {
      var k :| k in r && k <= now;
      assert k == now;
    }
    assert forall k :: k in r ==> now <= k;
  }

  /** No cache entry is collected by two ticks: the second only sees what the first
      kept, all at or above the first tick's `now`. */
  lemma NoEntryCollectedTwice(m: map<U64, U64>, now: U64, later: U64)
    ensures KeysBelow(m, now) !! KeysBelow(RetainFrom(m, now), later)
  {
  }

  /** The sentinel `u64::MAX` is never collected, whatever the clock says: no `u64` is
      above it. The tick keeps it with its value. */
  lemma SentinelNeverTaken(m: map<U64, U64>, now: U64)
    requires MAX_U64 in m
    ensures MAX_U64 !in KeysBelow(m, now)
    ensures MAX_U64 in RetainFrom(m, now) && RetainFrom(m, now)[MAX_U64] == m[MAX_U64]
  {
  }

  /** A freshly seeded cache has nothing to deliver at any clock value; it only
      reports something due when the clock reads `u64::MAX`. */
  lemma FreshCacheDeliversNothing(now: U64)
    ensures DueIds(SENTINEL, now) == []
    ensures RetainFrom(SENTINEL, now) == SENTINEL
    ensures HasPassedEvent(now, SENTINEL) <==> now == MAX_U64
  {
    assert KeysBelow(SENTINEL, now) == {};
    assert MAX_U64 in SENTINEL;
  }

  /** Entries at `t1 < t2 < now < t3`: the tick collects the ids at `t1` and `t2`, in
      that order, and keeps only the entry at `t3`. */
  lemma TickExample(t1: U64, t2: U64, t3: U64, now: U64, a: U64, b: U64, c: U64)
    requires t1 < t2 < now < t3
    ensures var m := map[t1 := a, t2 := b, t3 := c];
      DueIds(m, now) == [a, b] && RetainFrom(m, now) == map[t3 := c] && HasPassedEvent(now, m)
  {
    ExampleDue(t1, t2, t3, now, a, b, c);
    ExampleRetained(t1, t2, t3, now, a, b, c);
  }

  /** In the example, the two earlier entries are collected, smaller key first. */
  lemma ExampleDue(t1: U64, t2: U64, t3: U64, now: U64, a: U64, b: U64, c: U64)
    requires t1 < t2 < now < t3
    ensures DueIds(map[t1 := a, t2 := b, t3 := c], now) == [a, b]
  {
    ExampleKeysBelow(t1, t2, t3, now, a, b, c);
    DuePair(map[t1 := a, t2 := b, t3 := c], now, t1, t2);
  }

  /** When exactly two keys lie below `now`, their values are collected smaller key first. */
  lemma DuePair(m: map<U64, U64>, now: U64, x: U64, y: U64)
    requires x < y && KeysBelow(m, now) == {x, y}
    ensures DueIds(m, now) == [m[x], m[y]]
  {
    AscendingPair(x, y);
    var r := ValuesAt(m, [x, y]);
    assert r[0] == m[x] && r[1] == m[y];
  }

  /** In the example, exactly the two earlier keys lie below `now`. */
  lemma ExampleKeysBelow(t1: U64, t2: U64, t3: U64, now: U64, a: U64, b: U64, c: U64)
    requires t1 < t2 < now < t3
    ensures KeysBelow(map[t1 := a, t2 := b, t3 := c], now) == {t1, t2}
  {
  }

  /** In the example, only the later entry stays queued. */
  lemma ExampleRetained(t1: U64, t2: U64, t3: U64, now: U64, a: U64, b: U64, c: U64)
    requires t1 < t2 < now < t3
    ensures RetainFrom(map[t1 := a, t2 := b, t3 := c], now) == map[t3 := c]
  {
    var m := map[t1 := a, t2 := b, t3 := c];
    assert RetainFrom(m, now).Keys == {t3};
  }

  /** Two keys iterate smaller first. */
  lemma AscendingPair(x: U64, y: U64)
    requires x < y
    ensures Ascending({x, y}) == [x, y]
  {
    var ks := Ascending({x, y});
    assert |ks| == 2;
    assert ks[0] in {x, y} && ks[1] in {x, y} && ks[0] < ks[1];
  }

  /** One step of the collecting loop: taking the smallest remaining key puts its
      value first and leaves the ascending values of the others. */
  lemma TakeLeast(m: map<U64, U64>, rest: set<U64>)
    requires rest != {} && rest <= m.Keys
    ensures ValuesAt(m, Ascending(rest)) == [m[MinKey(rest)]] + ValuesAt(m, Ascending(rest - {MinKey(rest)}))
  {
    var k := MinKey(rest);
    var tail := Ascending(rest - {k});
    assert Ascending(rest) == [k] + tail;
    assert ([k] + tail)[1..] == tail;
  }

  /** The collecting loop keeps its invariant across one visit. */
  lemma CollectStep(m: map<U64, U64>, rest: set<U64>, collected: seq<U64>, due: seq<U64>)
    requires rest != {} && rest <= m.Keys
    requires collected + ValuesAt(m, Ascending(rest)) == due
    ensures (collected + [m[MinKey(rest)]]) + ValuesAt(m, Ascending(rest - {MinKey(rest)})) == due
  {
    var k := MinKey(rest);
    var back := ValuesAt(m, Ascending(rest - {k}));
    TakeLeast(m, rest);
    Regroup(collected, m[k], back);
  }

  /** Moving the visited value from the front of what is left to the end of what was
      collected. Kept apart from `CollectStep`: there, with the facts about `ValuesAt`
      in scope, the same equation sends the solver past its resource limit. */
  lemma Regroup<T>(front: seq<T>, x: T, back: seq<T>)
    ensures front + ([x] + back) == (front + [x]) + back
  {
  }

  /** The collecting loop of a tick, `for (_, id) in lock.range(..now)`: the values of
      the keys below `now`, in ascending key order, taken by repeatedly visiting the
      smallest key left. */
  method CollectDue(m: map<U64, U64>, now: U64) returns (collected: seq<U64>)
    ensures collected == DueIds(m, now)
  {
    collected := [];
    var rest := KeysBelow(m, now);
    while rest != {}
      invariant rest <= m.Keys
      invariant collected + ValuesAt(m, Ascending(rest)) == DueIds(m, now)
      decreases rest
    {
      var k := MinKey(rest);
      CollectStep(m, rest, collected, DueIds(m, now));
      collected := collected + [m[k]];
      rest := rest - {k};
    }
  }

  /** `struct EventListener`, with the map that `start` shares with its watcher task
      and the `ids` vector its loop fills and clears. `stopped` records that a panic
      has ended `start`: a failed first read, a failed reload in the watcher (it
      panics holding the map's mutex guard, which poisons it, so the next tick's
      `lock().unwrap()` panics too) or a collected id without an event file. The
      outbound channel and the refresh rate are not modelled; sending an event is
      appending it to the sequence a tick returns. */
  class EventListener {
    var cache: map<U64, U64>
    var ids: seq<U64>
    var stopped: bool

    /** `EventListener::new`: nothing loaded, nothing collected, not stopped. */
    constructor ()
      ensures cache == map[] && ids == [] && !stopped
    {
      cache, ids, stopped := map[], [], false;
    }

    /** A locked read of `event_cache.ron` decoded into the in-memory map, replacing
        it wholesale: done once when `start` begins, and by the watcher task on every
        data modification of the file. A file that does not decode panics, which
        stops the listener: no later reload or tick happens. */
    method Reload(db: Database) returns (ok: bool)
      requires !stopped
      modifies this`cache, this`stopped, db`cacheFile
      ensures ok <==> old(db.cacheFile).Tree?
      ensures stopped == !ok
      ensures ok ==> cache == old(db.cacheFile).entries && db.cacheFile == old(db.cacheFile)
      ensures !ok ==> cache == old(cache) && db.cacheFile == Touched(old(db.cacheFile))
    {
      var r := db.ReadCacheLocked();
      ok := r.Success?;
      if ok {
        cache := r.value;
      } else {
        stopped := true;
      }
    }

    /** The sending half of a tick: the stored event of every collected id, in order,
        stopping at the first id without one, which panics and stops the listener;
        `ids` is cleared only when all were sent. */
    method Deliver(db: Database) returns (sent: seq<Event>, ok: bool)
      requires !stopped
      modifies this`ids, this`stopped
      ensures stopped == !ok
      ensures |sent| <= |old(ids)|
      ensures forall i :: 0 <= i < |sent| ==>
        EventId(old(ids)[i]) in db.events && sent[i] == db.events[EventId(old(ids)[i])]
      ensures ok <==> forall i :: 0 <= i < |old(ids)| ==> EventId(old(ids)[i]) in db.events
      ensures ok ==> |sent| == |old(ids)|
      ensures !ok ==> |sent| < |old(ids)| && EventId(old(ids)[|sent|]) !in db.events
      ensures ids == if ok then [] else old(ids)
    {
      sent := [];
      ok := true;
      var i := 0;
      while i < |ids|
        invariant 0 <= i <= |ids|
        invariant |sent| == i
        invariant forall j :: 0 <= j < i ==> EventId(ids[j]) in db.events && sent[j] == db.events[EventId(ids[j])]
      {
        var r := db.FetchEvent(EventId(ids[i]));
        if r.Failure? {
          ok := false;
          stopped := true;
          return;
        }
        sent := sent + [r.value];
        i := i + 1;
      }
      ids := [];
    }

    /** One turn of the loop in `start` at clock reading `now`: when something is due,
        collect the ids below `now` in key order, prune the in-memory map to the keys
        at or above `now` and write it over the cache file; then load and send the
        event of every collected id, in order, and clear the ids. A collected id
        without a stored event stops the listener at that id. A stopped listener
        ticks no more. */
    method Tick(db: Database, now: U64) returns (sent: seq<Event>, ok: bool)
      requires !stopped && ids == []
      modifies this, db`cacheFile
      ensures stopped == !ok
      ensures cache == RetainFrom(old(cache), now)
      ensures db.cacheFile == if HasPassedEvent(now, old(cache)) then Tree(cache) else old(db.cacheFile)
      ensures |sent| <= |DueIds(old(cache), now)|
      ensures forall i :: 0 <= i < |sent| ==>
        EventId(DueIds(old(cache), now)[i]) in db.events && sent[i] == db.events[EventId(DueIds(old(cache), now)[i])]
      ensures ok <==> forall i :: 0 <= i < |DueIds(old(cache), now)| ==> EventId(DueIds(old(cache), now)[i]) in db.events
      ensures ok ==> |sent| == |DueIds(old(cache), now)|
      ensures !ok ==> |sent| < |DueIds(old(cache), now)| && EventId(DueIds(old(cache), now)[|sent|]) !in db.events
      ensures ids == if ok then [] else DueIds(old(cache), now)
    {
      Collect(db, now);
      sent, ok := Deliver(db);
    }

    /** The collecting half of a tick: when something is due, the ids below `now` in
        key order, the in-memory map pruned to the keys at or above `now`, and that
        map written over the cache file; otherwise nothing changes. */
    method Collect(db: Database, now: U64)
      requires !stopped && ids == []
      modifies this`ids, this`cache, db`cacheFile
      ensures ids == DueIds(old(cache), now)
      ensures cache == RetainFrom(old(cache), now)
      ensures db.cacheFile == if HasPassedEvent(now, old(cache)) then Tree(cache) else old(db.cacheFile)
    {
      if HasPassedEvent(now, cache) {
        ids := CollectDue(cache, now);
        cache := RetainFrom(cache, now);
        db.cacheFile := Tree(cache);
      } else {
        NothingDueUnlessPassed(cache, now);
      }
    }
  }
}
