/** The file-backed entity store (nari/src/models/database.rs).

    The directory under the base path is modelled as three values: the folder
    `users/` as a map from id to record (one `{id}.ron` file each), the folder
    `events/` likewise, and the file `event_cache.ron`, an ordered map from
    timestamp to event id. RON encoding is opaque: a record read back is the
    record written. */
module Database {

  import opened Ids
  import opened Errors
  import opened Users
  import opened Events
  import opened Overwrites

  // ---------------------------------------------------------------------------
  // Path layout (`open_buf_reader` / `open_buf_writer`)
  // ---------------------------------------------------------------------------

  const USERS_FOLDER: string := "users"
  const EVENTS_FOLDER: string := "events"

  /** `event_cache.ron`, relative to the base path. */
  const CACHE_PATH: seq<string> := ["event_cache.ron"]

  function Digit(d: nat): (c: char)
    requires d < 10
    ensures '0' <= c <= '9'
  {
    (('0' as int) + d) as char
  }

  function DigitValue(c: char): nat {
    if '0' <= c <= '9' then (c as int) - ('0' as int) else 0
  }

  /** `format!("{id}")` of an unsigned integer: its decimal digits. */
  function Decimal(n: nat): (s: string)
    ensures |s| >= 1
    ensures n < 10 <==> |s| == 1
    decreases n
  {
    if n < 10 then [Digit(n)] else Decimal(n / 10) + [Digit(n % 10)]
  }

  /** Reads a string of decimal digits back as a number. */
  function DecimalValue(s: string): nat
    decreases |s|
  {
    if |s| <= 1 then (if s == [] then 0 else DigitValue(s[0]))
    else 10 * DecimalValue(s[..|s| - 1]) + DigitValue(s[|s| - 1])
  }

  /** The digits of `n` read back give `n`. */
  lemma {:induction false} DecimalRoundTrip(n: nat)
    ensures DecimalValue(Decimal(n)) == n
    decreases n
  {
    if n >= 10 {
      var s := Decimal(n);
      assert s[..|s| - 1] == Decimal(n / 10);
      DecimalRoundTrip(n / 10);
    }
  }

  /** The file of record `id` in `folder`, as path components below the base path:
      `{folder}/{id}.ron`. */
  function RecordPath(folder: string, id: U64): (p: seq<string>)
    ensures |p| == 2 && p[0] == folder
  {
    [folder, Decimal(id as nat) + ".ron"]
  }

  /** Every (folder, id) has a file of its own, and none of them is the cache file:
      this is what lets each folder be modelled as a map keyed by id. */
  lemma RecordPathsDistinct(f1: string, id1: U64, f2: string, id2: U64)
    ensures RecordPath(f1, id1) == RecordPath(f2, id2) <==> f1 == f2 && id1 == id2
    ensures RecordPath(f1, id1) != CACHE_PATH
  {
    if RecordPath(f1, id1) == RecordPath(f2, id2) {
      var a, b := Decimal(id1 as nat), Decimal(id2 as nat);
      assert a + ".ron" == b + ".ron";
      assert |a| == |b|;
      assert a == (a + ".ron")[..|a|] == (b + ".ron")[..|b|] == b;
      DecimalRoundTrip(id1 as nat);
      DecimalRoundTrip(id2 as nat);
    }
  }

  /** A user file and an event file never coincide, whatever their ids. */
  lemma UserAndEventFilesDistinct(u: U64, e: U64)
    ensures RecordPath(USERS_FOLDER, u) != RecordPath(EVENTS_FOLDER, e)
    ensures RecordPath(USERS_FOLDER, u) != CACHE_PATH && RecordPath(EVENTS_FOLDER, e) != CACHE_PATH
  {
    RecordPathsDistinct(USERS_FOLDER, u, EVENTS_FOLDER, e);
  }

  // ---------------------------------------------------------------------------
  // The state on disk
  // ---------------------------------------------------------------------------

  /** The contents of `event_cache.ron`. */
  datatype CacheFile =
    | Missing                        // the file does not exist
    | Undecodable                    // it exists but does not decode as a map (e.g. empty)
    | Tree(entries: map<U64, U64>)   // the `BTreeMap<u64, u64>` it holds: timestamp -> event id

  /** Everything under the base path. */
  datatype Store = Store(users: map<UserId, User>, events: map<EventId, Event>, cacheFile: CacheFile)

  /** The state after an operation together with how it ended. */
  datatype Step = Step(store: Store, outcome: Outcome)

  /** The entry `Database::new` seeds a new cache with: `u64::MAX -> 0`. */
  const SENTINEL: map<U64, U64> := map[MAX_U64 := 0]

  /** Every record sits in the file named after its own id. Every write of the
      store goes to `record.id`, so this holds of every store the model builds. */
  predicate KeyedById(s: Store) {
    && (forall k :: k in s.users ==> s.users[k].id == k)
    && (forall k :: k in s.events ==> s.events[k].id == k)
  }

  /** The cache file `Database::new` leaves behind: created holding only the
      sentinel when absent, left exactly as it is otherwise. */
  function Seeded(f: CacheFile): (r: CacheFile)
    ensures r.Tree? || r == f
    ensures f.Missing? ==> r.Tree? && r.entries.Keys == {MAX_U64} && r.entries[MAX_U64] == 0
    ensures !f.Missing? ==> r == f
  {
    if f.Missing? then Tree(SENTINEL) else f
  }

  /** Opening a second `Database::new` on the same directory changes nothing more. */
  lemma SeededIdempotent(f: CacheFile)
    ensures Seeded(Seeded(f)) == Seeded(f)
  {
  }

  /** The cache file after a locked read that failed to decode: `FileLock::lock` opens
      it with `create(true)`, so a missing file now exists, empty. */
  function Touched(f: CacheFile): (r: CacheFile)
    requires !f.Tree?
    ensures r.Undecodable?
  {
    Undecodable
  }

  /** A cache file that failed to decode once never decodes later without a write,
      and in particular `Database::new` no longer seeds it. */
  lemma TouchedIsNeverSeeded(f: CacheFile)
    requires !f.Tree?
    ensures Seeded(Touched(f)) == Touched(f) && !Seeded(Touched(f)).Tree?
  {
  }

  // ---------------------------------------------------------------------------
  // Record updates made by the link operations
  // ---------------------------------------------------------------------------

  /** `u.events.insert(event.id)`. */
  function LinkUser(u: User, e: EventId): (r: User)
    ensures r.id == u.id && r.name == u.name && r.events == u.events + {e}
  {
    u.(events := u.events + {e})
  }

  /** `e.users.insert(user.id)`. */
  function LinkEvent(e: Event, u: UserId): (r: Event)
    ensures r.users == e.users + {u}
    ensures r.id == e.id && r == e.(users := r.users)
  {
    e.(users := e.users + {u})
  }

  /** The id under which a record is stored. */
  function UserKey(u: User): UserId { u.id }
  function EventKey(e: Event): EventId { e.id }

  function UserIdsOf(us: seq<User>): set<UserId> {
    set i | 0 <= i < |us| :: us[i].id
  }

  function EventIdsOf(es: seq<Event>): set<EventId> {
    set i | 0 <= i < |es| :: es[i].id
  }

  /** The user files `add_event_to_users` writes, in order: each passed user with the
      event added to its set. */
  function LinkedUsers(us: seq<User>, e: EventId): (kvs: seq<(UserId, User)>)
    ensures |kvs| == |us|
    ensures forall i :: 0 <= i < |us| ==> kvs[i] == (us[i].id, LinkUser(us[i], e))
  {
    seq(|us|, i requires 0 <= i < |us| => (us[i].id, LinkUser(us[i], e)))
  }

  /** The event files `add_user_to_events` writes, in order. */
  function LinkedEvents(es: seq<Event>, u: UserId): (kvs: seq<(EventId, Event)>)
    ensures |kvs| == |es|
    ensures forall i :: 0 <= i < |es| ==> kvs[i] == (es[i].id, LinkEvent(es[i], u))
  {
    seq(|es|, i requires 0 <= i < |es| => (es[i].id, LinkEvent(es[i], u)))
  }

  /** The cache inserts `add_user_to_events` makes, in order: `next_occurence -> id`. */
  function CacheEntries(es: seq<Event>): (kvs: seq<(U64, U64)>)
    ensures |kvs| == |es|
    ensures forall i :: 0 <= i < |es| ==> kvs[i] == (es[i].nextOccurence, es[i].id.value)
  {
    seq(|es|, i requires 0 <= i < |es| => (es[i].nextOccurence, es[i].id.value))
  }

  lemma LinkedUsersKeys(us: seq<User>, e: EventId)
    ensures KeysOf(LinkedUsers(us, e)) == UserIdsOf(us)
  {
    var kvs := LinkedUsers(us, e);
    assert forall i :: 0 <= i < |us| ==> kvs[i].0 == us[i].id;
  }

  lemma LinkedEventsKeys(es: seq<Event>, u: UserId)
    ensures KeysOf(LinkedEvents(es, u)) == EventIdsOf(es)
  {
    var kvs := LinkedEvents(es, u);
    assert forall i :: 0 <= i < |es| ==> kvs[i].0 == es[i].id;
  }

  /** One more passed event extends each of the sequences derived from the passed events. */
  lemma EventsSnoc(es: seq<Event>, i: nat, u: UserId)
    requires i < |es|
    ensures CacheEntries(es[..i + 1]) == CacheEntries(es[..i]) + [(es[i].nextOccurence, es[i].id.value)]
    ensures LinkedEvents(es[..i + 1], u) == LinkedEvents(es[..i], u) + [(es[i].id, LinkEvent(es[i], u))]
    ensures EventIdsOf(es[..i + 1]) == EventIdsOf(es[..i]) + {es[i].id}
  {
    assert forall j :: 0 <= j < i ==> es[..i + 1][j] == es[..i][j];
    assert es[..i + 1][i] == es[i];
  }

  /** One more passed user extends each of the sequences derived from the passed users. */
  lemma UsersSnoc(us: seq<User>, i: nat, e: EventId)
    requires i < |us|
    ensures LinkedUsers(us[..i + 1], e) == LinkedUsers(us[..i], e) + [(us[i].id, LinkUser(us[i], e))]
    ensures UserIdsOf(us[..i + 1]) == UserIdsOf(us[..i]) + {us[i].id}
  {
    assert forall j :: 0 <= j < i ==> us[..i + 1][j] == us[..i][j];
    assert us[..i + 1][i] == us[i];
  }

  // ---------------------------------------------------------------------------
  // The operations on the store, as functions of the state before them
  // ---------------------------------------------------------------------------

  /** `add_event_to_cache`: a locked read-modify-write of the cache file that maps the
      event's timestamp to its id. A different id already at that timestamp is replaced;
      every other entry stays. An undecodable (or missing) cache makes it fail. */
  function CacheEvent(s: Store, e: Event): (r: Step)
    ensures r.store.users == s.users && r.store.events == s.events
    ensures r.outcome.Pass? <==> s.cacheFile.Tree?
    ensures r.outcome.Fail? ==>
      r.outcome.error == CacheUndecodable && r.store.cacheFile == Touched(s.cacheFile)
    ensures r.outcome.Pass? ==>
      r.store.cacheFile.Tree? &&
      var before, after := s.cacheFile.entries, r.store.cacheFile.entries;
      && after.Keys == before.Keys + {e.nextOccurence}
      && after[e.nextOccurence] == e.id.value
      && (forall t :: t in before && t != e.nextOccurence ==> after[t] == before[t])
  {
    match s.cacheFile
    case Tree(entries) => Step(s.(cacheFile := Tree(entries[e.nextOccurence := e.id.value])), Pass)
    case _ => Step(s.(cacheFile := Touched(s.cacheFile)), Fail(CacheUndecodable))
  }

  /** `add_event_to_users(e, us)`: caches `e`, stores every passed user (its passed
      copy, not the stored one) with `e.id` added, then stores `e` once with every
      passed user's id added. */
  function LinkEventToUsers(s: Store, e: Event, us: seq<User>): (r: Step)
    ensures r.outcome.Pass? <==> s.cacheFile.Tree?
    ensures r.store.cacheFile == CacheEvent(s, e).store.cacheFile
    ensures r.outcome.Fail? ==> r == CacheEvent(s, e)
  {
    var c := CacheEvent(s, e);
    if c.outcome.Fail? then c
    else
      Step(c.store.(users := Overwrite(s.users, LinkedUsers(us, e.id)),
                    events := s.events[e.id := e.(users := e.users + UserIdsOf(us))]),
           Pass)
  }

  /** `add_user_to_events(u, es)`: for each passed event in turn caches it, stores it
      with `u.id` added; then stores `u` once with every passed event's id added. The
      cache is first read inside the loop, so with no events it is never touched. */
  function LinkUserToEvents(s: Store, u: User, es: seq<Event>): (r: Step)
    ensures r.outcome.Pass? <==> es == [] || s.cacheFile.Tree?
    ensures r.outcome.Fail? ==>
      && r.outcome.error == CacheUndecodable
      && r.store == s.(cacheFile := Touched(s.cacheFile))
    ensures r.outcome.Pass? ==> u.id in r.store.users && r.store.users[u.id].events == u.events + EventIdsOf(es)
  {
    if es != [] && !s.cacheFile.Tree? then
      Step(s.(cacheFile := Touched(s.cacheFile)), Fail(CacheUndecodable))
    else
      Step(Store(s.users[u.id := u.(events := u.events + EventIdsOf(es))],
                 Overwrite(s.events, LinkedEvents(es, u.id)),
                 if es == [] then s.cacheFile
                 else Tree(Overwrite(s.cacheFile.entries, CacheEntries(es)))),
           Pass)
  }

  /** The stored users with `e` added to those whose ids are in `ids`. */
  function LinkAll(m: map<UserId, User>, ids: set<UserId>, e: EventId): (r: map<UserId, User>)
    ensures r.Keys == m.Keys
    ensures forall k :: k in m && k in ids ==> r[k] == LinkUser(m[k], e)
    ensures forall k :: k in m && k !in ids ==> r[k] == m[k]
  {
    map k | k in m :: if k in ids then LinkUser(m[k], e) else m[k]
  }

  /** `add_event(e)` completes: the cache decodes and every listed user is stored. */
  predicate AddEventSucceeds(s: Store, e: Event): (r: bool)
    ensures r <==> CacheEvent(s, e).outcome.Pass? && forall k :: k in e.users ==> k in s.users
  {
    s.cacheFile.Tree? && e.users <= s.users.Keys
  }

  /** The store `add_event(e)` leaves: it caches `e` and stores it; then it fetches
      every listed user, all before rewriting any, and stores each with `e.id` added.
      A listed user without a record stops it after `e` and its cache entry are
      written and before any user is. */
  function AddEventStore(s: Store, e: Event): (r: Store)
    ensures r.cacheFile == CacheEvent(s, e).store.cacheFile
    ensures r.users.Keys == s.users.Keys
    ensures s.cacheFile.Tree? ==> e.id in r.events && r.events[e.id] == e
    ensures !s.cacheFile.Tree? ==> r.events == s.events && r.users == s.users
  {
    var c := CacheEvent(s, e);
    if c.outcome.Fail? then c.store
    else
      var written := c.store.(events := s.events[e.id := e]);
      if e.users <= s.users.Keys then written.(users := LinkAll(s.users, e.users, e.id))
      else written
  }

  // ---------------------------------------------------------------------------
  // Properties of the operations
  // ---------------------------------------------------------------------------

  /** Every operation keeps each record in the file named after its id. */
  lemma OperationsKeepKeyedById(s: Store, e: Event, us: seq<User>, u: User, es: seq<Event>)
    requires KeyedById(s)
    ensures KeyedById(CacheEvent(s, e).store)
    ensures KeyedById(LinkEventToUsers(s, e, us).store)
    ensures KeyedById(LinkUserToEvents(s, u, es).store)
    ensures KeyedById(AddEventStore(s, e))
  {
    CacheEventKeepsKeyed(s, e);
    LinkEventToUsersKeepsKeyed(s, e, us);
    LinkUserToEventsKeepsKeyed(s, u, es);
    AddEventStoreKeepsKeyed(s, e);
  }

  /** Caching an event leaves the records alone. */
  lemma CacheEventKeepsKeyed(s: Store, e: Event)
    requires KeyedById(s)
    ensures KeyedById(CacheEvent(s, e).store)
  {
    assert CacheEvent(s, e).store.users == s.users;
  }

  /** `add_event` keeps every record stored under its own id. */
  lemma AddEventStoreKeepsKeyed(s: Store, e: Event)
    requires KeyedById(s)
    ensures KeyedById(AddEventStore(s, e))
  {
    var r := AddEventStore(s, e);
    assert forall k :: k in r.users ==> r.users[k].id == k;
  }

  /** `add_event_to_users` keeps every record stored under its own id. */
  lemma LinkEventToUsersKeepsKeyed(s: Store, e: Event, us: seq<User>)
    requires KeyedById(s)
    ensures KeyedById(LinkEventToUsers(s, e, us).store)
  {
    var kvs := LinkedUsers(us, e.id);
    assert forall i :: 0 <= i < |kvs| ==> kvs[i].1.id == kvs[i].0;
    OverwriteKeepsKeyed(s.users, kvs, UserKey);
  }

  /** `add_user_to_events` keeps every record stored under its own id. */
  lemma LinkUserToEventsKeepsKeyed(s: Store, u: User, es: seq<Event>)
    requires KeyedById(s)
    ensures KeyedById(LinkUserToEvents(s, u, es).store)
  {
    var evs := LinkedEvents(es, u.id);
    assert forall i :: 0 <= i < |evs| ==> evs[i].1.id == evs[i].0;
    OverwriteKeepsKeyed(s.events, evs, EventKey);
  }

  /** After `add_event_to_users(e, us)` every passed user and the event name each
      other: the link holds on both sides. */
  lemma LinkEventToUsersLinksBothSides(s: Store, e: Event, us: seq<User>)
    requires s.cacheFile.Tree?
    ensures var r := LinkEventToUsers(s, e, us);
      && r.outcome.Pass?
      && e.id in r.store.events
      && (forall i :: 0 <= i < |us| ==>
            && us[i].id in r.store.users
            && e.id in r.store.users[us[i].id].events
            && us[i].id in r.store.events[e.id].users)
  {
    var kvs := LinkedUsers(us, e.id);
    var r := LinkEventToUsers(s, e, us);
    forall i | 0 <= i < |us|
      ensures us[i].id in r.store.users && e.id in r.store.users[us[i].id].events
    {
      assert kvs[i].0 == us[i].id;
      OverwriteWrittenBy(s.users, kvs, us[i].id);
    }
  }

  /** What `add_event_to_users(e, us)` stores: each passed user (its last copy, when an
      id is passed twice) with `e.id` added; `e` with the passed ids added to its
      users; the event's timestamp in the cache. */
  lemma LinkEventToUsersStores(s: Store, e: Event, us: seq<User>)
    requires s.cacheFile.Tree?
    ensures var r := LinkEventToUsers(s, e, us);
      && r.store.events[e.id] == e.(users := e.users + UserIdsOf(us))
      && r.store.cacheFile == CacheEvent(s, e).store.cacheFile
      && r.store.users.Keys == s.users.Keys + UserIdsOf(us)
      && (forall i :: 0 <= i < |us| && (forall j :: i < j < |us| ==> us[j].id != us[i].id) ==>
            r.store.users[us[i].id] == us[i].(events := us[i].events + {e.id}))
  {
    var kvs := LinkedUsers(us, e.id);
    OverwriteKeys(s.users, kvs);
    LinkedUsersKeys(us, e.id);
    forall i | 0 <= i < |us| && (forall j :: i < j < |us| ==> us[j].id != us[i].id)
      ensures LinkEventToUsers(s, e, us).store.users[us[i].id] == us[i].(events := us[i].events + {e.id})
    {
      assert LastWriteAt(kvs, i);
      OverwriteLastWins(s.users, kvs, i);
    }
  }

  /** `add_event_to_users(e, us)` changes no user it was not passed, no event but `e`
      and no cache entry but `e`'s timestamp. When the cache does not decode it
      changes no record at all. */
  lemma LinkEventToUsersFrame(s: Store, e: Event, us: seq<User>)
    ensures var r := LinkEventToUsers(s, e, us);
      && (!s.cacheFile.Tree? ==> r.outcome.Fail? && r.store.users == s.users && r.store.events == s.events)
      && (forall k :: k !in UserIdsOf(us) ==>
            (k in r.store.users <==> k in s.users) && (k in s.users ==> r.store.users[k] == s.users[k]))
      && (forall k :: k in s.events && k != e.id ==> k in r.store.events && r.store.events[k] == s.events[k])
      && r.store.events.Keys <= s.events.Keys + {e.id}
  {
    var kvs := LinkedUsers(us, e.id);
    LinkedUsersKeys(us, e.id);
    forall k | k !in UserIdsOf(us)
      ensures var r := LinkEventToUsers(s, e, us).store.users;
        (k in r <==> k in s.users) && (k in s.users ==> r[k] == s.users[k])
    {
      if s.cacheFile.Tree? {
        assert forall i :: 0 <= i < |kvs| ==> kvs[i].0 != k;
        OverwriteUnlisted(s.users, kvs, k);
      }
    }
  }

  /** Calling `add_event_to_users(e, us)` a second time with the same arguments leaves
      the same users, events and cache, and ends the same way. */
  lemma LinkEventToUsersIdempotent(s: Store, e: Event, us: seq<User>)
    ensures var r := LinkEventToUsers(s, e, us);
      LinkEventToUsers(r.store, e, us) == r
  {
    if s.cacheFile.Tree? {
      var kvs := LinkedUsers(us, e.id);
      OverwriteIdempotent(s.users, kvs);
      var t, v := e.nextOccurence, e.id.value;
      var m := s.cacheFile.entries;
      assert m[t := v][t := v] == m[t := v];
    }
  }

  /** A stored user is still the same user (`PartialEq` compares ids) after a link
      operation rewrote its events; this is what `assert_eq!(alice, db.fetch_user(..))`
      in the documentation of `fetch_user` relies on. */
  lemma LinkEventToUsersKeepsIdentity(s: Store, e: Event, us: seq<User>)
    requires KeyedById(s)
    ensures var r := LinkEventToUsers(s, e, us).store;
      forall k :: k in s.users ==> k in r.users && Same(r.users[k], s.users[k])
  {
    var kvs := LinkedUsers(us, e.id);
    OverwriteKeepsKeyed(s.users, kvs, UserKey);
    OverwriteKeys(s.users, kvs);
  }

  /** After `add_user_to_events(u, es)` the user and every passed event name each
      other, and every passed event's timestamp is in the cache. */
  lemma LinkUserToEventsLinksBothSides(s: Store, u: User, es: seq<Event>)
    requires es == [] || s.cacheFile.Tree?
    ensures var r := LinkUserToEvents(s, u, es);
      && r.outcome.Pass?
      && u.id in r.store.users
      && r.store.users[u.id] == u.(events := u.events + EventIdsOf(es))
      && (forall i :: 0 <= i < |es| ==>
            && es[i].id in r.store.events
            && u.id in r.store.events[es[i].id].users
            && es[i].id in r.store.users[u.id].events
            && r.store.cacheFile.Tree?
            && es[i].nextOccurence in r.store.cacheFile.entries)
  {
    var kvs := LinkedEvents(es, u.id);
    var r := LinkUserToEvents(s, u, es);
    forall i | 0 <= i < |es|
      ensures es[i].id in r.store.events && u.id in r.store.events[es[i].id].users
      ensures r.store.cacheFile.Tree? && es[i].nextOccurence in r.store.cacheFile.entries
    {
      assert kvs[i].0 == es[i].id;
      OverwriteWrittenBy(s.events, kvs, es[i].id);
      var cs := CacheEntries(es);
      assert cs[i].0 == es[i].nextOccurence;
      OverwriteKeys(s.cacheFile.entries, cs);
    }
  }

  /** What `add_user_to_events(u, es)` stores: each passed event (its last copy, when
      an id is passed twice) with `u.id` added. */
  lemma LinkUserToEventsStores(s: Store, u: User, es: seq<Event>)
    requires es == [] || s.cacheFile.Tree?
    ensures var r := LinkUserToEvents(s, u, es).store;
      && r.events.Keys == s.events.Keys + EventIdsOf(es)
      && (forall i :: 0 <= i < |es| && (forall j :: i < j < |es| ==> es[j].id != es[i].id) ==>
            r.events[es[i].id] == es[i].(users := es[i].users + {u.id}))
  {
    var kvs := LinkedEvents(es, u.id);
    OverwriteKeys(s.events, kvs);
    LinkedEventsKeys(es, u.id);
    forall i | 0 <= i < |es| && (forall j :: i < j < |es| ==> es[j].id != es[i].id)
      ensures Overwrite(s.events, kvs)[es[i].id] == es[i].(users := es[i].users + {u.id})
    {
      assert LastWriteAt(kvs, i);
      OverwriteLastWins(s.events, kvs, i);
    }
  }

  /** The cache `add_user_to_events(u, es)` leaves: every passed event inserted at its
      timestamp in turn, so the last event passed with a timestamp is the one cached
      there. */
  lemma LinkUserToEventsCaches(s: Store, u: User, es: seq<Event>)
    requires s.cacheFile.Tree?
    ensures var r := LinkUserToEvents(s, u, es).store;
      && r.cacheFile.Tree?
      && r.cacheFile.entries.Keys == s.cacheFile.entries.Keys + (set i | 0 <= i < |es| :: es[i].nextOccurence)
      && (forall i :: 0 <= i < |es| && (forall j :: i < j < |es| ==> es[j].nextOccurence != es[i].nextOccurence) ==>
            r.cacheFile.entries[es[i].nextOccurence] == es[i].id.value)
  {
    var cs := CacheEntries(es);
    OverwriteKeys(s.cacheFile.entries, cs);
    assert KeysOf(cs) == set i | 0 <= i < |es| :: es[i].nextOccurence by {
      assert forall i :: 0 <= i < |es| ==> cs[i].0 == es[i].nextOccurence;
    }
    forall i | 0 <= i < |es| && (forall j :: i < j < |es| ==> es[j].nextOccurence != es[i].nextOccurence)
      ensures Overwrite(s.cacheFile.entries, cs)[es[i].nextOccurence] == es[i].id.value
    {
      assert LastWriteAt(cs, i);
      OverwriteLastWins(s.cacheFile.entries, cs, i);
    }
  }

  /** `add_user_to_events(u, es)` changes no user but `u`, no event it was not passed,
      and no cache entry at a timestamp none of them has. */
  lemma LinkUserToEventsFrame(s: Store, u: User, es: seq<Event>)
    ensures var r := LinkUserToEvents(s, u, es).store;
      && (forall k :: k in s.users && k != u.id ==> k in r.users && r.users[k] == s.users[k])
      && (forall k :: k !in EventIdsOf(es) ==>
            (k in r.events <==> k in s.events) && (k in s.events ==> r.events[k] == s.events[k]))
      && (s.cacheFile.Tree? ==>
            && r.cacheFile.Tree?
            && (forall t :: t in s.cacheFile.entries && (forall i :: 0 <= i < |es| ==> es[i].nextOccurence != t) ==>
                  (t in r.cacheFile.entries && r.cacheFile.entries[t] == s.cacheFile.entries[t])))
  {
    var kvs := LinkedEvents(es, u.id);
    var cs := CacheEntries(es);
    LinkedEventsKeys(es, u.id);
    var r := LinkUserToEvents(s, u, es).store;
    forall k | k !in EventIdsOf(es)
      ensures (k in r.events <==> k in s.events) && (k in s.events ==> r.events[k] == s.events[k])
    {
      if es != [] && !s.cacheFile.Tree? {
      } else {
        assert forall i :: 0 <= i < |kvs| ==> kvs[i].0 != k;
        OverwriteUnlisted(s.events, kvs, k);
      }
    }
    if s.cacheFile.Tree? {
      forall t | t in s.cacheFile.entries && (forall i :: 0 <= i < |es| ==> es[i].nextOccurence != t)
        ensures t in r.cacheFile.entries && r.cacheFile.entries[t] == s.cacheFile.entries[t]
      {
        assert forall i :: 0 <= i < |cs| ==> cs[i].0 != t;
        OverwriteUnlisted(s.cacheFile.entries, cs, t);
      }
    }
  }

  /** Calling `add_user_to_events(u, es)` a second time with the same arguments leaves
      the same users, events and cache, and ends the same way. */
  lemma LinkUserToEventsIdempotent(s: Store, u: User, es: seq<Event>)
    ensures var r := LinkUserToEvents(s, u, es);
      LinkUserToEvents(r.store, u, es) == r
  {
    if es == [] || s.cacheFile.Tree? {
      OverwriteIdempotent(s.events, LinkedEvents(es, u.id));
      if es != [] {
        OverwriteIdempotent(s.cacheFile.entries, CacheEntries(es));
      }
      var v := u.(events := u.events + EventIdsOf(es));
      assert v.(events := v.events + EventIdsOf(es)) == v;
    }
  }

  /** A successful `add_event(e)` leaves the link on both sides for every listed user,
      stores `e` as given and touches no other user. */
  lemma AddEventLinksBothSides(s: Store, e: Event)
    requires AddEventSucceeds(s, e)
    ensures var r := AddEventStore(s, e);
      && e.id in r.events && r.events[e.id] == e
      && r.cacheFile == CacheEvent(s, e).store.cacheFile
      && r.users.Keys == s.users.Keys
      && (forall k :: k in e.users ==> e.id in r.users[k].events && k in r.events[e.id].users)
      && (forall k :: k in s.users && k !in e.users ==> r.users[k] == s.users[k])
  {
  }

  /** `add_event(e)` with a listed user that has no record fails after `e` and its
      cache entry are written, with no user modified; with an undecodable cache it
      writes nothing. */
  lemma AddEventFailsPartway(s: Store, e: Event)
    requires !AddEventSucceeds(s, e)
    ensures var r := AddEventStore(s, e);
      && r.users == s.users
      && (s.cacheFile.Tree? ==> r.events == s.events[e.id := e] && r.cacheFile == CacheEvent(s, e).store.cacheFile)
      && (!s.cacheFile.Tree? ==> r.events == s.events && r.cacheFile == Touched(s.cacheFile))
  {
  }

  /** The users `add_event` fetched, linked in the order fetched, are exactly the
      stored users linked as a set. */
  lemma LinkFetchedIsLinkAll(m: map<UserId, User>, fetched: seq<User>, ids: set<UserId>, e: EventId)
    requires forall k :: k in m ==> m[k].id == k
    requires UserIdsOf(fetched) == ids
    requires forall i :: 0 <= i < |fetched| ==> fetched[i].id in m && fetched[i] == m[fetched[i].id]
    ensures Overwrite(m, LinkedUsers(fetched, e)) == LinkAll(m, ids, e)
  {
    var kvs := LinkedUsers(fetched, e);
    var r := Overwrite(m, kvs);
    OverwriteKeys(m, kvs);
    LinkedUsersKeys(fetched, e);
    assert r.Keys == m.Keys;
    forall k | k in m
      ensures r[k] == LinkAll(m, ids, e)[k]
    {
      if k in ids {
        OverwriteWrittenBy(m, kvs, k);
      } else {
        assert forall i :: 0 <= i < |kvs| ==> kvs[i].0 != k;
        OverwriteUnlisted(m, kvs, k);
      }
    }
  }

  /** The last step of a successful `add_event(e)`: `add_event_to_users` over the
      fetched users, after `e` is cached and stored, leaves what `AddEventStore`
      describes. */
  lemma AddEventLinksFetched(s: Store, e: Event, fetched: seq<User>)
    requires KeyedById(s) && s.cacheFile.Tree?
    requires UserIdsOf(fetched) == e.users
    requires forall i :: 0 <= i < |fetched| ==> fetched[i].id in s.users && fetched[i] == s.users[fetched[i].id]
    ensures e.users <= s.users.Keys
    ensures LinkEventToUsers(CacheEvent(s, e).store.(events := s.events[e.id := e]), e, fetched)
      == Step(AddEventStore(s, e), Pass)
  {
    forall k | k in e.users
      ensures k in s.users
    {
      var i :| 0 <= i < |fetched| && fetched[i].id == k;
    }
    LinkFetchedIsLinkAll(s.users, fetched, e.users, e.id);
    var m := s.cacheFile.entries;
    assert m[e.nextOccurence := e.id.value][e.nextOccurence := e.id.value] == m[e.nextOccurence := e.id.value];
    assert e.(users := e.users + UserIdsOf(fetched)) == e;
  }

  // ---------------------------------------------------------------------------
  // The user-event relation across the whole store
  // ---------------------------------------------------------------------------

  /** Every event a stored user lists is stored and lists that user back, and every
      user a stored event lists is stored and lists that event back. */
  ghost predicate Linked(s: Store) {
    && (forall k, x :: k in s.users && x in s.users[k].events ==> x in s.events && k in s.events[x].users)
    && (forall x, k :: x in s.events && k in s.events[x].users ==> k in s.users && x in s.users[k].events)
  }

  /** A record passed to a link operation is current: the stored copy, or, for an id
      not stored yet, a record naming nothing beyond the link being made. */
  ghost predicate CurrentUser(s: Store, u: User, allowed: set<EventId>) {
    if u.id in s.users then u == s.users[u.id] else u.events <= allowed
  }

  /** The same for an event passed to a link operation. */
  ghost predicate CurrentEvent(s: Store, e: Event, allowed: set<UserId>) {
    if e.id in s.events then e == s.events[e.id] else e.users <= allowed
  }

  /** The user records `add_event_to_users` writes, seen one id at a time when every
      passed user is current: a passed id holds its stored events (none, if it was not
      stored) plus the event; any other id keeps its record. */
  lemma LinkedUserAt(s: Store, e: Event, us: seq<User>, k: UserId)
    requires forall i :: 0 <= i < |us| ==> CurrentUser(s, us[i], {e.id})
    ensures var r := Overwrite(s.users, LinkedUsers(us, e.id));
      && (k in r <==> k in s.users || k in UserIdsOf(us))
      && (k in UserIdsOf(us) && k in s.users ==> r[k].events == s.users[k].events + {e.id})
      && (k in UserIdsOf(us) && k !in s.users ==> r[k].events == {e.id})
      && (k !in UserIdsOf(us) && k in s.users ==> r[k] == s.users[k])
  {
    if k in UserIdsOf(us) {
      LinkedUserWritten(s, e, us, k);
    } else {
      var kvs := LinkedUsers(us, e.id);
      assert forall i :: 0 <= i < |kvs| ==> kvs[i].0 != k;
      OverwriteUnlisted(s.users, kvs, k);
    }
  }

  /** A passed id: its stored events, or none, plus the event. */
  lemma LinkedUserWritten(s: Store, e: Event, us: seq<User>, k: UserId)
    requires forall i :: 0 <= i < |us| ==> CurrentUser(s, us[i], {e.id})
    requires k in UserIdsOf(us)
    ensures var r := Overwrite(s.users, LinkedUsers(us, e.id));
      && k in r
      && r[k].events == (if k in s.users then s.users[k].events else {}) + {e.id}
  {
    var kvs := LinkedUsers(us, e.id);
    LinkedUsersKeys(us, e.id);
    OverwriteWrittenBy(s.users, kvs, k);
    var j :| 0 <= j < |kvs| && kvs[j].0 == k && Overwrite(s.users, kvs)[k] == kvs[j].1;
    assert us[j].id == k && kvs[j].1 == LinkUser(us[j], e.id);
    assert CurrentUser(s, us[j], {e.id});
  }

  /** The event records `add_user_to_events` writes, seen one id at a time when every
      passed event is current: a passed id holds its stored users (none, if it was not
      stored) plus the user; any other id keeps its record. */
  lemma LinkedEventAt(s: Store, u: User, es: seq<Event>, x: EventId)
    requires forall i :: 0 <= i < |es| ==> CurrentEvent(s, es[i], {u.id})
    ensures var r := Overwrite(s.events, LinkedEvents(es, u.id));
      && (x in r <==> x in s.events || x in EventIdsOf(es))
      && (x in EventIdsOf(es) && x in s.events ==> r[x].users == s.events[x].users + {u.id})
      && (x in EventIdsOf(es) && x !in s.events ==> r[x].users == {u.id})
      && (x !in EventIdsOf(es) && x in s.events ==> r[x] == s.events[x])
  {
    if x in EventIdsOf(es) {
      LinkedEventWritten(s, u, es, x);
    } else {
      var kvs := LinkedEvents(es, u.id);
      assert forall i :: 0 <= i < |kvs| ==> kvs[i].0 != x;
      OverwriteUnlisted(s.events, kvs, x);
    }
  }

  /** A passed id: its stored users, or none, plus the user. */
  lemma LinkedEventWritten(s: Store, u: User, es: seq<Event>, x: EventId)
    requires forall i :: 0 <= i < |es| ==> CurrentEvent(s, es[i], {u.id})
    requires x in EventIdsOf(es)
    ensures var r := Overwrite(s.events, LinkedEvents(es, u.id));
      && x in r
      && r[x].users == (if x in s.events then s.events[x].users else {}) + {u.id}
  {
    var kvs := LinkedEvents(es, u.id);
    LinkedEventsKeys(es, u.id);
    OverwriteWrittenBy(s.events, kvs, x);
    var j :| 0 <= j < |kvs| && kvs[j].0 == x && Overwrite(s.events, kvs)[x] == kvs[j].1;
    assert es[j].id == x && kvs[j].1 == LinkEvent(es[j], u.id);
    assert CurrentEvent(s, es[j], {u.id});
  }

  /** `add_event_to_users(e, us)` keeps the relation when it is passed current
      records: each user as stored (or new and unlinked) and the event as stored (or
      new, listing only passed users). */
  lemma LinkEventToUsersKeepsLinked(s: Store, e: Event, us: seq<User>)
    requires Linked(s)
    requires forall i :: 0 <= i < |us| ==> CurrentUser(s, us[i], {e.id})
    requires CurrentEvent(s, e, UserIdsOf(us))
    ensures Linked(LinkEventToUsers(s, e, us).store)
  {
    if s.cacheFile.Tree? {
      var r := LinkEventToUsers(s, e, us).store;
      forall k, x | k in r.users && x in r.users[k].events
        ensures x in r.events && k in r.events[x].users
      {
        LinkedUserAt(s, e, us, k);
      }
      forall x, k | x in r.events && k in r.events[x].users
        ensures k in r.users && x in r.users[k].events
      {
        LinkedUserAt(s, e, us, k);
      }
    }
  }

  /** `add_user_to_events(u, es)` keeps the relation when it is passed current
      records: the user as stored (or new, listing only passed events) and each event
      as stored (or new and unlinked). */
  lemma LinkUserToEventsKeepsLinked(s: Store, u: User, es: seq<Event>)
    requires Linked(s)
    requires CurrentUser(s, u, EventIdsOf(es))
    requires forall i :: 0 <= i < |es| ==> CurrentEvent(s, es[i], {u.id})
    ensures Linked(LinkUserToEvents(s, u, es).store)
  {
    if es == [] || s.cacheFile.Tree? {
      var r := LinkUserToEvents(s, u, es).store;
      forall k, x | k in r.users && x in r.users[k].events
        ensures x in r.events && k in r.events[x].users
      {
        LinkedEventAt(s, u, es, x);
      }
      forall x, k | x in r.events && k in r.events[x].users
        ensures k in r.users && x in r.users[k].events
      {
        LinkedEventAt(s, u, es, x);
      }
    }
  }

  /** A successful `add_event(e)` keeps the relation unless it replaces a stored
      event with one that drops some of that event's users. */
  lemma AddEventKeepsLinked(s: Store, e: Event)
    requires Linked(s) && AddEventSucceeds(s, e)
    requires e.id in s.events ==> s.events[e.id].users <= e.users
    ensures Linked(AddEventStore(s, e))
  {
  }

  /** A store where user 1 and event 10 name each other. */
  function LinkedPair(): (s: Store)
    ensures Linked(s) && KeyedById(s) && s.cacheFile.Tree?
  {
    var e10 := Build(WithUsers(NewBuilder(EventId(10), "Party", 7), {UserId(1)}));
    Store(map[UserId(1) := User(UserId(1), "Alice", {EventId(10)})], map[EventId(10) := e10], Tree(SENTINEL))
  }

  /** A fresh copy of a stored user, as the documentation of `add_event_to_users`
      passes, unlinks the events the user was in: event 10 still lists user 1, whose
      record no longer lists event 10. */
  lemma FreshUserCopyUnlinks()
    ensures var e20 := Build(NewBuilder(EventId(20), "Dinner", 9));
      var r := LinkEventToUsers(LinkedPair(), e20, [NewUser(UserId(1), "Alice")]).store;
      && r.users[UserId(1)].events == {EventId(20)}
      && UserId(1) in r.events[EventId(10)].users
      && !Linked(r)
  {
  }

  /** Storing a rebuilt event under a stored event's id without its users unlinks
      them: user 1 still lists event 10, which no longer lists user 1. */
  lemma ReusedEventIdUnlinks()
    ensures var e10 := Build(NewBuilder(EventId(10), "Party", 7));
      var r := AddEventStore(LinkedPair(), e10);
      && AddEventSucceeds(LinkedPair(), e10)
      && EventId(10) in r.users[UserId(1)].events
      && r.events[EventId(10)].users == {}
      && !Linked(r)
  {
  }

  /** What `rewrite_cache` computes from the stored events: one entry per distinct
      timestamp, holding the id of one stored event with that timestamp. */
  ghost predicate RebuiltFrom(r: map<U64, U64>, events: map<EventId, Event>): (b: bool)
    ensures b ==> forall k :: k in events ==> events[k].nextOccurence in r
  {
    && (forall t :: t in r <==> exists k :: k in events && events[k].nextOccurence == t)
    && (forall t :: t in r ==> exists k :: k in events && events[k].nextOccurence == t && events[k].id.value == r[t])
  }

  /** When no two stored events share a timestamp, the rebuilt map holds every stored
      event and its values are exactly the stored ids. */
  lemma RebuiltWithoutCollisions(r: map<U64, U64>, events: map<EventId, Event>)
    requires RebuiltFrom(r, events)
    requires forall k :: k in events ==> events[k].id == k
    requires forall a, b :: a in events && b in events && a != b ==>
               events[a].nextOccurence != events[b].nextOccurence
    ensures forall k :: k in events ==> events[k].nextOccurence in r && r[events[k].nextOccurence] == k.value
    ensures r.Values == set k | k in events :: k.value
  {
    forall k | k in events
      ensures events[k].nextOccurence in r && r[events[k].nextOccurence] == k.value
    {
      var t := events[k].nextOccurence;
      assert t in r;
      var k' :| k' in events && events[k'].nextOccurence == t && events[k'].id.value == r[t];
      assert k' == k;
    }
    forall v | v in r.Values
      ensures v in set k | k in events :: k.value
    {
      var t :| t in r && r[t] == v;
      var k :| k in events && events[k].nextOccurence == t && events[k].id.value == r[t];
    }
  }

  /** Two stored events that alone share a timestamp: exactly one of them survives in
      the rebuilt map, never both and never neither. */
  lemma RebuiltCollisionKeepsOne(r: map<U64, U64>, events: map<EventId, Event>, a: EventId, b: EventId)
    requires RebuiltFrom(r, events)
    requires forall k :: k in events ==> events[k].id == k
    requires a in events && b in events && a != b
    requires events[a].nextOccurence == events[b].nextOccurence
    requires forall k :: k in events && events[k].nextOccurence == events[a].nextOccurence ==> k == a || k == b
    ensures var t := events[a].nextOccurence;
      t in r && (r[t] == a.value <==> r[t] != b.value)
  {
    var t := events[a].nextOccurence;
    assert t in r;
    var k :| k in events && events[k].nextOccurence == t && events[k].id.value == r[t];
    assert a.value != b.value;
  }

  /** The cache holds exactly the stored events' timestamps, each naming a stored event
      with that timestamp: the state `rewrite_cache` is documented to restore. */
  ghost predicate InSync(s: Store): (b: bool)
    ensures b ==> s.cacheFile.Tree? && forall t :: t in s.cacheFile.entries ==> exists k :: k in s.events && s.events[k].nextOccurence == t
  {
    s.cacheFile.Tree? && RebuiltFrom(s.cacheFile.entries, s.events)
  }

  /** In a store in sync every stored event can be found in the cache at its
      timestamp, and the sentinel is gone unless some event is due at `u64::MAX`. */
  lemma InSyncCoversEveryEvent(s: Store)
    requires InSync(s) && KeyedById(s)
    ensures forall k :: k in s.events ==> s.events[k].nextOccurence in s.cacheFile.entries
    ensures forall t :: t in s.cacheFile.entries ==> EventId(s.cacheFile.entries[t]) in s.events
    ensures MAX_U64 in s.cacheFile.entries <==> exists k :: k in s.events && s.events[k].nextOccurence == MAX_U64
  {
    forall t | t in s.cacheFile.entries
      ensures EventId(s.cacheFile.entries[t]) in s.events
    {
      var k :| k in s.events && s.events[k].nextOccurence == t && s.events[k].id.value == s.cacheFile.entries[t];
      assert EventId(s.cacheFile.entries[t]) == k;
    }
  }

  /** A store whose cache has drifted: one event, due at 5, that the cache (holding
      only the sentinel) does not list. */
  function DriftedStore(): (s: Store)
    ensures KeyedById(s) && s.cacheFile.Tree?
  {
    Store(map[], map[EventId(1) := Build(NewBuilder(EventId(1), "Birthday", 5))], Tree(SENTINEL))
  }

  /** `rewrite_cache` as written leaves the drifted store as it is, and so out of
      sync; writing the map it rebuilt into `event_cache.ron` would have restored it. */
  lemma RewriteAsWrittenLeavesDrift(r: map<U64, U64>)
    requires RebuiltFrom(r, DriftedStore().events)
    ensures !InSync(DriftedStore())
    ensures r == map[5 := 1]
    ensures InSync(DriftedStore().(cacheFile := Tree(r)))
  {
    var s := DriftedStore();
    assert MAX_U64 in s.cacheFile.entries;
    assert forall k :: k in s.events ==> s.events[k].nextOccurence == 5 && k == EventId(1);
    assert 5 in r by {
      assert EventId(1) in s.events && s.events[EventId(1)].nextOccurence == 5;
    }
    var k :| k in s.events && s.events[k].nextOccurence == 5 && s.events[k].id.value == r[5];
    assert r.Keys == {5};
  }

  // ---------------------------------------------------------------------------
  // The store as an object
  // ---------------------------------------------------------------------------

  /** `struct Database`: a handle on the directory under its base path. Its fields are
      the directory's contents, which every method below reads and overwrites. */
  class Database {
    var users: map<UserId, User>
    var events: map<EventId, Event>
    var cacheFile: CacheFile

    function State(): Store
      reads this
    {
      Store(users, events, cacheFile)
    }

    ghost predicate Valid()
      reads this
    {
      KeyedById(State())
    }

    /** `Database::new(base_path)` on a directory holding the records `users0` and
        `events0` and the cache file `file0`: the folders are kept as they are and a
        missing cache file is created holding only the sentinel. */
    constructor (users0: map<UserId, User>, events0: map<EventId, Event>, file0: CacheFile)
      requires KeyedById(Store(users0, events0, file0))
      ensures Valid()
      ensures users == users0 && events == events0 && cacheFile == Seeded(file0)
    {
      users, events, cacheFile := users0, events0, Seeded(file0);
    }

    /** `fetch_user(id)`: the stored record; an id never stored is a failure. */
    function FetchUser(id: UserId): (r: Result<User>)
      reads this
      ensures r.Success? <==> id in users
      ensures r.Success? ==> r.value == users[id]
      ensures r.Failure? ==> r.error == UserNotFound(id)
    {
      if id in users then Success(users[id]) else Failure(UserNotFound(id))
    }

    /** `fetch_event(id)`: the stored record; an id never stored is a failure. */
    function FetchEvent(id: EventId): (r: Result<Event>)
      reads this
      ensures r.Success? <==> id in events
      ensures r.Success? ==> r.value == events[id]
      ensures r.Failure? ==> r.error == EventNotFound(id)
    {
      if id in events then Success(events[id]) else Failure(EventNotFound(id))
    }

    /** `add_user(u)`: overwrites the file of `u.id`; nothing else changes. */
    method AddUser(u: User)
      requires Valid()
      modifies this`users
      ensures Valid()
      ensures users == old(users)[u.id := u]
      ensures FetchUser(u.id) == Success(u)
      ensures forall k :: k != u.id ==> FetchUser(k) == old(FetchUser(k))
    {
      users := users[u.id := u];
    }

    /** `create_user(id, name)`: stores and returns `User::new(id, name)`. */
    method CreateUser(id: UserId, name: string) returns (u: User)
      requires Valid()
      modifies this`users
      ensures Valid()
      ensures u == NewUser(id, name)
      ensures users == old(users)[id := u]
      ensures FetchUser(id).Success? && Same(FetchUser(id).value, u)
    {
      u := NewUser(id, name);
      AddUser(u);
    }

    /** `build_event`: a builder for the event, which is not stored until added. */
    function BuildEvent(id: EventId, name: string, nextOccurence: U64): (b: EventBuilder)
      ensures b == NewBuilder(id, name, nextOccurence)
      ensures Build(b).id == id && Build(b).nextOccurence == nextOccurence
    {
      NewBuilder(id, name, nextOccurence)
    }

    /** Opens `event_cache.ron` under its `FileLock` (creating it, empty, when absent)
        and decodes it. */
    method ReadCacheLocked() returns (r: Result<map<U64, U64>>)
      modifies this`cacheFile
      ensures r.Success? <==> old(cacheFile).Tree?
      ensures r.Success? ==> r.value == old(cacheFile).entries && cacheFile == old(cacheFile)
      ensures r.Failure? ==> r.error == CacheUndecodable && cacheFile == Touched(old(cacheFile))
    {
      if cacheFile.Tree? {
        r := Success(cacheFile.entries);
      } else {
        cacheFile := Touched(cacheFile);
        r := Failure(CacheUndecodable);
      }
    }

    /** `add_event_to_cache(e)`, one atomic step under the file lock. */
    method AddEventToCache(e: Event) returns (o: Outcome)
      requires Valid()
      modifies this`cacheFile
      ensures Valid()
      ensures Step(State(), o) == CacheEvent(old(State()), e)
    {
      var tree := ReadCacheLocked();
      if tree.Failure? {
        return Fail(tree.error);
      }
      cacheFile := Tree(tree.value[e.nextOccurence := e.id.value]);
      o := Pass;
    }

    /** `add_event_to_users(e, us)`. */
    method AddEventToUsers(e: Event, us: seq<User>) returns (o: Outcome)
      requires Valid()
      modifies this
      ensures Valid()
      ensures Step(State(), o) == LinkEventToUsers(old(State()), e, us)
    {
      o := AddEventToCache(e);
      if o.Fail? {
        return;
      }
      var ev := e;
      var i := 0;
      while i < |us|
        invariant 0 <= i <= |us|
        invariant users == Overwrite(old(users), LinkedUsers(us[..i], e.id))
        invariant ev == e.(users := e.users + UserIdsOf(us[..i]))
        invariant events == old(events)
        invariant cacheFile == CacheEvent(old(State()), e).store.cacheFile
      {
        var u := LinkUser(us[i], e.id);
        users := users[u.id := u];
        ev := LinkEvent(ev, us[i].id);
        UsersSnoc(us, i, e.id);
        i := i + 1;
      }
      assert us[..|us|] == us;
      events := events[e.id := ev];
      LinkEventToUsersKeepsKeyed(old(State()), e, us);
    }

    /** `add_user_to_events(u, es)`. */
    method AddUserToEvents(u: User, es: seq<Event>) returns (o: Outcome)
      requires Valid()
      modifies this
      ensures Valid()
      ensures Step(State(), o) == LinkUserToEvents(old(State()), u, es)
    {
      var user := u;
      var i := 0;
      while i < |es|
        invariant 0 <= i <= |es|
        invariant i == 0 ==> cacheFile == old(cacheFile)
        invariant i > 0 ==> old(cacheFile).Tree? &&
                            cacheFile == Tree(Overwrite(old(cacheFile).entries, CacheEntries(es[..i])))
        invariant events == Overwrite(old(events), LinkedEvents(es[..i], u.id))
        invariant user == u.(events := u.events + EventIdsOf(es[..i]))
        invariant users == old(users)
        invariant forall k :: k in events ==> events[k].id == k
      {
        o := AddEventToCache(es[i]);
        if o.Fail? {
          return;
        }
        var e := LinkEvent(es[i], u.id);
        events := events[e.id := e];
        user := user.(events := user.events + {es[i].id});
        EventsSnoc(es, i, u.id);
        i := i + 1;
      }
      assert es[..|es|] == es;
      users := users[user.id := user];
      o := Pass;
      assert State() == LinkUserToEvents(old(State()), u, es).store;
    }

    /** The loop in `add_event` that fetches every listed user, in the arbitrary order
        the `HashSet` yields them, before any is rewritten. A user without a record
        fails the loop with its id. */
    method FetchUsers(ids: set<UserId>) returns (r: Result<seq<User>>)
      requires Valid()
      ensures r.Success? <==> ids <= users.Keys
      ensures r.Success? ==> UserIdsOf(r.value) == ids
      ensures r.Success? ==> forall i :: 0 <= i < |r.value| ==> r.value[i].id in users && r.value[i] == users[r.value[i].id]
      ensures r.Failure? ==> r.error.UserNotFound? && r.error.user in ids && r.error.user !in users
    {
      var fetched: seq<User> := [];
      var rest := ids;
      while rest != {}
        invariant rest <= ids
        invariant UserIdsOf(fetched) == ids - rest
        invariant forall i :: 0 <= i < |fetched| ==> fetched[i].id in users && fetched[i] == users[fetched[i].id]
        decreases rest
      {
        var k :| k in rest;
        var u := FetchUser(k);
        if u.Failure? {
          assert k in ids && k !in users;
          return Failure(u.error);
        }
        assert u.value.id == k;
        assert UserIdsOf(fetched + [u.value]) == UserIdsOf(fetched) + {k} by {
          assert forall j :: 0 <= j < |fetched| ==> (fetched + [u.value])[j] == fetched[j];
          assert (fetched + [u.value])[|fetched|] == u.value;
        }
        fetched := fetched + [u.value];
        rest := rest - {k};
      }
      forall k | k in ids
        ensures k in users
      {
        assert k in UserIdsOf(fetched);
        var i :| 0 <= i < |fetched| && fetched[i].id == k;
      }
      r := Success(fetched);
    }

    /** `add_event(e)`. */
    method AddEvent(e: Event) returns (o: Outcome)
      requires Valid()
      modifies this
      ensures Valid()
      ensures State() == AddEventStore(old(State()), e)
      ensures o.Pass? <==> AddEventSucceeds(old(State()), e)
      ensures o.Fail? ==>
        || (o.error == CacheUndecodable && !old(cacheFile).Tree?)
        || (o.error.UserNotFound? && o.error.user in e.users && o.error.user !in old(users))
    {
      o := AddEventToCache(e);
      if o.Fail? {
        return;
      }
      events := events[e.id := e];
      if e.users == {} {
        assert LinkAll(users, e.users, e.id) == users;
        return;
      }
      var fetchedOrError := FetchUsers(e.users);
      if fetchedOrError.Failure? {
        return Fail(fetchedOrError.error);
      }
      var fetched := fetchedOrError.value;
      AddEventLinksFetched(old(State()), e, fetched);
      o := AddEventToUsers(e, fetched);
    }

    /** `rewrite_cache` as written: every stored event, in the arbitrary order the
        directory lists them, inserted as `next_occurence -> id` into a fresh map (the
        map returned), which is then serialised into `event_cache.bin` opened
        read-only with `File::open`. No file of the store changes: nothing else in
        the crate creates `event_cache.bin`, so on every store `Database::new` makes
        the call panics at that `File::open`, and where the file does exist the
        writes never reach `event_cache.ron`. */
    method RewriteCache() returns (r: map<U64, U64>)
      ensures RebuiltFrom(r, events)
      ensures MAX_U64 in r <==> exists k :: k in events && events[k].nextOccurence == MAX_U64
    {
      var rest := events.Keys;
      r := map[];
      while rest != {}
        invariant rest <= events.Keys
        invariant forall t :: t in r <==> exists k :: k in events && k !in rest && events[k].nextOccurence == t
        invariant forall t :: t in r ==>
          exists k :: k in events && k !in rest && events[k].nextOccurence == t && events[k].id.value == r[t]
        decreases rest
      {
        var k :| k in rest;
        var ev := events[k];
        r := r[ev.nextOccurence := ev.id.value];
        rest := rest - {k};
      }
    }

    /** `rewrite_cache` as its documentation describes it: the rebuilt map replaces the
        contents of `event_cache.ron`, which brings the store back in sync. */
    method ResyncCache() returns (r: map<U64, U64>)
      requires Valid()
      modifies this`cacheFile
      ensures Valid()
      ensures cacheFile == Tree(r) && InSync(State())
    {
      r := RewriteCache();
      cacheFile := Tree(r);
    }
  }

  /** `Event::save_to_db`: `db.add_event(e)`. */
  method SaveToDb(e: Event, db: Database) returns (o: Outcome)
    requires db.Valid()
    modifies db
    ensures db.Valid()
    ensures db.State() == AddEventStore(old(db.State()), e)
    ensures o.Pass? <==> AddEventSucceeds(old(db.State()), e)
  {
    o := db.AddEvent(e);
  }
}
