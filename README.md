# Nari: the file-backed event store and its dispatcher, in Dafny

Nari keeps users and events as one RON file per record, under `users/{id}.ron`
and `events/{id}.ron` below a base directory. It keeps an "event cache" file,
`event_cache.ron`: an ordered map from a Unix timestamp (`next_occurence`) to the
id of the event due then. `Database::new` seeds a new cache with the sentinel
entry `u64::MAX -> 0`.

The link operations write records on both sides:
- `add_event_to_users` adds the event's id to each passed user and each user's id
  to the event.
- `add_user_to_events` does the same with one user and many events.
- `add_event` stores an event, fetches its listed users and then links them.

Each link operation writes the copies it is passed, not the stored records. The
relation across the whole store is `Database.Linked`: every user an event lists
lists that event, and the other way round. That relation survives a call when the
passed records are current, meaning either the stored copy or a new record that
names nothing else. A successful `add_event` passes the stored users it has just
fetched, so it keeps the relation unless it replaces a stored event with one that
drops some of that event's users (`Database.ReusedEventIdUnlinks`). An `add_event`
that fails on a listed user with no record has already written the new event,
which then lists that user (`Database.AddEventFailsPartway`). The documentation
examples of `add_event_to_users` pass freshly built users. A fresh copy of a user
who is already stored drops that user's earlier events while those events still
list the user (`Database.FreshUserCopyUnlinks`).

`rewrite_cache` rebuilds a timestamp-to-id map from the stored events and tries to
write it to `event_cache.bin`, not to the cache file (see "## Findings").

An `EventListener` keeps the cache in memory and reloads it whenever the file
changes. Every refresh interval it reads the clock and asks whether the smallest
key is due. If it is, it:
1. collects the ids of all keys strictly below `now`, in ascending key order;
2. prunes the map to the keys at or above `now`;
3. writes the pruned map back to the file;
4. loads each collected event and sends it on a channel.

The model is organised as follows. Each directory is a map, and the cache file is
a three-way value: missing, present but undecodable, or a decoded map. The
operations are written twice:
- as functions of the store before the call (`CacheEvent`, `LinkEventToUsers`,
  `LinkUserToEvents`, `AddEventStore`), which carry the lemmas;
- as methods of the class `Database`, whose loops are proved to end in exactly
  the state those functions give.

One turn of the listener's polling loop is `EventListener.Tick`. It takes the
clock reading as a parameter. It is proved against `HasPassedEvent`, `DueIds`
and `RetainFrom`, and the lemmas in `Listener` are stated about those three
functions.

Modelling choices:
- A `.unwrap()` that panics is an `Outcome.Fail` or a `Result.Failure`. The
  state is the one at the moment of the panic.
- A record read back is the record written. RON encoding is not modelled.
- `u64` is the newtype `Ids.U64`.
- The order in which a `HashSet` or a directory listing is iterated is an
  arbitrary choice (`:|`). Every property is proved for every such order.

Where the code and its own documentation disagree, the model follows the code:
- `has_passed_event` fires when the smallest key is `<= now` (event.rs:189), and
  the crate documentation promises delivery "whenever their unix timestamp is
  reached" (lib.rs:17). The tick itself collects `range(..now)`, which means
  `< now`, and prunes with `retain(k >= now)` (event.rs:168, 171). An entry at
  exactly `now` makes the tick fire, but it is neither collected nor removed. It
  is delivered by the first tick after the clock has passed it
  (`Listener.EntryAtNowIsDetectedNotTaken`).
- The doc comment of `rewrite_cache` (database.rs:263-264) says it replaces the
  queue of future events with the one rebuilt from the records. The code writes
  the rebuilt map to a different file, opened read-only (see "## Findings").

Files:
- `ids.dfy`: the ids and `u64`.
- `errors.dfy`: the failure values.
- `overwrites.dfy`: a fold of map writes, shared by the three write loops.
- `user.dfy` and `event.dfy`: the records.
- `ordered_map.dfy`: the `BTreeMap` queries.
- `database.dfy`: the store.
- `listener.dfy`: the dispatcher.

## Model

| member | source | states |
|---|---|---|
| Users.NewUser | nari/src/models/user.rs:14-20 | a new user has the given id and name and belongs to no event |
| Users.Same | nari/src/models/user.rs:22-26 | two users are equal exactly when they agree on the id, whatever their names and event sets; structurally equal users are equal |
| Users.SameIsEquivalence | nari/src/models/user.rs:22-27 | user equality (ids equal) is reflexive, symmetric and transitive, as `impl Eq` declares |
| Users.SameIgnoresPayload | nari/src/models/user.rs:22-26 | a user equals any copy of it with a different name or event set |
| Users.SameIsCoarserThanEquality | nari/src/models/user.rs:22-26 | structurally equal users are equal, and there are equal users that differ structurally |
| Events.DefaultRepeatability | nari/src/models/event.rs:36-48 | the default repeatability is `Never` |
| Events.DefaultPriority | nari/src/models/event.rs:50-59 | the default priority is `Low` |
| Events.DefaultBuilder | nari/src/models/event.rs:61-70 | the derived default builder: id 0, empty strings, timestamp 0, no users, `Never`, `Low` |
| Events.NewBuilder | nari/src/models/event.rs:72-79 | a new builder holds the given id, name and timestamp and the defaults for every other field |
| Events.WithDescription | nari/src/models/event.rs:80-83 | sets the description and leaves every other field as it was |
| Events.WithUsers | nari/src/models/event.rs:84-87 | replaces the user set and leaves every other field as it was |
| Events.WithRepeats | nari/src/models/event.rs:88-91 | sets the repeatability and leaves every other field as it was |
| Events.WithPriority | nari/src/models/event.rs:92-95 | sets the priority and leaves every other field as it was |
| Events.Build | nari/src/models/event.rs:96-106 | the built event carries every builder field unchanged |
| Events.BuildInjective | nari/src/models/event.rs:96-106 | two builders build the same event exactly when they are equal |
| Events.SettersCommuteAndLastWins | nari/src/models/event.rs:80-95 | setters of different fields commute; of two calls of the same setter the last wins |
| Overwrites.Overwrite | nari/src/models/database.rs:209-215 | the loops that write one record file per element, in order, each write replacing the file of its key; no contract of its own, its properties are the lemmas below |
| Overwrites.OverwriteIsUnion | nari/src/models/database.rs:209-215 | writing a sequence of records over a folder equals the folder overridden by the records written |
| Overwrites.OverwriteIdempotent | nari/src/models/database.rs:252-259 | writing the same sequence of records twice leaves what writing it once leaves |
| Overwrites.OverwriteKeys | nari/src/models/database.rs:209-215 | after the writes, the files present are the old ones plus the ids written |
| Overwrites.OverwriteUnlisted | nari/src/models/database.rs:209-215 | an id not written keeps its file, or its absence |
| Overwrites.OverwriteLastWins | nari/src/models/database.rs:252-259 | an id written several times holds its last write |
| Overwrites.OverwriteWrittenBy | nari/src/models/database.rs:209-215 | an id written holds one of the values written for it |
| Overwrites.OverwriteKeepsKeyed | nari/src/models/database.rs:211 | writing records to the files of their own keys keeps every file named after its record's key |
| OrderedMaps.MinKey | nari/src/models/event.rs:187-193 | `first_key_value`: a key of the map no larger than any other |
| OrderedMaps.Ascending | nari/src/models/event.rs:168 | `BTreeMap` iteration order: each key exactly once, strictly increasing |
| OrderedMaps.ValuesAt | nari/src/models/event.rs:168-170 | the value at each visited key, in visiting order |
| OrderedMaps.KeysBelow | nari/src/models/event.rs:168 | `range(..now)` visits exactly the keys strictly below `now` |
| OrderedMaps.RetainFrom | nari/src/models/event.rs:171 | `retain(k >= now)` keeps exactly the keys at or above `now`, with their values |
| Database.Digit | nari/src/models/database.rs:285 | a decimal digit is a character `'0'..'9'` |
| Database.Decimal | nari/src/models/database.rs:285 | `format!("{id}")` is never empty, and has one digit exactly for ids below 10 |
| Database.DecimalRoundTrip | nari/src/models/database.rs:285 | the decimal digits of an id read back as the id |
| Database.RecordPath | nari/src/models/database.rs:281-302 | a record's file is `{folder}/{id}.ron` below the base path |
| Database.RecordPathsDistinct | nari/src/models/database.rs:281-302 | different (folder, id) pairs name different files, and none is the cache file |
| Database.UserAndEventFilesDistinct | nari/src/models/database.rs:211-216 | a user file `users/{u}.ron` and an event file `events/{e}.ron` are never the same file, whatever the ids, and neither is the cache file |
| Database.Seeded | nari/src/models/database.rs:36-45 | `new` creates a missing cache holding only `u64::MAX -> 0` and leaves an existing one untouched |
| Database.SeededIdempotent | nari/src/models/database.rs:36-45 | opening the store a second time changes the cache no further |
| Database.Touched | nari/src/models/database.rs:304-310 | a locked read that fails to decode leaves an undecodable (empty, if it was missing) file |
| Database.TouchedIsNeverSeeded | nari/src/models/database.rs:36-40 | once a failed locked read has created the file, `new` no longer seeds it |
| Database.LinkUser | nari/src/models/database.rs:210 | `u.events.insert(id)` adds the id and changes nothing else of the user |
| Database.LinkEvent | nari/src/models/database.rs:214 | `e.users.insert(id)` adds the id and changes nothing else of the event |
| Database.LinkedUsers | nari/src/models/database.rs:209-213 | the user files written, in order: each passed user with the event added |
| Database.LinkedEvents | nari/src/models/database.rs:252-256 | the event files written, in order: each passed event with the user added |
| Database.CacheEntries | nari/src/models/database.rs:252-253 | the cache inserts made, in order: each passed event's timestamp to its id |
| Database.CacheEvent | nari/src/models/database.rs:303-319 | caching an event maps its timestamp to its id, adds no other key and keeps every other entry; it fails exactly when the cache does not decode, touching no record |
| Database.LinkEventToUsers | nari/src/models/database.rs:203-218 | `add_event_to_users`: completes exactly when the cache decodes; the cache ends as caching the event leaves it; a failure is the failed caching, with no record written |
| Database.LinkUserToEvents | nari/src/models/database.rs:248-262 | `add_user_to_events`: completes exactly when no event is passed or the cache decodes; a failure is an undecodable cache that is touched and nothing else; on completion the user is stored with every passed event's id added |
| Database.AddEventSucceeds | nari/src/models/database.rs:144-156 | `add_event` completes exactly when caching the event succeeds and every listed user is stored |
| Database.AddEventStore | nari/src/models/database.rs:144-156 | the store `add_event` leaves: the cache as caching the event leaves it, the same user files; with a decodable cache the event is stored as given, otherwise no record changes |
| Database.LinkAll | nari/src/models/database.rs:148-154 | the stored users, with the event added exactly to those listed |
| Database.OperationsKeepKeyedById | nari/src/models/database.rs:203-262 | every write operation keeps each record in the file of its own id |
| Database.LinkEventToUsersLinksBothSides | nari/src/models/database.rs:203-218 | with a decodable cache, every passed user lists the event and the event lists every passed user |
| Database.LinkEventToUsersStores | nari/src/models/database.rs:207-217 | the event is stored with the passed ids added; each passed user's last copy is stored with the event added; the user files are the old ones plus the passed ids |
| Database.LinkEventToUsersFrame | nari/src/models/database.rs:203-218 | no user not passed and no event but this one changes; an undecodable cache fails the call before any record is written |
| Database.LinkEventToUsersIdempotent | nari/src/models/database.rs:203-218 | a second identical call leaves the same store and ends the same way |
| Database.LinkEventToUsersKeepsIdentity | nari/src/models/database.rs:94-97 | every stored user is still equal (same id) to what was stored before a link, as the `fetch_user` example asserts |
| Database.LinkUserToEventsLinksBothSides | nari/src/models/database.rs:248-262 | the user lists every passed event, each passed event lists the user, and every passed event's timestamp is cached |
| Database.LinkUserToEventsStores | nari/src/models/database.rs:252-259 | each passed event's last copy is stored with the user added; the event files are the old ones plus the passed ids |
| Database.LinkUserToEventsCaches | nari/src/models/database.rs:252-253 | the cache gains exactly the passed timestamps; a timestamp passed once maps to that event's id |
| Database.LinkUserToEventsFrame | nari/src/models/database.rs:248-262 | no user but this one, no event not passed and no cache entry at a timestamp not passed changes |
| Database.LinkUserToEventsIdempotent | nari/src/models/database.rs:248-262 | a second identical call leaves the same store and ends the same way |
| Database.AddEventLinksBothSides | nari/src/models/database.rs:144-156 | a successful `add_event` stores the event as given, caches it, links every listed user both ways and changes no other user |
| Database.AddEventFailsPartway | nari/src/models/database.rs:144-156 | a listed user without a record fails after the event and its cache entry are written and before any user is; an undecodable cache writes nothing |
| Database.AddEventLinksFetched | nari/src/models/database.rs:148-154 | with a decodable cache, linking the users fetched for the event's ids leaves exactly the store `AddEventStore` gives, and completes; every listed id is then stored |
| Database.LinkedUserAt | nari/src/models/database.rs:209-213 | with current users passed, each passed id ends with its stored events (none, if new) plus the event, and every other user keeps its record |
| Database.LinkedEventAt | nari/src/models/database.rs:252-256 | with current events passed, each passed id ends with its stored users (none, if new) plus the user, and every other event keeps its record |
| Database.LinkEventToUsersKeepsLinked | nari/src/models/database.rs:203-218 | passed current records, `add_event_to_users` keeps every user-event link two-sided across the whole store |
| Database.LinkUserToEventsKeepsLinked | nari/src/models/database.rs:248-262 | passed current records, `add_user_to_events` keeps every user-event link two-sided across the whole store |
| Database.AddEventKeepsLinked | nari/src/models/database.rs:144-156 | a successful `add_event` keeps every link two-sided unless it replaces a stored event with one that drops some of its users |
| Database.FreshUserCopyUnlinks | nari/src/models/database.rs:195-212 | a fresh copy of a stored user, as the documentation example passes, leaves an event listing a user who no longer lists it |
| Database.ReusedEventIdUnlinks | nari/src/models/database.rs:144-147 | `add_event` with a rebuilt event under a stored id drops its users while they still list it |
| Database.LinkFetchedIsLinkAll | nari/src/models/database.rs:148-154 | linking the users fetched, in whatever order, gives the stored users linked as a set |
| Database.RebuiltFrom | nari/src/models/database.rs:265-276 | a map rebuilt from the event files holds the timestamp of every stored event |
| Database.RebuiltWithoutCollisions | nari/src/models/database.rs:265-276 | with distinct timestamps the rebuilt map lists every stored event at its timestamp, and its values are exactly the stored ids |
| Database.RebuiltCollisionKeepsOne | nari/src/models/database.rs:274 | of two events that alone share a timestamp, exactly one survives the rebuild |
| Database.InSync | nari/src/models/database.rs:263-264 | a cache in sync with the records decodes, and each of its timestamps is the timestamp of some stored event |
| Database.InSyncCoversEveryEvent | nari/src/models/database.rs:263-264 | a cache in sync lists every stored event, names only stored events, and keeps the sentinel only if an event is due at `u64::MAX` |
| Database.RewriteAsWrittenLeavesDrift | nari/src/models/database.rs:277-278 | a drifted store stays out of sync after `rewrite_cache` as written, though writing the rebuilt map would have restored it |
| Database.Database.constructor | nari/src/models/database.rs:29-48 | the store opened on existing records keeps them and seeds an absent cache |
| Database.Database.FetchUser | nari/src/models/database.rs:94-97 | returns the stored user; fails with the id exactly when none is stored |
| Database.Database.FetchEvent | nari/src/models/database.rs:172-175 | returns the stored event; fails with the id exactly when none is stored |
| Database.Database.FetchUsers | nari/src/models/database.rs:148-153 | fetches every listed user: succeeds exactly when all are stored, returning one stored user per listed id; otherwise fails naming a listed id without a record |
| Database.Database.AddUser | nari/src/models/database.rs:78-81 | overwrites the file of the user's id; every other fetch answers as before |
| Database.Database.CreateUser | nari/src/models/database.rs:60-64 | stores and returns `User::new(id, name)`; fetching the id gives an equal user |
| Database.Database.BuildEvent | nari/src/models/database.rs:119-121 | `EventBuilder::new`; its build has the given id and timestamp |
| Database.Database.ReadCacheLocked | nari/src/models/database.rs:304-310 | the decoded cache, or a failure that leaves an undecodable file (created empty if it was missing) |
| Database.Database.AddEventToCache | nari/src/models/database.rs:303-319 | ends in exactly the state and outcome `CacheEvent` gives |
| Database.Database.AddEventToUsers | nari/src/models/database.rs:203-218 | its loop ends in exactly the state and outcome `LinkEventToUsers` gives |
| Database.Database.AddUserToEvents | nari/src/models/database.rs:248-262 | its loop ends in exactly the state and outcome `LinkUserToEvents` gives |
| Database.Database.AddEvent | nari/src/models/database.rs:144-156 | ends in the state `AddEventStore` gives; succeeds exactly when the cache decodes and every listed user is stored; a failure names the undecodable cache or a missing listed user |
| Database.Database.RewriteCache | nari/src/models/database.rs:265-279 | the map rebuilt from the stored events (every timestamp present, each naming a stored event there); no file changes |
| Database.Database.ResyncCache | nari/src/models/database.rs:263-279 | the rebuilt map replaces the cache, which is then in sync with the stored events |
| Database.SaveToDb | nari/src/models/event.rs:31-33 | `save_to_db` is `add_event` |
| Listener.HasPassedEvent | nari/src/models/event.rs:187-193 | something is due exactly when some key is at most `now`; never on an empty map |
| Listener.DueIds | nari/src/models/event.rs:168-170 | one collected id per key below `now` |
| Listener.DueIdsInKeyOrder | nari/src/models/event.rs:168-170 | the collected ids are the values of the keys below `now`, in strictly ascending key order |
| Listener.TickPartitionsCache | nari/src/models/event.rs:168-171 | the collected entries and the kept entries are disjoint and together make up the cache |
| Listener.NothingDueUnlessPassed | nari/src/models/event.rs:166-171 | when nothing is due, no key is below `now` and pruning would keep everything |
| Listener.EntryAtNowIsDetectedNotTaken | nari/src/models/event.rs:166-171 | an entry at exactly `now` fires the tick, is not collected, is kept with its value and is collected by a later tick |
| Listener.RetickAtSameSecond | nari/src/models/event.rs:166-171 | right after a tick, a tick at the same `now` fires only if an entry was at `now`, and collects nothing |
| Listener.NoEntryCollectedTwice | nari/src/models/event.rs:168-171 | no cache key is collected by two successive ticks |
| Listener.SentinelNeverTaken | nari/src/models/event.rs:168-171 | the `u64::MAX` sentinel is never collected and is kept with its value, at every `now` |
| Listener.FreshCacheDeliversNothing | nari/src/models/event.rs:166-171 | a freshly seeded cache collects nothing at any `now`, and fires only at `now == u64::MAX` |
| Listener.TickExample | nari/src/models/event.rs:166-171 | entries at `t1 < t2 < now < t3` yield the ids at `t1` then `t2` and keep only `t3` |
| Listener.CollectDue | nari/src/models/event.rs:168-170 | its loop collects exactly `DueIds`, in ascending key order |
| Listener.EventListener.constructor | nari/src/models/event.rs:115-120 | a new listener has nothing loaded, nothing collected and is not stopped |
| Listener.EventListener.Reload | nari/src/models/event.rs:123-152 | a locked read of the cache file replaces the in-memory map; a file that does not decode leaves the map, fails and stops the listener, so no later reload or tick runs |
| Listener.EventListener.Deliver | nari/src/models/event.rs:176-183 | sends the stored event of each collected id in order, stopping at the first id without a record, which stops the listener; clears the ids only when all were sent |
| Listener.EventListener.Collect | nari/src/models/event.rs:166-175 | the ids collected are exactly `DueIds` of the map before; the map is pruned to the keys at or above `now`; the file is rewritten with the pruned map exactly when something was due |
| Listener.EventListener.Tick | nari/src/models/event.rs:162-183 | the map is pruned to the keys at or above `now`; the file is rewritten exactly when something was due; the events sent are the stored events of a prefix of `DueIds`, all of them exactly when every id has a record, and a failure stops at the first id without one and stops the listener; only a running listener ticks |

## Left out

- Reading the clock (`SystemTime::now`) is left out. `Tick` takes `now` as a parameter.
- The tokio interval, the `mpsc` channel and `refresh_rate` are left out. Sending
  is appending to the sequence `Tick` returns, and a closed channel is not modelled.
- The `notify` watcher task and its concurrency with the polling loop are left out.
  A reload is the separate call `Reload`, and every step runs atomically. The race
  between the watcher and the file write in the tick is not modelled.
- Locks are modelled as atomic steps. `add_event_to_cache` takes a `FileLock` on
  `event_cache.ron` twice, once to read (database.rs:305-306) and once to write
  (database.rs:314-315); the model makes the pair one step. The tick locks only the
  in-memory `Mutex`, twice (event.rs:166 and 167), and its write of the file at
  event.rs:172-173 takes no file lock. What another process could do between those
  acquisitions is not modelled.
- RON encoding and decoding are left out. A record or cache is read back as it
  was written. A corrupt record file, or one whose contents name a different
  id, is not modelled. `Valid` assumes every record sits under its own id, and
  every write keeps that true.
- IO errors are left out: `create_dir_all` in `new`, `File::create` and `File::open`
  failing for permissions, and a `read_dir` entry that fails to read. The `io::Result`
  of `new` is not modelled.
- Directory entries that are not files are skipped by `rewrite_cache` (`if
  path.is_file()`); the model has none.
- Database.Database.constructor: the base path itself is left out. Every file is
  modelled relative to it, so two `Database` handles on different directories
  cannot be expressed.
- Listener.EventListener.Tick: in the source `ids` is a local of `start` that lives
  across loop turns. Here it is a field. The precondition `ids == []` holds at
  every turn the source reaches, because a panic ends the loop, and `stopped` records that panic.
- Listener.EventListener.Deliver: an event file is looked up by the id stored in
  the cache. A decoded record whose own id differs is not modelled (see RON above).
- Ownership is left out: `save_to_db`, the builder setters and the link operations
  take their arguments by value (a move). The model copies values instead, which no
  caller can tell apart from a move.
- `nari/examples/basic_usage.rs` and the `nyari` front-ends are not part of this
  model.

## Findings

| source | as written | input that shows it | evidently intended | confidence | as-written member | corrected member |
|---|---|---|---|---|---|---|
| nari/src/models/database.rs:277-278 | `rewrite_cache` serialises the rebuilt map into `event_cache.bin`, opened read-only with `File::open`: it panics when that file is absent and otherwise writes nothing `event_cache.ron` sees | a store with one event due at 5 whose cache holds only the sentinel: after `rewrite_cache` the cache still does not list the event | replace `event_cache.ron` with the rebuilt map, as the doc comment at lines 263-264 says | high (not executed) | Database.RewriteAsWrittenLeavesDrift | Database.Database.ResyncCache |
