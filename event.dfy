/** Events, their two enums and the builder (nari/src/models/event.rs, lines 20-107). */
module Events {

  import opened Ids

  /** `enum Repeatability`; `#[default]` is `Never`. */
  datatype Repeatability =
    Yearly | Biyearly | Quarterly | Monthly | Bimonthly | Weekly | Daily | Hourly | Never

  /** `enum Priority`; `#[default]` is `Low`. */
  datatype Priority = Urgent | VeryHigh | High | Medium | Low | Minimal

  function DefaultRepeatability(): (r: Repeatability)
    ensures r.Never?
  {
    Never
  }

  function DefaultPriority(): (p: Priority)
    ensures p.Low?
  {
    Low
  }

  /** `struct Event`. It derives no equality in the source; here two events are
      compared field by field (Dafny's structural equality), never by id alone. */
  datatype Event = Event(
    id: EventId,
    name: string,
    description: string,
    nextOccurence: U64,
    users: set<UserId>,
    repeats: Repeatability,
    priority: Priority)

  /** `struct EventBuilder`: the same fields as `Event`, filled in step by step. */
  datatype EventBuilder = EventBuilder(
    id: EventId,
    name: string,
    description: string,
    nextOccurence: U64,
    users: set<UserId>,
    repeats: Repeatability,
    priority: Priority)

  /** The derived `EventBuilder::default()`: every field at its type's default. */
  function DefaultBuilder(): (b: EventBuilder)
    ensures b.id == EventId(0) && b.name == "" && b.description == "" && b.nextOccurence == 0
    ensures b.users == {} && b.repeats.Never? && b.priority.Low?
  {
    EventBuilder(EventId(0), "", "", 0, {}, DefaultRepeatability(), DefaultPriority())
  }

  /** `EventBuilder::new(id, name, next_occurence)`: the three given fields, the rest
      taken from `Self::default()`. */
  function NewBuilder(id: EventId, name: string, nextOccurence: U64): (b: EventBuilder)
    ensures b.id == id && b.name == name && b.nextOccurence == nextOccurence
    ensures b.description == "" && b.users == {}
    ensures b.repeats.Never? && b.priority.Low?
  {
    DefaultBuilder().(id := id, name := name, nextOccurence := nextOccurence)
  }

  /** `EventBuilder::description`: replaces the description, keeps every other field. */
  function WithDescription(b: EventBuilder, description: string): (r: EventBuilder)
    ensures r.description == description
    ensures r.id == b.id && r.name == b.name && r.nextOccurence == b.nextOccurence
    ensures r.users == b.users && r.repeats == b.repeats && r.priority == b.priority
  {
    b.(description := description)
  }

  /** `EventBuilder::users`: replaces the whole user set (no merge with the old one),
      keeps every other field. */
  function WithUsers(b: EventBuilder, users: set<UserId>): (r: EventBuilder)
    ensures r.users == users
    ensures r.id == b.id && r.name == b.name && r.description == b.description
    ensures r.nextOccurence == b.nextOccurence && r.repeats == b.repeats && r.priority == b.priority
  {
    b.(users := users)
  }

  /** `EventBuilder::repeats`: replaces the repeatability, keeps every other field. */
  function WithRepeats(b: EventBuilder, repeats: Repeatability): (r: EventBuilder)
    ensures r.repeats == repeats
    ensures r.id == b.id && r.name == b.name && r.description == b.description
    ensures r.nextOccurence == b.nextOccurence && r.users == b.users && r.priority == b.priority
  {
    b.(repeats := repeats)
  }

  /** `EventBuilder::priority`: replaces the priority, keeps every other field. */
  function WithPriority(b: EventBuilder, priority: Priority): (r: EventBuilder)
    ensures r.priority == priority
    ensures r.id == b.id && r.name == b.name && r.description == b.description
    ensures r.nextOccurence == b.nextOccurence && r.users == b.users && r.repeats == b.repeats
  {
    b.(priority := priority)
  }

  /** `EventBuilder::build`: an event carrying every builder field unchanged. */
  function Build(b: EventBuilder): (e: Event)
    ensures e.id == b.id && e.name == b.name && e.description == b.description
    ensures e.nextOccurence == b.nextOccurence && e.users == b.users
    ensures e.repeats == b.repeats && e.priority == b.priority
  {
    Event(b.id, b.name, b.description, b.nextOccurence, b.users, b.repeats, b.priority)
  }

  /** Building loses nothing: different builders build different events. */
  lemma BuildInjective(b1: EventBuilder, b2: EventBuilder)
    ensures Build(b1) == Build(b2) <==> b1 == b2
  {
  }

  /** Setters of different fields commute, and a second call of the same setter
      discards the first: the last value given wins. */
  lemma SettersCommuteAndLastWins(b: EventBuilder, d: string, us: set<UserId>, us': set<UserId>,
                                  r: Repeatability, p: Priority)
    ensures WithDescription(WithPriority(b, p), d) == WithPriority(WithDescription(b, d), p)
    ensures WithUsers(WithRepeats(b, r), us) == WithRepeats(WithUsers(b, us), r)
    ensures WithUsers(WithUsers(b, us), us').users == us'
  {
  }
}
