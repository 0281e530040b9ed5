/** A user record (nari/src/models/user.rs). */
module Users {

  import opened Ids

  /** `struct User { id, name, events: HashSet<EventId> }`. */
  datatype User = User(id: UserId, name: string, events: set<EventId>)

  /** `User::new`: a user with the given id and name, linked to no event yet. */
  function NewUser(id: UserId, name: string): (u: User)
    ensures u.id == id && u.name == name
    ensures u.events == {}
  {
    User(id, name, {})
  }

  /** The hand-written `PartialEq for User`: two users are the same user when their ids
      agree; names and event sets are not compared. */
  predicate Same(a: User, b: User): (r: bool)
    ensures a == b ==> r
    ensures r <==> a.(name := b.name, events := b.events) == b
  {
    a.id == b.id
  }

  /** `Same` is an equivalence relation, as `impl Eq for User` declares. */
  lemma SameIsEquivalence()
    ensures forall a: User :: Same(a, a)
    ensures forall a: User, b: User :: Same(a, b) <==> Same(b, a)
    ensures forall a: User, b: User, c: User :: Same(a, b) && Same(b, c) ==> Same(a, c)
  {
  }

  /** A user is the same user as any copy of it whose name or events differ. */
  lemma SameIgnoresPayload(u: User, name: string, events: set<EventId>)
    ensures Same(u, u.(name := name, events := events))
  {
  }

  /** The relation is strictly coarser than structural equality: two different
      records can be the same user. */
  lemma SameIsCoarserThanEquality()
    ensures forall a: User, b: User :: a == b ==> Same(a, b)
    ensures exists a: User, b: User :: Same(a, b) && a != b
  {
    var a := NewUser(UserId(42), "Alice");
    var b := a.(events := {EventId(1)});
    assert Same(a, b) && a != b;
  }
}
