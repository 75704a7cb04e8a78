/** The shared state container: session user, event list, ticket list and their transitions.
    The ids and clock readings the source draws from `Math.random`, `new Date()` and `Date.now()`
    are parameters here; nothing makes ids unique, so every transition keyed by id acts on
    every event carrying that id. */
module AppContext {
  import opened Wrappers
  import opened Types
  import Text
  import Seqs
  import MockData

  datatype Store = Store(user: Option<User>, events: seq<Event>, tickets: seq<Ticket>)

  /** A session starts logged out, with the seeded events and no tickets. */
  const Initial: Store := Store(None, MockData.MockEvents, [])

  // ---------------------------------------------------------------- lookups

  predicate HasId(events: seq<Event>, id: string) {
    exists i :: 0 <= i < |events| && events[i].id == id
  }

  /** Position `k` holds the first event whose id is `id`. */
  ghost predicate FirstWithId(events: seq<Event>, id: string, k: int) {
    0 <= k < |events| && events[k].id == id && forall j :: 0 <= j < k ==> events[j].id != id
  }

  lemma FirstWithIdUnique(events: seq<Event>, id: string, k1: int, k2: int)
    requires FirstWithId(events, id, k1) && FirstWithId(events, id, k2)
    ensures k1 == k2
  {
  }

  lemma HasIdUnfold(events: seq<Event>, id: string)
    requires |events| > 0
    ensures HasId(events, id) <==> events[0].id == id || HasId(events[1..], id)
  {
    if HasId(events[1..], id) {
      var j :| 0 <= j < |events[1..]| && events[1..][j].id == id;
      assert events[j + 1].id == id;
    }
    if HasId(events, id) && events[0].id != id {
      var i :| 0 <= i < |events| && events[i].id == id;
      assert events[1..][i - 1].id == id;
    }
  }

  /** Number of events carrying `id`. */
  function CountId(events: seq<Event>, id: string): (n: nat)
    ensures n <= |events|
    ensures n == 0 <==> !HasId(events, id)
  {
    if |events| == 0 then 0
    else
      HasIdUnfold(events, id);
      (if events[0].id == id then 1 else 0) + CountId(events[1..], id)
  }

  function FindIndexFrom(events: seq<Event>, id: string, from: nat): (r: Option<nat>)
    requires from <= |events|
    requires forall j :: 0 <= j < from ==> events[j].id != id
    ensures r.Some? ==> FirstWithId(events, id, r.value)
    ensures r.None? ==> !HasId(events, id)
    decreases |events| - from
  {
    if from == |events| then None
    else if events[from].id == id then Some(from)
    else FindIndexFrom(events, id, from + 1)
  }

  /** `events.find(e => e.id === id)`: the first event carrying `id`, if any. */
  function FindEvent(events: seq<Event>, id: string): (r: Option<Event>)
    ensures r.Some? <==> HasId(events, id)
    ensures r.Some? ==> exists k :: FirstWithId(events, id, k) && r.value == events[k]
  {
    match FindIndexFrom(events, id, 0)
    case Some(k) => Some(events[k])
    case None => None
  }

  /** The found event is pinned down by the position of the first match. */
  lemma FindEventAt(events: seq<Event>, id: string, k: int)
    requires FirstWithId(events, id, k)
    ensures FindEvent(events, id) == Some(events[k])
  {
    var r := FindEvent(events, id);
    var k' :| FirstWithId(events, id, k') && r.value == events[k'];
    FirstWithIdUnique(events, id, k, k');
  }

  /** `MOCK_USERS.find(u => u.role === role)`, from position `from` on. */
  function FindUserByRole(users: seq<User>, role: UserRole, from: nat): (r: Option<User>)
    requires from <= |users|
    requires forall j :: 0 <= j < from ==> users[j].role != role
    ensures r.None? <==> !SomeUserHasRole(users, role)
    ensures r.Some? ==> exists k :: 0 <= k < |users| && users[k] == r.value && r.value.role == role
                                    && forall j :: 0 <= j < k ==> users[j].role != role
    decreases |users| - from
  {
    if from == |users| then None
    else if users[from].role == role then Some(users[from])
    else FindUserByRole(users, role, from + 1)
  }

  // ---------------------------------------------------------------- session

  /** The account `login` binds: the first seeded account with the role, or else one
      synthesised from the email, named by the text before its first '@'. */
  function SessionUser(seeded: seq<User>, email: string, role: UserRole, freshId: string): (u: User)
    ensures u.role == role
    ensures SomeUserHasRole(seeded, role) ==>
              exists k :: 0 <= k < |seeded| && seeded[k] == u && forall j :: 0 <= j < k ==> seeded[j].role != role
    ensures !SomeUserHasRole(seeded, role) ==>
              u.id == freshId && u.email == email && u.name == Text.BeforeFirst(email, '@')
  {
    match FindUserByRole(seeded, role, 0)
    case Some(found) => found
    case None => User(freshId, Text.BeforeFirst(email, '@'), email, role)
  }

  /** `login(email, role)`: binds a session user with the requested role; no credential check. */
  function Login(s: Store, email: string, role: UserRole, freshId: string): (r: Store)
    ensures r.user.Some? && r.user.value.role == role
    ensures r.user.value in MockData.MockUsers
    ensures r.events == s.events && r.tickets == s.tickets
  {
    MockData.SeededUsersCoverBothRoles();
    s.(user := Some(SessionUser(MockData.MockUsers, email, role, freshId)))
  }

  /** With the seeded accounts, the email and the fresh id play no part: an admin login always
      binds 'Admin User' and a user login always binds 'John Doe'. */
  lemma LoginBindsSeededAccount(s: Store, email: string, role: UserRole, freshId: string)
    ensures Login(s, email, role, freshId).user ==
              Some(if role == RoleAdmin then MockData.MockUsers[0] else MockData.MockUsers[1])
  {
  }

  /** `logout()`: clears the session and touches nothing else. */
  function Logout(s: Store): (r: Store)
    ensures r.user.None?
    ensures r.events == s.events && r.tickets == s.tickets
  {
    s.(user := None)
  }

  // ---------------------------------------------------------------- events

  /** `addEvent(event)`: appends the caller's record under a fresh id; its attendees are kept. */
  function AddEvent(s: Store, e: Event, freshId: string): (r: Store)
    ensures |r.events| == |s.events| + 1
    ensures r.events[..|s.events|] == s.events
    ensures r.events[|s.events|] == e.(id := freshId)
    ensures r.user == s.user && r.tickets == s.tickets
  {
    s.(events := s.events + [e.(id := freshId)])
  }

  /** Every event carrying `u.id` becomes `u`; the others, the length and the order stay. */
  function ReplaceById(events: seq<Event>, u: Event): (r: seq<Event>)
    ensures |r| == |events|
    ensures forall i :: 0 <= i < |events| ==> r[i].id == events[i].id
    ensures forall i :: 0 <= i < |events| && events[i].id == u.id ==> r[i] == u
    ensures forall i :: 0 <= i < |events| && events[i].id != u.id ==> r[i] == events[i]
    ensures !HasId(events, u.id) ==> r == events
  {
    seq(|events|, i requires 0 <= i < |events| => if events[i].id == u.id then u else events[i])
  }

  /** `updateEvent(updated)`: full replacement of every event with the same id. */
  function UpdateEvent(s: Store, u: Event): (r: Store)
    ensures r.events == ReplaceById(s.events, u)
    ensures r.user == s.user && r.tickets == s.tickets
  {
    s.(events := ReplaceById(s.events, u))
  }

  /** Every event carrying `id` is dropped; the rest keep their relative order. */
  function RemoveById(events: seq<Event>, id: string): (r: seq<Event>)
    ensures forall e :: e in r <==> e in events && e.id != id
    ensures Seqs.IsSubsequence(r, events)
    ensures |r| == |events| - CountId(events, id)
    ensures !HasId(events, id) ==> r == events
  {
    if |events| == 0 then []
    else
      HasIdUnfold(events, id);
      var rest := RemoveById(events[1..], id);
      if events[0].id == id then
        rest
      else
        assert ([events[0]] + rest)[1..] == rest;
        assert events == [events[0]] + events[1..];
        [events[0]] + rest
  }

  /** `deleteEvent(id)`: tickets that point at the deleted event stay as they are. */
  function DeleteEvent(s: Store, id: string): (r: Store)
    ensures r.events == RemoveById(s.events, id)
    ensures r.user == s.user && r.tickets == s.tickets
  {
    s.(events := RemoveById(s.events, id))
  }

  /** The same event with one more attendee: every other field is kept. */
  function OneMore(e: Event): (r: Event)
    ensures r.attendees == e.attendees + 1
    ensures r.(attendees := e.attendees) == e
  {
    e.(attendees := e.attendees + 1)
  }

  /** Every event carrying `id` gains exactly one attendee; nothing else changes. */
  function BumpAttendees(events: seq<Event>, id: string): (r: seq<Event>)
    ensures |r| == |events|
    ensures forall i :: 0 <= i < |events| && events[i].id == id ==>
              r[i] == OneMore(events[i])
    ensures forall i :: 0 <= i < |events| && events[i].id != id ==> r[i] == events[i]
    ensures !HasId(events, id) ==> r == events
  {
    seq(|events|, i requires 0 <= i < |events| =>
      if events[i].id == id then OneMore(events[i]) else events[i])
  }

  // ---------------------------------------------------------------- RSVP

  /** `t` is the ticket an RSVP by `u` for `eventId` paying `amount` produces. */
  predicate IssuedTo(t: Ticket, eventId: string, u: User, amount: int) {
    && t.eventId == eventId
    && t.userId == u.id
    && t.amountPaid == amount
    && t.status == Confirmed
    && t.qrCodeData.eventId == eventId
    && t.qrCodeData.userId == u.id
  }

  /** `rsvpEvent(eventId, amount)`: without a session nothing happens; otherwise one confirmed
      ticket is appended with `amount` stored verbatim, and the attendee count of every event
      carrying `eventId` goes up by one. A dangling `eventId` still yields a ticket. */
  function RsvpEvent(s: Store, eventId: string, amount: int, ticketId: string, purchaseDate: string, timestamp: int): (r: Store)
    ensures s.user.None? ==> r == s
    ensures s.user.Some? ==>
      && r.user == s.user
      && |r.tickets| == |s.tickets| + 1
      && r.tickets[..|s.tickets|] == s.tickets
      && r.tickets[|s.tickets|].id == ticketId
      && IssuedTo(r.tickets[|s.tickets|], eventId, s.user.value, amount)
      && r.events == BumpAttendees(s.events, eventId)
  {
    match s.user
    case None => s
    case Some(u) =>
      var ticket := Ticket(ticketId, eventId, u.id, purchaseDate, amount, Confirmed,
                           QrPayload(eventId, u.id, timestamp));
      Store(s.user, BumpAttendees(s.events, eventId), s.tickets + [ticket])
  }

  // ---------------------------------------------------------------- laws

  /** Updating twice with the same record is updating once. */
  lemma UpdateIdempotent(s: Store, u: Event)
    ensures UpdateEvent(UpdateEvent(s, u), u) == UpdateEvent(s, u)
  {
  }

  /** After an update, looking the id up yields exactly the record passed in. */
  lemma FindAfterUpdate(events: seq<Event>, u: Event)
    requires HasId(events, u.id)
    ensures FindEvent(ReplaceById(events, u), u.id) == Some(u)
  {
    var r := ReplaceById(events, u);
    var found := FindEvent(events, u.id);
    var k :| FirstWithId(events, u.id, k) && found.value == events[k];
    assert FirstWithId(r, u.id, k);
    FindEventAt(r, u.id, k);
  }

  /** Deleting twice is deleting once, and afterwards the id is gone. */
  lemma DeleteIdempotent(s: Store, id: string)
    ensures DeleteEvent(DeleteEvent(s, id), id) == DeleteEvent(s, id)
    ensures FindEvent(DeleteEvent(s, id).events, id).None?
  {
    var r := RemoveById(s.events, id);
    assert !HasId(r, id) by {
      forall i | 0 <= i < |r| ensures r[i].id != id {
        assert r[i] in r;
      }
    }
  }

  /** Removing by id splits over a concatenation. */
  lemma {:induction false} RemoveSplits(a: seq<Event>, b: seq<Event>, id: string)
    ensures RemoveById(a + b, id) == RemoveById(a, id) + RemoveById(b, id)
    decreases |a|
  {
    if |a| == 0 {
      assert a + b == b;
    } else {
      var ab := a + b;
      assert ab[0] == a[0];
      assert ab[1..] == a[1..] + b;
      RemoveSplits(a[1..], b, id);
    }
  }

  /** Deleting a freshly added event under its fresh id restores the event list. */
  lemma AddThenDeleteRestores(events: seq<Event>, e: Event, freshId: string)
    requires !HasId(events, freshId)
    ensures RemoveById(events + [e.(id := freshId)], freshId) == events
  {
    var added := e.(id := freshId);
    RemoveSplits(events, [added], freshId);
    assert RemoveById([added], freshId) == [] by {
      assert [added][1..] == [];
    }
  }

  /** Bumping keeps the first position of an id and moves that event forward by one attendee. */
  lemma BumpKeepsFirst(events: seq<Event>, id: string, k: int)
    requires FirstWithId(events, id, k)
    ensures FirstWithId(BumpAttendees(events, id), id, k)
    ensures BumpAttendees(events, id)[k] == OneMore(events[k])
  {
  }

  /** An RSVP moves the found event of its id forward by one attendee. */
  lemma FindAfterBump(events: seq<Event>, id: string)
    requires HasId(events, id)
    ensures FindEvent(BumpAttendees(events, id), id)
            == Some(OneMore(FindEvent(events, id).value))
  {
    var found := FindEvent(events, id);
    var k :| FirstWithId(events, id, k) && found.value == events[k];
    var r := BumpAttendees(events, id);
    BumpKeepsFirst(events, id, k);
    FindEventAt(r, id, k);
  }
}
