/** The seeded accounts and events the store starts from. */
module MockData {
  import opened Wrappers
  import opened Types

  const MockUsers: seq<User> := [
    User("1", "Admin User", "admin@example.com", RoleAdmin),
    User("2", "John Doe", "john@example.com", RoleUser)
  ]

  const MockEvents: seq<Event> := [
    Event(
      "1",
      "Tech Summit 2025",
      "The biggest technology conference of the year featuring top speakers from around the globe.",
      "2025-06-15T09:00:00",
      "Convention Center, San Francisco",
      299,
      "Technology",
      "https://images.unsplash.com/photo-1540575467063-178a50c2df87?auto=format&fit=crop&q=80&w=2000",
      [Coordinator("Sarah Smith", "+1 234 567 8900", "sarah@techsummit.com")],
      Some("Early Bird 15% OFF"),
      120),
    Event(
      "2",
      "Music Festival",
      "A weekend of live music, food, and art under the stars.",
      "2025-07-20T16:00:00",
      "Central Park, New York",
      150,
      "Entertainment",
      "https://images.unsplash.com/photo-1459749411177-0473ef7161a8?auto=format&fit=crop&q=80&w=2000",
      [Coordinator("Mike Ross", "+1 987 654 3210", "mike@musicfest.com")],
      None,
      450),
    Event(
      "3",
      "Startup Networking Night",
      "Connect with founders, investors, and innovators in the startup ecosystem.",
      "2025-05-10T18:00:00",
      "WeWork, Austin",
      0,
      "Business",
      "https://images.unsplash.com/photo-1515187029135-18ee286d815b?auto=format&fit=crop&q=80&w=2000",
      [Coordinator("Alex Chen", "+1 555 123 4567", "alex@startup.com")],
      Some("Free Entry for Students"),
      85)
  ]

  /** One seeded admin and one seeded user, so a lookup by role always finds an account. */
  lemma SeededUsersCoverBothRoles()
    ensures |MockUsers| == 2
    ensures MockUsers[0].role == RoleAdmin && MockUsers[1].role == RoleUser
    ensures forall role: UserRole :: SomeUserHasRole(MockUsers, role)
  {
    forall role: UserRole
      ensures SomeUserHasRole(MockUsers, role)
    {
      if role == RoleAdmin {
        assert MockUsers[0].role == role;
      } else {
        assert MockUsers[1].role == role;
      }
    }
  }

  /** The seeded events: ids '1', '2', '3' pairwise distinct, one coordinator each,
      non-negative prices and attendee counts, exactly one free event. */
  lemma SeededEventsWellFormed()
    ensures |MockEvents| == 3
    ensures forall i, j :: 0 <= i < j < |MockEvents| ==> MockEvents[i].id != MockEvents[j].id
    ensures forall i :: 0 <= i < |MockEvents| ==> |MockEvents[i].coordinators| == 1
    ensures forall i :: 0 <= i < |MockEvents| ==> MockEvents[i].price >= 0 && MockEvents[i].attendees >= 0
    ensures forall i :: 0 <= i < |MockEvents| ==> (MockEvents[i].price == 0 <==> i == 2)
  {
  }
}
