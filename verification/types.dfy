/** The records shared by the store and the pages. */
module Types {
  import opened Wrappers

  /** A session role: exactly 'admin' or 'user'. */
  datatype UserRole = RoleAdmin | RoleUser

  datatype User = User(id: string, name: string, email: string, role: UserRole)

  /** Some account in `users` has `role`. */
  predicate SomeUserHasRole(users: seq<User>, role: UserRole) {
    exists i :: 0 <= i < |users| && users[i].role == role
  }

  datatype Coordinator = Coordinator(name: string, phone: string, email: string)

  /** An event listing. Only `offer` is optional; `price` and `attendees` are plain numbers
      whose sign nothing enforces. */
  datatype Event = Event(
    id: string,
    title: string,
    description: string,
    date: string,
    location: string,
    price: int,
    category: string,
    image: string,
    coordinators: seq<Coordinator>,
    offer: Option<string>,
    attendees: int)

  /** A ticket is created 'confirmed'; nothing ever moves it to 'checked-in'. */
  datatype TicketStatus = Confirmed | CheckedIn

  /** The three fields the ticket's QR text serialises. */
  datatype QrPayload = QrPayload(eventId: string, userId: string, timestamp: int)

  datatype Ticket = Ticket(
    id: string,
    eventId: string,
    userId: string,
    purchaseDate: string,
    amountPaid: int,
    status: TicketStatus,
    qrCodeData: QrPayload)
}
