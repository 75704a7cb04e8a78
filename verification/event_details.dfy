/** The event page behind '/event/:id': the lookup, the donation field and `handleRSVP`.
    The donation text box is given already parsed: `None` for an empty or non-numeric entry. */
module EventDetails {
  import opened Wrappers
  import opened Types
  import opened Routes
  import AppContext

  /** What the page shows. */
  datatype View = NotFound | RsvpForm(event: Event, donationField: bool) | Confirmation(event: Event)

  /** The amount handed to `rsvpEvent`: a positive price wins, else the donation, else 0. */
  function RsvpAmount(price: int, donation: Option<int>): (amount: int)
    ensures price > 0 ==> amount == price
    ensures price <= 0 && donation.Some? ==> amount == donation.value
    ensures price <= 0 && donation.None? ==> amount == 0
  {
    if price > 0 then price else donation.GetOr(0)
  }

  /** A priced event charges its price whatever is typed, and the amount is never negative
      for a non-negative price and a non-negative donation. */
  lemma AmountLaws(price: int, d1: Option<int>, d2: Option<int>)
    ensures price > 0 ==> RsvpAmount(price, d1) == RsvpAmount(price, d2)
    ensures price >= 0 && (d1.Some? ==> d1.value >= 0) ==> RsvpAmount(price, d1) >= 0
  {
  }

  /** The page for route parameter `routeId`: the first event with that id, or 'Event not found';
      the donation field appears only for a free event. */
  function Page(events: seq<Event>, routeId: string, showConfirmation: bool): (v: View)
    ensures v.NotFound? <==> !AppContext.HasId(events, routeId)
    ensures !v.NotFound? ==> Some(v.event) == AppContext.FindEvent(events, routeId) && v.event.id == routeId
    ensures v.Confirmation? <==> !v.NotFound? && showConfirmation
    ensures v.RsvpForm? ==> (v.donationField <==> v.event.price == 0)
  {
    match AppContext.FindEvent(events, routeId)
    case None => NotFound
    case Some(e) => if showConfirmation then Confirmation(e) else RsvpForm(e, e.price == 0)
  }

  /** The donation `handleRSVP` reads. The box is rendered only for a free event; for any other
      price `rsvpAmount` keeps its initial '', which parses to no donation. */
  function BoxEntry(e: Event, typed: Option<int>): (d: Option<int>)
    ensures d.Some? ==> e.price == 0 && d == typed
    ensures e.price == 0 ==> d == typed
  {
    if e.price == 0 then typed else None
  }

  /** `handleRSVP`: one `rsvpEvent` call with the shown event's own id and the computed amount,
      then the confirmation flag is set. Without a shown event there is no form to submit. */
  function HandleRsvp(s: AppContext.Store, routeId: string, donation: Option<int>,
                      ticketId: string, purchaseDate: string, timestamp: int): (r: (AppContext.Store, bool))
    ensures !AppContext.HasId(s.events, routeId) ==> r == (s, false)
    ensures AppContext.HasId(s.events, routeId) ==>
      var e := AppContext.FindEvent(s.events, routeId).value;
      r == (AppContext.RsvpEvent(s, e.id, RsvpAmount(e.price, BoxEntry(e, donation)), ticketId, purchaseDate, timestamp), true)
  {
    match AppContext.FindEvent(s.events, routeId)
    case None => (s, false)
    case Some(e) =>
      (AppContext.RsvpEvent(s, e.id, RsvpAmount(e.price, BoxEntry(e, donation)), ticketId, purchaseDate, timestamp), true)
  }

  /** On a page the guard lets through, submitting for a listed event issues one ticket to the
      session user for that event at the computed amount, and the page then confirms the same
      event with one more attendee. */
  lemma SubmitIssuesTicket(s: AppContext.Store, routeId: string, donation: Option<int>,
                           ticketId: string, purchaseDate: string, timestamp: int)
    requires Visit(s.user, EventPath(routeId)) == Render
    requires AppContext.HasId(s.events, routeId)
    ensures var e := AppContext.FindEvent(s.events, routeId).value;
            var r := HandleRsvp(s, routeId, donation, ticketId, purchaseDate, timestamp);
            && |r.0.tickets| == |s.tickets| + 1
            && AppContext.IssuedTo(r.0.tickets[|s.tickets|], routeId, s.user.value, RsvpAmount(e.price, BoxEntry(e, donation)))
            && Page(r.0.events, routeId, r.1) == Confirmation(AppContext.OneMore(e))
  {
    AppContext.FindAfterBump(s.events, routeId);
  }

  /** A priced event's ticket records its price, not the donation typed; a free event's ticket
      records the donation, or 0 without one; an event with a negative price shows no box, so
      its ticket records 0. */
  lemma TicketAmount(s: AppContext.Store, routeId: string, donation: Option<int>,
                     ticketId: string, purchaseDate: string, timestamp: int)
    requires s.user.Some? && AppContext.HasId(s.events, routeId)
    ensures var e := AppContext.FindEvent(s.events, routeId).value;
            var t := HandleRsvp(s, routeId, donation, ticketId, purchaseDate, timestamp).0.tickets[|s.tickets|];
            && (e.price > 0 ==> t.amountPaid == e.price)
            && (e.price == 0 ==> t.amountPaid == donation.GetOr(0))
            && (e.price < 0 ==> t.amountPaid == 0)
  {
  }
}
