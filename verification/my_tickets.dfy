/** The tickets page: every stored ticket joined with its event. */
module MyTickets {
  import opened Wrappers
  import opened Types
  import Seqs
  import AppContext

  /** One card: a ticket and the event it was found to point at. */
  datatype Row = Row(ticket: Ticket, event: Event)

  /** 'No Tickets Yet', or the grid of cards (possibly with no card at all). */
  datatype View = NoTicketsYet | TicketGrid(rows: seq<Row>)

  function TicketsOf(rows: seq<Row>): (r: seq<Ticket>)
    ensures |r| == |rows|
    ensures forall i :: 0 <= i < |rows| ==> r[i] == rows[i].ticket
  {
    if |rows| == 0 then [] else [rows[0].ticket] + TicketsOf(rows[1..])
  }

  /** The tickets that get a card: those whose `eventId` some event carries, in ticket order,
      every occurrence kept. */
  function KeptTickets(tickets: seq<Ticket>, events: seq<Event>): (r: seq<Ticket>)
    ensures Seqs.IsSubsequence(r, tickets)
    ensures forall t :: t in r <==> t in tickets && AppContext.HasId(events, t.eventId)
    ensures forall t :: multiset(r)[t] == if AppContext.HasId(events, t.eventId) then multiset(tickets)[t] else 0
  {
    if |tickets| == 0 then []
    else
      var rest := KeptTickets(tickets[1..], events);
      assert tickets == [tickets[0]] + tickets[1..];
      assert multiset(tickets) == multiset([tickets[0]]) + multiset(tickets[1..]);
      if AppContext.HasId(events, tickets[0].eventId) then
        assert ([tickets[0]] + rest)[1..] == rest;
        assert multiset([tickets[0]] + rest) == multiset([tickets[0]]) + multiset(rest);
        [tickets[0]] + rest
      else
        rest
  }

  /** The cards, in ticket order: each ticket with the first event of its `eventId`; a ticket
      whose event is gone yields no card. */
  function Join(tickets: seq<Ticket>, events: seq<Event>): (rows: seq<Row>)
    ensures forall i :: 0 <= i < |rows| ==> AppContext.FindEvent(events, rows[i].ticket.eventId) == Some(rows[i].event)
    ensures TicketsOf(rows) == KeptTickets(tickets, events)
  {
    if |tickets| == 0 then []
    else
      var rest := Join(tickets[1..], events);
      match AppContext.FindEvent(events, tickets[0].eventId)
      case None => rest
      case Some(e) =>
        var rows := [Row(tickets[0], e)] + rest;
        assert rows[1..] == rest;
        assert TicketsOf(rows) == [tickets[0]] + TicketsOf(rest);
        rows
  }

  /** The page reads every ticket in the store, whoever holds the session. */
  function Page(s: AppContext.Store): (v: View)
    ensures v.NoTicketsYet? <==> |s.tickets| == 0
    ensures v.TicketGrid? ==> v.rows == Join(s.tickets, s.events)
  {
    if |s.tickets| == 0 then NoTicketsYet else TicketGrid(Join(s.tickets, s.events))
  }

  /** The page is the same for any session user, or none: tickets are not filtered by owner. */
  lemma PageIgnoresSessionUser(s: AppContext.Store, u: Option<User>)
    ensures Page(s.(user := u)) == Page(s)
  {
  }

  /** When every ticket dangles, the page shows an empty grid rather than the empty state. */
  lemma {:induction false} AllDanglingShowsEmptyGrid(s: AppContext.Store)
    requires |s.tickets| > 0
    requires forall i :: 0 <= i < |s.tickets| ==> !AppContext.HasId(s.events, s.tickets[i].eventId)
    ensures Page(s) == TicketGrid([])
  {
    Seqs.SubsequenceElements(KeptTickets(s.tickets, s.events), s.tickets);
  }
}
