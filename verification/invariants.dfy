/** Whole-application steps, each taken through the page that offers it and only when the
    route guard renders that page, and the facts every reachable store keeps. */
module Invariants {
  import opened Wrappers
  import opened Types
  import opened Routes
  import AppContext
  import LoginPage
  import Navbar
  import EventDetails
  import AdminDashboard
  import MockData

  /** Every listed event has a coordinator, so the edit modal's `coordinators[0]` exists. */
  predicate CoordinatorsPresent(events: seq<Event>) {
    forall i :: 0 <= i < |events| ==> |events[i].coordinators| >= 1
  }

  /** What a visitor can do, and on which page. */
  datatype Action =
    | SignIn(form: LoginPage.LoginForm, freshId: string)
    | SignOut
    | SaveEvent(editing: Option<Event>, edits: seq<AdminDashboard.FormEdit>, freshId: string)
    | DeleteEvent(id: string, confirmed: bool)
    | Rsvp(routeId: string, donation: Option<int>, ticketId: string, purchaseDate: string, timestamp: int)

  /** One step. An admin action needs the '/admin' page, an RSVP the '/event/:id' page; when the
      guard redirects instead, the page is not there and nothing happens. The modal cannot render
      an event without coordinators, so such an edit saves nothing. A form whose `required`
      inputs are not all filled is not submitted by the browser, so it changes nothing. */
  function Step(s: AppContext.Store, a: Action): (r: AppContext.Store)
    ensures |s.tickets| <= |r.tickets| && r.tickets[..|s.tickets|] == s.tickets
    ensures r.user != s.user ==> a.SignIn? || a.SignOut?
    ensures r.events != s.events ==> a.SaveEvent? || a.DeleteEvent? || a.Rsvp?
    ensures |r.tickets| != |s.tickets| ==> a.Rsvp? && Visit(s.user, EventPath(a.routeId)) == Render
  {
    match a
    case SignIn(form, freshId) =>
      if !LoginPage.CanSubmit(form) then s else LoginPage.HandleSubmit(s, form, freshId).0
    case SignOut => if s.user.Some? then Navbar.HandleLogout(s).0 else s
    case SaveEvent(editing, edits, freshId) =>
      var form := AdminDashboard.InitialForm(editing);
      if Visit(s.user, AdminPath) != Render || |form.coordinators| == 0 then s
      else
        var typed := AdminDashboard.ApplyEdits(form, edits);
        if !AdminDashboard.CanSubmit(typed) then s else AdminDashboard.Save(s, editing, typed, freshId)
    case DeleteEvent(id, confirmed) =>
      if Visit(s.user, AdminPath) != Render then s else AdminDashboard.HandleDelete(s, id, confirmed)
    case Rsvp(routeId, donation, ticketId, purchaseDate, timestamp) =>
      if Visit(s.user, EventPath(routeId)) != Render then s
      else EventDetails.HandleRsvp(s, routeId, donation, ticketId, purchaseDate, timestamp).0
  }

  function Run(s: AppContext.Store, actions: seq<Action>): AppContext.Store
    decreases |actions|
  {
    if |actions| == 0 then s else Run(Step(s, actions[0]), actions[1..])
  }

  /** After a save, each listed event is the saved record or one that was listed before. */
  lemma SavedEvents(s: AppContext.Store, editing: Option<Event>, f: AdminDashboard.EventForm, freshId: string)
    ensures var after := AdminDashboard.Save(s, editing, f, freshId).events;
            var saved := if editing.Some? then AdminDashboard.Merge(editing.value, f)
                         else AdminDashboard.NewEventFrom(f).(id := freshId);
            forall i :: 0 <= i < |after| ==> after[i] == saved || after[i] in s.events
  {
    var after := AdminDashboard.Save(s, editing, f, freshId).events;
    if editing.None? {
      assert forall i :: 0 <= i < |s.events| ==> after[i] == s.events[i];
    }
  }

  /** Every step keeps each event's coordinator. */
  lemma StepKeepsCoordinators(s: AppContext.Store, a: Action)
    requires CoordinatorsPresent(s.events)
    ensures CoordinatorsPresent(Step(s, a).events)
  {
    match a
    case SaveEvent(editing, edits, freshId) =>
      var form := AdminDashboard.InitialForm(editing);
      if Visit(s.user, AdminPath) == Render && |form.coordinators| >= 1 {
        var f := AdminDashboard.ApplyEdits(form, edits);
        if AdminDashboard.CanSubmit(f) {
          SavedEvents(s, editing, f, freshId);
        }
      }
    case DeleteEvent(id, confirmed) =>
      var after := Step(s, a).events;
      forall i | 0 <= i < |after| ensures |after[i].coordinators| >= 1 {
        assert after[i] in s.events;
      }
    case Rsvp(routeId, donation, ticketId, purchaseDate, timestamp) =>
    case SignIn(_, _) =>
    case SignOut =>
  }

  /** Every store reachable from the initial one keeps each event's coordinator, so the edit
      modal can always render for a listed event. */
  lemma {:induction false} RunKeepsCoordinators(s: AppContext.Store, actions: seq<Action>)
    requires CoordinatorsPresent(s.events)
    ensures CoordinatorsPresent(Run(s, actions).events)
    decreases |actions|
  {
    if |actions| > 0 {
      StepKeepsCoordinators(s, actions[0]);
      RunKeepsCoordinators(Step(s, actions[0]), actions[1..]);
    }
  }

  lemma ReachableHasCoordinators(actions: seq<Action>)
    ensures CoordinatorsPresent(Run(AppContext.Initial, actions).events)
    ensures forall i :: 0 <= i < |Run(AppContext.Initial, actions).events| ==>
              |AdminDashboard.InitialForm(Some(Run(AppContext.Initial, actions).events[i])).coordinators| >= 1
  {
    MockData.SeededEventsWellFormed();
    RunKeepsCoordinators(AppContext.Initial, actions);
  }

  /** A sign-in or save form with an empty `required` input is not submitted: nothing changes. */
  lemma IncompleteFormsChangeNothing(s: AppContext.Store, a: Action)
    requires a.SignIn? ==> !LoginPage.CanSubmit(a.form)
    requires a.SaveEvent? ==>
      var form := AdminDashboard.InitialForm(a.editing);
      |form.coordinators| >= 1 && !AdminDashboard.CanSubmit(AdminDashboard.ApplyEdits(form, a.edits))
    requires a.SignIn? || a.SaveEvent?
    ensures Step(s, a) == s
  {
  }

  /** Every listed event has the fields the event form requires filled in. */
  predicate AllFilledIn(events: seq<Event>) {
    forall i :: 0 <= i < |events| ==> AdminDashboard.FilledIn(events[i])
  }

  /** Saving a submittable form keeps every listed event filled in. */
  lemma SaveKeepsFilledIn(s: AppContext.Store, editing: Option<Event>, f: AdminDashboard.EventForm, freshId: string)
    requires AllFilledIn(s.events) && AdminDashboard.CanSubmit(f)
    ensures AllFilledIn(AdminDashboard.Save(s, editing, f, freshId).events)
  {
    SavedEvents(s, editing, f, freshId);
    if editing.Some? {
      AdminDashboard.FormsAndFilledIn(editing.value, f);
    } else {
      AdminDashboard.FormsAndFilledIn(AdminDashboard.NewEventFrom(f), f);
    }
  }

  lemma StepKeepsFilledIn(s: AppContext.Store, a: Action)
    requires AllFilledIn(s.events)
    ensures AllFilledIn(Step(s, a).events)
  {
    match a
    case SaveEvent(editing, edits, freshId) =>
      var form := AdminDashboard.InitialForm(editing);
      if Visit(s.user, AdminPath) == Render && |form.coordinators| >= 1 {
        var f := AdminDashboard.ApplyEdits(form, edits);
        if AdminDashboard.CanSubmit(f) {
          SaveKeepsFilledIn(s, editing, f, freshId);
        }
      }
    case DeleteEvent(id, confirmed) =>
      var after := Step(s, a).events;
      forall i | 0 <= i < |after| ensures AdminDashboard.FilledIn(after[i]) {
        assert after[i] in s.events;
      }
    case Rsvp(routeId, donation, ticketId, purchaseDate, timestamp) =>
    case SignIn(_, _) =>
    case SignOut =>
  }

  lemma {:induction false} RunKeepsFilledIn(s: AppContext.Store, actions: seq<Action>)
    requires AllFilledIn(s.events)
    ensures AllFilledIn(Run(s, actions).events)
    decreases |actions|
  {
    if |actions| > 0 {
      StepKeepsFilledIn(s, actions[0]);
      RunKeepsFilledIn(Step(s, actions[0]), actions[1..]);
    }
  }

  /** The three seeded events have every required field filled in. */
  lemma SeedsFilledIn()
    ensures AllFilledIn(MockData.MockEvents)
  {
    var events := MockData.MockEvents;
    assert AdminDashboard.FilledIn(events[0]);
    assert AdminDashboard.FilledIn(events[1]);
    assert AdminDashboard.FilledIn(events[2]);
  }

  /** The seeded events are filled in and every save goes through the `required` inputs, so in
      every reachable store each listed event can be re-saved from its edit form untouched. */
  lemma ReachableFilledIn(actions: seq<Action>)
    ensures AllFilledIn(Run(AppContext.Initial, actions).events)
    ensures forall i :: 0 <= i < |Run(AppContext.Initial, actions).events| ==>
              AdminDashboard.CanSubmit(AdminDashboard.InitialForm(Some(Run(AppContext.Initial, actions).events[i])))
  {
    var events := Run(AppContext.Initial, actions).events;
    SeedsFilledIn();
    RunKeepsFilledIn(AppContext.Initial, actions);
    forall i | 0 <= i < |events|
      ensures AdminDashboard.CanSubmit(AdminDashboard.InitialForm(Some(events[i])))
    {
      AdminDashboard.FormsAndFilledIn(events[i], AdminDashboard.InitialForm(Some(events[i])));
    }
  }

  /** Only an admin session changes the event list through the admin page; every other session
      leaves it untouched. */
  lemma AdminActionsNeedAdmin(s: AppContext.Store, a: Action)
    requires a.SaveEvent? || a.DeleteEvent?
    requires s.user.None? || s.user.value.role != RoleAdmin
    ensures Step(s, a) == s
  {
  }

  /** An RSVP the guard lets through for a listed event always issues a ticket: the store's
      silent no-session case cannot arise from the page. */
  lemma GuardedRsvpIssuesTicket(s: AppContext.Store, routeId: string, donation: Option<int>,
                                ticketId: string, purchaseDate: string, timestamp: int)
    requires Visit(s.user, EventPath(routeId)) == Render && AppContext.HasId(s.events, routeId)
    ensures |Step(s, Rsvp(routeId, donation, ticketId, purchaseDate, timestamp)).tickets| == |s.tickets| + 1
  {
  }

  /** Attendee ledger: with a session, an RSVP for an id held by exactly one event raises the
      attendee total and the ticket count by one each; for an id no event holds it adds a
      dangling ticket and leaves the total as it was. */
  lemma RsvpLedger(s: AppContext.Store, eventId: string, amount: int, ticketId: string, purchaseDate: string, timestamp: int)
    requires s.user.Some?
    ensures var r := AppContext.RsvpEvent(s, eventId, amount, ticketId, purchaseDate, timestamp);
            && |r.tickets| == |s.tickets| + 1
            && (AppContext.CountId(s.events, eventId) == 1 ==>
                  AdminDashboard.TotalAttendees(r.events) == AdminDashboard.TotalAttendees(s.events) + 1)
            && (!AppContext.HasId(s.events, eventId) ==> r.events == s.events)
  {
    AdminDashboard.AttendeesAfterBump(s.events, eventId);
  }

  /** The session, if any, is a seeded account, and every ticket was issued to the seeded
      plain user (the only account that reaches '/event/:id'). */
  predicate OwnedBySeededUser(s: AppContext.Store) {
    && (s.user.Some? ==> s.user.value in MockData.MockUsers)
    && forall i :: 0 <= i < |s.tickets| ==> s.tickets[i].userId == MockData.MockUsers[1].id
  }

  lemma StepKeepsOwnership(s: AppContext.Store, a: Action)
    requires OwnedBySeededUser(s)
    ensures OwnedBySeededUser(Step(s, a))
  {
    MockData.SeededUsersCoverBothRoles();
    match a
    case Rsvp(routeId, donation, ticketId, purchaseDate, timestamp) =>
      if Visit(s.user, EventPath(routeId)) == Render {
        assert s.user.value == MockData.MockUsers[1];
      }
    case SignIn(_, _) =>
    case SignOut =>
    case SaveEvent(_, _, _) =>
    case DeleteEvent(_, _) =>
  }

  lemma {:induction false} RunKeepsOwnership(s: AppContext.Store, actions: seq<Action>)
    requires OwnedBySeededUser(s)
    ensures OwnedBySeededUser(Run(s, actions))
    decreases |actions|
  {
    if |actions| > 0 {
      StepKeepsOwnership(s, actions[0]);
      RunKeepsOwnership(Step(s, actions[0]), actions[1..]);
    }
  }

  /** '/my-tickets' lists every stored ticket, not only the viewer's; in any reachable store
      that page renders only for the seeded plain user, who holds every ticket, so the list is
      exactly the viewer's tickets. */
  lemma MyTicketsAreTheViewers(actions: seq<Action>)
    ensures var s := Run(AppContext.Initial, actions);
            Visit(s.user, MyTicketsPath) == Render ==>
              forall i :: 0 <= i < |s.tickets| ==> s.tickets[i].userId == s.user.value.id
  {
    MockData.SeededUsersCoverBothRoles();
    RunKeepsOwnership(AppContext.Initial, actions);
  }
}
