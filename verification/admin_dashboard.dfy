/** The admin page: the three statistics, the create/edit modal and the confirm-gated delete. */
module AdminDashboard {
  import opened Wrappers
  import opened Types
  import AppContext

  // ---------------------------------------------------------------- statistics

  /** Sum of `attendees` over the list (the 'Total Attendees' card). */
  function TotalAttendees(events: seq<Event>): (n: int)
    ensures (forall i :: 0 <= i < |events| ==> events[i].attendees >= 0) ==> n >= 0
  {
    if |events| == 0 then 0 else events[0].attendees + TotalAttendees(events[1..])
  }

  /** Sum of `price * attendees` over the list (the 'Revenue (Est.)' card). */
  function Revenue(events: seq<Event>): (n: int)
    ensures (forall i :: 0 <= i < |events| ==> events[i].price >= 0 && events[i].attendees >= 0) ==> n >= 0
  {
    if |events| == 0 then 0 else Takings(events[0]) + Revenue(events[1..])
  }

  /** One event's share of the revenue estimate. */
  function Takings(e: Event): int {
    e.price * e.attendees
  }

  /** One more attendee brings in one more price. */
  lemma TakingsAfterBump(e: Event)
    ensures Takings(AppContext.OneMore(e)) == Takings(e) + e.price
  {
    assert e.price * (e.attendees + 1) == e.price * e.attendees + e.price;
  }

  /** Sum of the prices of the events carrying `id`. */
  function PriceOfId(events: seq<Event>, id: string): int {
    if |events| == 0 then 0
    else (if events[0].id == id then events[0].price else 0) + PriceOfId(events[1..], id)
  }

  datatype Stats = Stats(totalEvents: nat, totalAttendees: int, revenue: int)

  function StatsOf(events: seq<Event>): (st: Stats)
    ensures st.totalEvents == |events|
  {
    Stats(|events|, TotalAttendees(events), Revenue(events))
  }

  /** Both sums split over a concatenation. */
  lemma {:induction false} TotalsAppend(a: seq<Event>, b: seq<Event>)
    ensures TotalAttendees(a + b) == TotalAttendees(a) + TotalAttendees(b)
    ensures Revenue(a + b) == Revenue(a) + Revenue(b)
    decreases |a|
  {
    if |a| > 0 {
      assert (a + b)[1..] == a[1..] + b;
      TotalsAppend(a[1..], b);
    } else {
      assert a + b == b;
    }
  }

  /** Adding an event counts it once and adds its own attendees and revenue. */
  lemma StatsAfterAdd(s: AppContext.Store, e: Event, freshId: string)
    ensures var after := StatsOf(AppContext.AddEvent(s, e, freshId).events);
            && after.totalEvents == |s.events| + 1
            && after.totalAttendees == TotalAttendees(s.events) + e.attendees
            && after.revenue == Revenue(s.events) + Takings(e)
  {
    var added := e.(id := freshId);
    TotalsAppend(s.events, [added]);
    assert [added][1..] == [];
  }

  /** Bumping the whole list is bumping its head and then its tail. */
  lemma BumpSplits(events: seq<Event>, id: string)
    requires |events| > 0
    ensures AppContext.BumpAttendees(events, id)[1..] == AppContext.BumpAttendees(events[1..], id)
  {
    var bumped := AppContext.BumpAttendees(events, id);
    var tail := AppContext.BumpAttendees(events[1..], id);
    forall i | 0 <= i < |tail|
      ensures bumped[1..][i] == tail[i]
    {
      assert events[1..][i] == events[i + 1];
    }
  }

  /** An RSVP adds one attendee per event carrying the id. */
  lemma {:induction false} AttendeesAfterBump(events: seq<Event>, id: string)
    ensures TotalAttendees(AppContext.BumpAttendees(events, id)) == TotalAttendees(events) + AppContext.CountId(events, id)
    decreases |events|
  {
    if |events| > 0 {
      var bumped := AppContext.BumpAttendees(events, id);
      BumpSplits(events, id);
      AttendeesAfterBump(events[1..], id);
      assert bumped[0].attendees == events[0].attendees + (if events[0].id == id then 1 else 0);
    }
  }

  /** The head of a bumped list brings in its price once more exactly when it carries the id. */
  lemma BumpedHeadTakings(events: seq<Event>, id: string)
    requires |events| > 0
    ensures Takings(AppContext.BumpAttendees(events, id)[0])
            == Takings(events[0]) + (if events[0].id == id then events[0].price else 0)
  {
    if events[0].id == id {
      TakingsAfterBump(events[0]);
    }
  }

  /** An RSVP adds, per event carrying the id, that event's price to the revenue estimate. */
  lemma {:induction false} RevenueAfterBump(events: seq<Event>, id: string)
    ensures Revenue(AppContext.BumpAttendees(events, id)) == Revenue(events) + PriceOfId(events, id)
    decreases |events|
  {
    if |events| > 0 {
      var bumped := AppContext.BumpAttendees(events, id);
      BumpSplits(events, id);
      RevenueAfterBump(events[1..], id);
      BumpedHeadTakings(events, id);
      assert Revenue(bumped) == Takings(bumped[0]) + Revenue(bumped[1..]);
    }
  }

  // ---------------------------------------------------------------- the event form

  /** The modal's form state. `offer` is plain text here: a missing offer is ''. */
  datatype EventForm = EventForm(
    title: string,
    description: string,
    date: string,
    location: string,
    price: int,
    category: string,
    offer: string,
    image: string,
    coordinators: seq<Coordinator>)

  const BlankCoordinator: Coordinator := Coordinator("", "", "")

  /** `EventModal`'s initial form: blank with price 0 and one empty coordinator when creating,
      the event's own fields when editing. The `|| ''` and `|| 0` defaults change nothing but a
      missing offer, and an array is never falsy, so the coordinators are the event's own. */
  function InitialForm(editing: Option<Event>): (f: EventForm)
    ensures editing.None? ==> f == EventForm("", "", "", "", 0, "", "", "", [BlankCoordinator])
    ensures editing.Some? ==>
      var e := editing.value;
      && f.title == e.title && f.description == e.description && f.date == e.date
      && f.location == e.location && f.price == e.price && f.category == e.category
      && f.image == e.image && f.coordinators == e.coordinators
      && f.offer == e.offer.GetOr("")
  {
    match editing
    case None => EventForm("", "", "", "", 0, "", "", "", [BlankCoordinator])
    case Some(e) =>
      EventForm(e.title, e.description, e.date, e.location, e.price, e.category,
                e.offer.GetOr(""), e.image, e.coordinators)
  }

  /** One keystroke in one form field; the coordinator inputs all edit the first coordinator. */
  datatype FormEdit =
    | SetTitle(text: string)
    | SetDescription(text: string)
    | SetDate(text: string)
    | SetPrice(amount: int)
    | SetLocation(text: string)
    | SetCategory(text: string)
    | SetOffer(text: string)
    | SetImage(text: string)
    | SetCoordinatorName(text: string)
    | SetCoordinatorPhone(text: string)
    | SetCoordinatorEmail(text: string)

  /** The form's `onChange` handlers. The modal reads `coordinators[0]` to render at all, so it
      needs one coordinator; every edit keeps the number of coordinators. */
  function ApplyEdit(f: EventForm, edit: FormEdit): (r: EventForm)
    requires |f.coordinators| >= 1
    ensures |r.coordinators| == |f.coordinators|
    ensures r.coordinators[1..] == f.coordinators[1..]
    ensures !edit.SetCoordinatorName? && !edit.SetCoordinatorPhone? && !edit.SetCoordinatorEmail? ==>
              r.coordinators == f.coordinators
    ensures edit.SetTitle? ==> r == f.(title := edit.text)
    ensures edit.SetDescription? ==> r == f.(description := edit.text)
    ensures edit.SetDate? ==> r == f.(date := edit.text)
    ensures edit.SetPrice? ==> r == f.(price := edit.amount)
    ensures edit.SetLocation? ==> r == f.(location := edit.text)
    ensures edit.SetCategory? ==> r == f.(category := edit.text)
    ensures edit.SetOffer? ==> r == f.(offer := edit.text)
    ensures edit.SetImage? ==> r == f.(image := edit.text)
    ensures edit.SetCoordinatorName? || edit.SetCoordinatorPhone? || edit.SetCoordinatorEmail? ==>
              r.(coordinators := f.coordinators) == f
    ensures edit.SetCoordinatorName? ==> r.coordinators[0] == f.coordinators[0].(name := edit.text)
    ensures edit.SetCoordinatorPhone? ==> r.coordinators[0] == f.coordinators[0].(phone := edit.text)
    ensures edit.SetCoordinatorEmail? ==> r.coordinators[0] == f.coordinators[0].(email := edit.text)
  {
    var first := f.coordinators[0];
    match edit
    case SetTitle(t) => f.(title := t)
    case SetDescription(t) => f.(description := t)
    case SetDate(t) => f.(date := t)
    case SetPrice(p) => f.(price := p)
    case SetLocation(t) => f.(location := t)
    case SetCategory(t) => f.(category := t)
    case SetOffer(t) => f.(offer := t)
    case SetImage(t) => f.(image := t)
    case SetCoordinatorName(t) => f.(coordinators := [first.(name := t)] + f.coordinators[1..])
    case SetCoordinatorPhone(t) => f.(coordinators := [first.(phone := t)] + f.coordinators[1..])
    case SetCoordinatorEmail(t) => f.(coordinators := [first.(email := t)] + f.coordinators[1..])
  }

  /** The two edits type into the same input. */
  predicate SameField(a: FormEdit, b: FormEdit) {
    || (a.SetTitle? && b.SetTitle?)
    || (a.SetDescription? && b.SetDescription?)
    || (a.SetDate? && b.SetDate?)
    || (a.SetPrice? && b.SetPrice?)
    || (a.SetLocation? && b.SetLocation?)
    || (a.SetCategory? && b.SetCategory?)
    || (a.SetOffer? && b.SetOffer?)
    || (a.SetImage? && b.SetImage?)
    || (a.SetCoordinatorName? && b.SetCoordinatorName?)
    || (a.SetCoordinatorPhone? && b.SetCoordinatorPhone?)
    || (a.SetCoordinatorEmail? && b.SetCoordinatorEmail?)
  }

  /** The last value typed into an input is the one the form keeps. */
  lemma LastEditWins(f: EventForm, a: FormEdit, b: FormEdit)
    requires |f.coordinators| >= 1 && SameField(a, b)
    ensures ApplyEdit(ApplyEdit(f, a), b) == ApplyEdit(f, b)
  {
  }

  /** Typing into two different inputs gives the same form in either order. */
  lemma EditsCommute(f: EventForm, a: FormEdit, b: FormEdit)
    requires |f.coordinators| >= 1 && !SameField(a, b)
    ensures ApplyEdit(ApplyEdit(f, a), b) == ApplyEdit(ApplyEdit(f, b), a)
  {
  }

  /** A run of edits, in typing order. */
  function ApplyEdits(f: EventForm, edits: seq<FormEdit>): (r: EventForm)
    requires |f.coordinators| >= 1
    ensures |r.coordinators| == |f.coordinators|
    decreases |edits|
  {
    if |edits| == 0 then f else ApplyEdits(ApplyEdit(f, edits[0]), edits[1..])
  }

  /** The modal's `required` inputs all hold text: title, description, date, location, category
      and the first coordinator's name, phone and email. The browser submits only such a form.
      The price input is bound to a number and is never empty. */
  predicate CanSubmit(f: EventForm) {
    && f.title != "" && f.description != "" && f.date != "" && f.location != "" && f.category != ""
    && |f.coordinators| >= 1
    && f.coordinators[0].name != "" && f.coordinators[0].phone != "" && f.coordinators[0].email != ""
  }

  /** An event whose fields the modal requires are all filled in. */
  predicate FilledIn(e: Event) {
    && e.title != "" && e.description != "" && e.date != "" && e.location != "" && e.category != ""
    && |e.coordinators| >= 1
    && e.coordinators[0].name != "" && e.coordinators[0].phone != "" && e.coordinators[0].email != ""
  }

  /** `{ ...editingEvent, ...data }`: the form's fields over the edited event; its id and
      attendee count survive, and the offer becomes the form's text. */
  function Merge(e: Event, f: EventForm): (r: Event)
    ensures r.id == e.id && r.attendees == e.attendees
    ensures r.title == f.title && r.description == f.description && r.date == f.date
    ensures r.location == f.location && r.price == f.price && r.category == f.category
    ensures r.image == f.image && r.coordinators == f.coordinators && r.offer == Some(f.offer)
  {
    e.(title := f.title, description := f.description, date := f.date, location := f.location,
       price := f.price, category := f.category, offer := Some(f.offer), image := f.image,
       coordinators := f.coordinators)
  }

  /** `{ ...data, id: '', attendees: 0 }`: a new record with a placeholder id and no attendees. */
  function NewEventFrom(f: EventForm): (r: Event)
    ensures r.id == "" && r.attendees == 0
    ensures Merge(r, f) == r
  {
    Event("", f.title, f.description, f.date, f.location, f.price, f.category, f.image,
          f.coordinators, Some(f.offer), 0)
  }

  /** `onSave`: an edit replaces the edited event by id; a creation appends under a fresh id. */
  function Save(s: AppContext.Store, editing: Option<Event>, f: EventForm, freshId: string): (r: AppContext.Store)
    ensures r.user == s.user && r.tickets == s.tickets
    ensures editing.Some? ==> r.events == AppContext.ReplaceById(s.events, Merge(editing.value, f))
    ensures editing.None? ==> r.events == s.events + [NewEventFrom(f).(id := freshId)]
  {
    match editing
    case Some(e) => AppContext.UpdateEvent(s, Merge(e, f))
    case None => AppContext.AddEvent(s, NewEventFrom(f), freshId)
  }

  /** Opening an event and saving without typing gives back the event, except that a missing
      offer is stored as ''. */
  lemma UntouchedEditRoundTrip(e: Event)
    ensures Merge(e, InitialForm(Some(e))) == e.(offer := Some(e.offer.GetOr("")))
    ensures Merge(e, InitialForm(Some(e))) == e <==> e.offer.Some?
  {
  }

  /** The edit form of an event can be submitted untouched exactly when the event is filled in,
      and whatever a submittable form saves is filled in. */
  lemma FormsAndFilledIn(e: Event, f: EventForm)
    ensures CanSubmit(InitialForm(Some(e))) <==> FilledIn(e)
    ensures !CanSubmit(InitialForm(None))
    ensures CanSubmit(f) ==> FilledIn(Merge(e, f)) && FilledIn(NewEventFrom(f))
  {
  }

  /** After saving an edit of a listed event, the list has the same length and the id now
      finds the merged record, with the old attendee count. */
  lemma SaveEditFindsMerged(s: AppContext.Store, e: Event, f: EventForm, freshId: string)
    requires AppContext.HasId(s.events, e.id)
    ensures var after := Save(s, Some(e), f, freshId).events;
            && |after| == |s.events|
            && AppContext.FindEvent(after, e.id) == Some(Merge(e, f))
            && AppContext.FindEvent(after, e.id).value.attendees == e.attendees
  {
    AppContext.FindAfterUpdate(s.events, Merge(e, f));
  }

  /** A created event is found under its fresh id (when that id was unused) with 0 attendees
      and the form's fields. */
  lemma SaveNewFindsCreated(s: AppContext.Store, f: EventForm, freshId: string)
    requires !AppContext.HasId(s.events, freshId)
    ensures var found := AppContext.FindEvent(Save(s, None, f, freshId).events, freshId);
            && found.Some? && found.value.attendees == 0 && found.value.id == freshId
            && found.value == Merge(NewEventFrom(f), f).(id := freshId)
  {
    var after := Save(s, None, f, freshId).events;
    assert AppContext.FirstWithId(after, freshId, |s.events|);
    AppContext.FindEventAt(after, freshId, |s.events|);
  }

  /** `handleDelete`: `deleteEvent` runs only when the confirmation is accepted. */
  function HandleDelete(s: AppContext.Store, id: string, confirmed: bool): (r: AppContext.Store)
    ensures !confirmed ==> r == s
    ensures confirmed ==> r == AppContext.DeleteEvent(s, id)
  {
    if confirmed then AppContext.DeleteEvent(s, id) else s
  }

  /** After the delete button, the id is gone exactly when the admin confirmed or it was never
      listed; tickets are never touched. */
  lemma DeleteGate(s: AppContext.Store, id: string, confirmed: bool)
    ensures (AppContext.FindEvent(HandleDelete(s, id, confirmed).events, id).None?
             <==> confirmed || !AppContext.HasId(s.events, id))
    ensures HandleDelete(s, id, confirmed).tickets == s.tickets
  {
    if confirmed {
      AppContext.DeleteIdempotent(s, id);
    }
  }
}
