# Event/RSVP store: a verified model

This project models the logic of a browser event-discovery and RSVP application. Administrators create, edit and delete events. Users browse and filter events, RSVP to them, and receive a ticket whose QR code carries the event id, the user id and a timestamp.

Everything lives in one in-memory state container. It holds an optional session user, a list of events and a list of tickets. The pages put pure decision logic around that container: the route guard, the role-based navigation, the RSVP amount rule, the search and category filter, the ticket/event join, and the admin statistics and edit form.

The model is functional. Each record of the source is an immutable datatype. The state is a `Store` value, and each transition is a pure function from one `Store` to the next.

The values the source draws from `Math.random`, `new Date().toISOString()` and `Date.now()` are parameters: `freshId`, `ticketId`, `purchaseDate` and `timestamp`. Nothing makes ids unique, so `updateEvent`, `deleteEvent` and the attendee increment act on every event whose id matches. The contracts say so.

Modules follow the source files:

- `Types` (src/types/index.ts) and `MockData` (src/data/mockData.ts)
- `AppContext` (src/context/AppContext.tsx): the store and its six operations, plus the `find`-by-id lookup the pages share
- `Routes` (src/App.tsx): the route table and `ProtectedRoute`
- `LoginPage`, `Navbar`, `EventDetails`, `UserDashboard`, `MyTickets` and `AdminDashboard`: one module per page
- `Invariants`: whole-application steps. Each step goes through the page that offers it, and only when the guard renders that page. This module also holds the facts that every reachable store keeps.
- Helpers: `Wrappers` (Option), `Text` (lower-casing, `includes`, `split(sep)[0]`) and `Seqs` (subsequence, first index, distinct elements)

Five behaviours of the code are easy to misread:

- `addEvent` keeps whatever `attendees` the caller passes. It is the admin page that passes 0.
- `rsvpEvent` stores `amount` as given. The "price wins, else donation, else 0" rule lives only in the event page.
- Ids are not unique. Deleting an id removes every event that carries it, not exactly one.
- The seeded events start with 120, 450 and 85 attendees and no tickets. So "attendees equals the number of tickets for the event" is not an invariant of this code. What holds is the increment: `Invariants.RsvpLedger`.
- A login never synthesises a user. The seeded accounts cover both roles, so the lookup by role always succeeds (`AppContext.LoginBindsSeededAccount`). The synthesised branch is still modelled (`AppContext.SessionUser`). Its random id may even be empty.

## Model

| member | source | states |
|---|---|---|
| `MockData.SeededUsersCoverBothRoles` | src/data/mockData.ts:3-6 | There is one seeded admin and one seeded user, so a lookup by either role finds an account. |
| `MockData.SeededEventsWellFormed` | src/data/mockData.ts:8-53 | The seeded ids '1', '2' and '3' are pairwise distinct. Each seeded event has exactly one coordinator. Prices and attendee counts are non-negative. Exactly one event (the third) is free. |
| `AppContext.FindEvent` | src/pages/user/EventDetails.tsx:16 | `events.find` by id: a result exists iff some event has the id, and it is the event at the first position with that id. |
| `AppContext.FindUserByRole` | src/context/AppContext.tsx:26 | `MOCK_USERS.find` by role: none iff no account has the role; otherwise the first account with it. |
| `AppContext.SessionUser` | src/context/AppContext.tsx:26-31 | The bound user always has the requested role. It is the first seeded account with that role when one exists. Otherwise it is synthesised from the fresh id, the email as typed, and the text before the email's first '@'. |
| `AppContext.Login` | src/context/AppContext.tsx:24-33 | After `login` the session user exists and has the requested role. It is one of the seeded accounts. Events and tickets are unchanged. |
| `AppContext.LoginBindsSeededAccount` | src/context/AppContext.tsx:26 | With the seeded accounts, an admin login binds 'Admin User' and a user login binds 'John Doe', whatever the email and fresh id. |
| `AppContext.Logout` | src/context/AppContext.tsx:35 | `logout` clears the session and leaves events and tickets unchanged. |
| `AppContext.AddEvent` | src/context/AppContext.tsx:37-39 | Exactly one event is appended at the end. It is the caller's record with only the id replaced by the fresh id, so its attendees are kept. Earlier events, the session and the tickets are unchanged. |
| `AppContext.ReplaceById` | src/context/AppContext.tsx:42 | Length, order and every id are preserved. Every event with the argument's id becomes the argument, the others stay. With no match the list is unchanged. |
| `AppContext.UpdateEvent` | src/context/AppContext.tsx:41-43 | `updateEvent` replaces every event carrying the record's id and keeps the session and the tickets. |
| `AppContext.UpdateIdempotent` | src/context/AppContext.tsx:41-43 | Applying the same update twice equals applying it once. |
| `AppContext.FindAfterUpdate` | src/context/AppContext.tsx:42 | After an update of a listed id, looking that id up yields exactly the record passed in (full replacement). |
| `AppContext.RemoveById` | src/context/AppContext.tsx:46 | The result holds exactly the events whose id differs, as an order-preserving subsequence. Its length drops by the number of matches. With no match it is the list unchanged. |
| `AppContext.DeleteEvent` | src/context/AppContext.tsx:45-47 | `deleteEvent` filters the event list and never touches the tickets or the session. |
| `AppContext.DeleteIdempotent` | src/context/AppContext.tsx:46 | Deleting twice equals deleting once, and afterwards the id finds nothing. |
| `AppContext.RemoveSplits` | src/context/AppContext.tsx:46 | Removing by id from a concatenation is removing from each part and concatenating the results. |
| `AppContext.AddThenDeleteRestores` | src/context/AppContext.tsx:38 | Deleting a just-added event by its fresh id restores the previous list, when that id was unused. |
| `AppContext.OneMore` | src/context/AppContext.tsx:64 | The updated event has exactly one more attendee, and resetting its attendee count gives back the original event. |
| `AppContext.BumpAttendees` | src/context/AppContext.tsx:63-65 | Every event with the id gains exactly one attendee and the rest are unchanged. With no match the list is unchanged. |
| `AppContext.RsvpEvent` | src/context/AppContext.tsx:49-66 | Without a session the store is unchanged. With one, exactly one ticket is appended: the given event id, the session user's id, the amount verbatim, status 'confirmed', and a QR payload with the same event and user ids. Every matching event gains one attendee. A dangling id still yields the ticket. |
| `AppContext.FindAfterBump` | src/context/AppContext.tsx:63-65 | After an RSVP, the event the id finds is the one found before, with one more attendee. |
| `Routes.AccessOf` | src/App.tsx:26-64 | Exactly '/', '/login' and '/register' are public. Every other path sits behind the guard with a required role, and only '/admin' requires the admin role. |
| `Routes.Visit` | src/App.tsx:26-64 | A visit either renders or redirects to '/login' or '/'. It redirects to '/login' iff the path is guarded and there is no session. It renders iff the path is public or the session's role is the path's role. |
| `Routes.ProtectedRoute` | src/App.tsx:12-19 | No session redirects to '/login' whatever the role. A session with a different role redirects to '/'. The page renders iff a session exists and either no role is required or the roles match. |
| `Routes.VisitRendersIff` | src/App.tsx:26-64 | '/', '/login' and '/register' always render. '/admin' renders iff the session is an admin. '/dashboard', '/event/:id' and '/my-tickets' render iff the session is a user. With no session, every guarded path redirects to '/login'. |
| `Routes.RolesAreSeparated` | src/App.tsx:31-64 | An admin session on a user page, or a user session on '/admin', is sent to '/'. |
| `LoginPage.SelectRole` | src/pages/Login.tsx:74-95 | The role buttons change only the selected role. |
| `LoginPage.UntouchedFormBlocked` | src/pages/Login.tsx:8-63 | The email and password inputs are `required` and start empty, so the form cannot be submitted until both are typed, whichever role is selected. |
| `LoginPage.TargetFor` | src/pages/Login.tsx:17 | The destination is '/admin' iff the role is 'admin', otherwise '/dashboard'. |
| `LoginPage.HandleSubmit` | src/pages/Login.tsx:14-18 | Submitting binds a session with the selected role and leaves events and tickets alone. It navigates to '/admin' iff the role is admin, and the destination always passes the route guard. |
| `LoginPage.DefaultSubmitGoesToDashboard` | src/pages/Login.tsx:10-17 | The role starts as 'user', so an untouched toggle lands on '/dashboard'. |
| `LoginPage.PasswordIgnored` | src/pages/Login.tsx:16 | The password has no effect on the outcome of a submit. |
| `Navbar.Links` | src/components/layout/Navbar.tsx:21-62 | The brand link to '/' comes first. With no session the other links are '/login' and '/register'. An admin gets only '/admin'. Any other session gets '/dashboard' and '/my-tickets'. |
| `Navbar.EveryLinkRenders` | src/components/layout/Navbar.tsx:28-62 | Every link the bar shows renders for that session: no shown link leads to a redirect. |
| `Navbar.LinksMatchSession` | src/components/layout/Navbar.tsx:28-62 | A session is never offered login or register. A visitor with no session is never offered a guarded page. An admin is never offered a user page, and a user is never offered '/admin'. |
| `Navbar.HandleLogout` | src/components/layout/Navbar.tsx:11-14 | Logging out clears the session and keeps events and tickets. It then goes to '/', which renders without a session. |
| `EventDetails.RsvpAmount` | src/pages/user/EventDetails.tsx:22 | A positive price is the amount. Otherwise the amount is the parsed donation, or 0 when the input is empty or not a number. |
| `EventDetails.AmountLaws` | src/pages/user/EventDetails.tsx:22 | For a priced event the typed donation makes no difference. The amount is non-negative for a non-negative price and donation. |
| `EventDetails.Page` | src/pages/user/EventDetails.tsx:16-27 | 'Event not found' shows iff no event has the route id. Otherwise the page shows the first event with that id. The confirmation view shows iff the flag is set. The donation field (line 119) appears iff the price is 0. |
| `EventDetails.BoxEntry` | src/pages/user/EventDetails.tsx:119-134 | The donation box exists only for a free event. For any other price the submitted donation is the initial '' of line 13, which parses to none. For a free event it is what was typed. |
| `EventDetails.HandleRsvp` | src/pages/user/EventDetails.tsx:20-25 | Without an event for the route id, nothing happens and no confirmation shows. Otherwise `rsvpEvent` runs once with that event's own id and the amount from its price and the box's entry, and the confirmation flag is set. |
| `EventDetails.SubmitIssuesTicket` | src/pages/user/EventDetails.tsx:20-25 | On a page the guard renders, a submit for a listed event issues exactly one ticket to the session user. The ticket carries that event's own id and the computed amount. The page then confirms the same event with one more attendee. |
| `EventDetails.TicketAmount` | src/pages/user/EventDetails.tsx:13-23 | A priced event's ticket records the price, not the donation. A free event's ticket records the donation, or 0 without one. An event with a negative price shows no box, so its ticket records 0 whatever was typed. |
| `UserDashboard.FilterEvents` | src/pages/user/UserDashboard.tsx:16-21 | The list is an order-preserving subsequence of the events. An event is in it iff its lower-cased title or description contains the lower-cased query, and the category is 'All' or equal to the event's. A shown event appears as many times as in the event list, and a hidden one not at all. |
| `UserDashboard.InitialFilterShowsAll` | src/pages/user/UserDashboard.tsx:11-21 | With the initial state (empty query, 'All'), the filtered list is the whole event list. |
| `UserDashboard.SearchIgnoresCase` | src/pages/user/UserDashboard.tsx:17-18 | Two queries that lower-case to the same text list exactly the same events: the search is case-insensitive. |
| `UserDashboard.LowerCaseQuery` | src/pages/user/UserDashboard.tsx:17-18 | Typing the query already in lower case lists the same events as typing it in any case. |
| `UserDashboard.CategoryNarrowsAll` | src/pages/user/UserDashboard.tsx:19 | For a fixed query, a category's results are an order-preserving subsequence of the 'All' results. |
| `UserDashboard.SelectingACategory` | src/pages/user/UserDashboard.tsx:19 | A specific category keeps exactly the 'All' results with that category. |
| `UserDashboard.Categories` | src/pages/user/UserDashboard.tsx:14 | 'All' comes first. It is followed by each event category exactly once, ordered by first appearance in the event list. |
| `Seqs.Distinct` | src/pages/user/UserDashboard.tsx:14 | `Array.from(new Set(...))`: the same elements, none repeated, in first-occurrence order. |
| `Text.Contains` | src/pages/user/UserDashboard.tsx:17-18 | `includes` is true iff the needle occurs at some position; the empty needle occurs everywhere. |
| `Text.ToLower` | src/pages/user/UserDashboard.tsx:17-18 | Lower-casing keeps the length. Each upper-case ASCII letter becomes its lower-case partner, and every other character is kept, so no upper-case letter is left. |
| `Text.BeforeFirst` | src/context/AppContext.tsx:28 | `split('@')[0]` is a prefix without '@'. It is followed by '@' in the input, unless it is the whole input. |
| `MyTickets.KeptTickets` | src/pages/user/MyTickets.tsx:23-25 | The tickets that get a card form an order-preserving subsequence of the stored tickets. A ticket is in it iff some event has its event id, and it appears there as many times as it is stored. |
| `MyTickets.Join` | src/pages/user/MyTickets.tsx:23-25 | Each card pairs a ticket with the first event of its id. The cards' tickets are exactly the kept tickets, in ticket order and with every repetition, so a stored ticket gets one card per occurrence iff some event has its id. |
| `MyTickets.Page` | src/pages/user/MyTickets.tsx:10-23 | The empty state shows iff there are no tickets, whatever the events. Otherwise the grid is the join of all stored tickets. |
| `MyTickets.PageIgnoresSessionUser` | src/pages/user/MyTickets.tsx:8 | The page is the same for any session user: tickets are not filtered by owner. |
| `MyTickets.AllDanglingShowsEmptyGrid` | src/pages/user/MyTickets.tsx:10-25 | When tickets exist but every one dangles, the page shows an empty grid rather than the empty state. |
| `AdminDashboard.StatsOf` | src/pages/admin/AdminDashboard.tsx:46 | 'Total Events' is the length of the event list. |
| `AdminDashboard.TotalAttendees` | src/pages/admin/AdminDashboard.tsx:58 | 'Total Attendees' is the sum of attendees. It is non-negative when every count is. |
| `AdminDashboard.Revenue` | src/pages/admin/AdminDashboard.tsx:71 | 'Revenue (Est.)' is the sum of price × attendees. It is non-negative when every price and count is. |
| `AdminDashboard.StatsAfterAdd` | src/pages/admin/AdminDashboard.tsx:46-71 | Adding an event raises the event count by one, the attendee total by its attendees, and the revenue by its price × attendees. |
| `AdminDashboard.AttendeesAfterBump` | src/pages/admin/AdminDashboard.tsx:58 | An RSVP raises Total Attendees by the number of events with the RSVP'd id. |
| `AdminDashboard.RevenueAfterBump` | src/pages/admin/AdminDashboard.tsx:71 | An RSVP raises the revenue estimate by the summed price of the events with the RSVP'd id. |
| `AdminDashboard.InitialForm` | src/pages/admin/AdminDashboard.tsx:164-174 | The create form starts blank, with price 0 and exactly one empty coordinator. The edit form starts from the event's fields. A missing offer becomes '', and the coordinators are the event's own list. |
| `AdminDashboard.ApplyEdit` | src/pages/admin/AdminDashboard.tsx:195-288 | Typing into an input sets that input's field to the typed value and leaves every other field as it was. The coordinator inputs set the name, phone or email of the first coordinator only. Every edit keeps the number of coordinators. |
| `AdminDashboard.LastEditWins` | src/pages/admin/AdminDashboard.tsx:195-288 | Of two values typed into the same input, the form keeps the later one. |
| `AdminDashboard.EditsCommute` | src/pages/admin/AdminDashboard.tsx:195-288 | Typing into two different inputs gives the same form in either order. |
| `AdminDashboard.Merge` | src/pages/admin/AdminDashboard.tsx:150 | Saving an edit keeps the event's id and attendees and overwrites every form field. The offer becomes the form's text. |
| `AdminDashboard.NewEventFrom` | src/pages/admin/AdminDashboard.tsx:152 | A created event has the placeholder id '' and 0 attendees. |
| `AdminDashboard.Save` | src/pages/admin/AdminDashboard.tsx:148-155 | Saving an edit replaces the edited id with the merged record. Saving a creation appends the new record under the fresh id. The session and tickets are untouched either way. |
| `AdminDashboard.FormsAndFilledIn` | src/pages/admin/AdminDashboard.tsx:194-288 | The `required` inputs: an event's edit form can be submitted untouched iff the event has every required field filled. The blank create form cannot be submitted. Whatever a submittable form saves, by edit or by creation, has every required field filled. |
| `AdminDashboard.UntouchedEditRoundTrip` | src/pages/admin/AdminDashboard.tsx:150-174 | Opening an event and saving without typing returns the event, except a missing offer becomes ''. The event comes back unchanged iff it had an offer. |
| `AdminDashboard.SaveEditFindsMerged` | src/pages/admin/AdminDashboard.tsx:148-155 | After an edit is saved, the list keeps its length. The id finds the merged record, with its old attendee count. |
| `AdminDashboard.SaveNewFindsCreated` | src/pages/admin/AdminDashboard.tsx:152 | A created event is found under its fresh id (when unused), with 0 attendees and the form's fields. |
| `AdminDashboard.HandleDelete` | src/pages/admin/AdminDashboard.tsx:14-18 | A declined confirmation changes nothing. An accepted one runs `deleteEvent`. |
| `AdminDashboard.DeleteGate` | src/pages/admin/AdminDashboard.tsx:14-18 | After the delete button, the id is gone iff the admin confirmed or it was never listed. Tickets are untouched. |
| `Invariants.Step` | src/App.tsx:26-64 | One user action through the page that offers it. Tickets are only ever appended. Only signing in or out changes the session. Only a save, delete or RSVP changes the events. A ticket is added only by an RSVP on an event page the guard renders. |
| `Invariants.RunKeepsCoordinators` | src/pages/admin/AdminDashboard.tsx:255-288 | Every step keeps a coordinator on every event, so the edit form's first-coordinator inputs always have a coordinator to read. |
| `Invariants.ReachableHasCoordinators` | src/pages/admin/AdminDashboard.tsx:173 | In every reachable store, every event has a coordinator, and so has the edit form opened on it. |
| `Invariants.AdminActionsNeedAdmin` | src/App.tsx:31-38 | Saving or deleting through the admin page changes nothing unless the session is an admin. |
| `Invariants.IncompleteFormsChangeNothing` | src/pages/Login.tsx:46-63 | A sign-in or event form with an empty `required` input is never submitted, so the step changes nothing. |
| `Invariants.ReachableFilledIn` | src/pages/admin/AdminDashboard.tsx:194-288 | Every reachable event has all the fields the event form requires, so its edit form can be saved untouched. |
| `Invariants.GuardedRsvpIssuesTicket` | src/App.tsx:49-56 | An RSVP on a page the guard renders always adds a ticket: the store's silent no-session case never arises from the page. |
| `Invariants.RsvpLedger` | src/context/AppContext.tsx:49-65 | With a session, an RSVP for an id held by exactly one event raises the attendee total and the ticket count by one each. For an id no event holds, the events stay unchanged and the ticket still dangles. |
| `Invariants.MyTicketsAreTheViewers` | src/pages/user/MyTickets.tsx:8-23 | In every reachable store, '/my-tickets' renders only for the seeded user, who holds every ticket. Listing all tickets therefore lists exactly the viewer's. |

## Left out

- JSX markup, Tailwind classes, `Button` and `cn`: styling with no behaviour.
- `formatCurrency`, date-fns `format` and `new Date(...)` parsing: display formatting in libraries that are not part of this model.
- `Math.random` ids and the two clock readings: they are parameters (`freshId`, `ticketId`, `purchaseDate`, `timestamp`), and no uniqueness is assumed.
- The text of `qrCodeData` (`JSON.stringify`) and the QR rendering: the payload is the record `QrPayload(eventId, userId, timestamp)`.
- JavaScript numbers: prices, amounts and counts are unbounded integers. Fractional prices, NaN and `Number(...)` parsing are out. The donation box is given already parsed (`None` for empty or non-numeric input).
- Browser form validation beyond `required` is out: the `type="email"` format check on the login email (Login.tsx:45) and the `datetime-local` format of the event date (AdminDashboard.tsx:211). `Invariants.Step` checks only that the required inputs are non-empty (`LoginPage.CanSubmit`, `AdminDashboard.CanSubmit`). The price input's `required` always holds, because the input is bound to a number.
- EventDetails.RsvpAmount: the browser's `min="0"` check on the donation input is not modelled, so a negative donation passes through.
- Text.ToLower: only the ASCII letters are lower-cased. JavaScript's `toLowerCase` also folds other Unicode letters.
- React state, closures and rendering: the two separate setters in `rsvpEvent`, stale closures, and re-render timing are out. react-router navigation is a returned `Path`. The browser `confirm()` is a boolean input.
- The shared coordinator objects in the edit form are out. Its handlers mutate `coordinators[0]` in place (AdminDashboard.tsx:260-262, 272-274, 283-285). The model edits a copy, with value semantics.
- A render crash is out: the edit modal throws on an event with no coordinators. `Invariants.Step` treats such a save as saving nothing, and `Invariants.ReachableHasCoordinators` shows that this case cannot arise.
- The Landing page and `lib/utils` are not part of this model.
- The `useApp` provider check (AppContext.tsx:85-91) is React wiring.
