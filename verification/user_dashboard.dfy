/** The event browser: the search box, the category select and the list they filter. */
module UserDashboard {
  import opened Types
  import Text
  import Seqs

  /** The category select's catch-all entry, and its initial value. */
  const All: string := "All"

  /** Case-insensitive search over title and description. */
  predicate MatchesSearch(e: Event, query: string) {
    || Text.Contains(Text.ToLower(e.title), Text.ToLower(query))
    || Text.Contains(Text.ToLower(e.description), Text.ToLower(query))
  }

  predicate MatchesCategory(e: Event, category: string) {
    category == All || e.category == category
  }

  predicate Shown(e: Event, query: string, category: string) {
    MatchesSearch(e, query) && MatchesCategory(e, category)
  }

  /** `filteredEvents`: the events passing both filters, in list order. */
  function FilterEvents(events: seq<Event>, query: string, category: string): (r: seq<Event>)
    ensures Seqs.IsSubsequence(r, events)
    ensures forall e :: e in r <==> e in events && Shown(e, query, category)
    ensures forall e :: multiset(r)[e] == if Shown(e, query, category) then multiset(events)[e] else 0
  {
    if |events| == 0 then []
    else
      var rest := FilterEvents(events[1..], query, category);
      assert events == [events[0]] + events[1..];
      assert multiset(events) == multiset([events[0]]) + multiset(events[1..]);
      if Shown(events[0], query, category) then
        assert ([events[0]] + rest)[1..] == rest;
        assert multiset([events[0]] + rest) == multiset([events[0]]) + multiset(rest);
        [events[0]] + rest
      else
        rest
  }

  /** With the initial filter state (empty query, 'All') every event is listed, in order. */
  lemma {:induction false} InitialFilterShowsAll(events: seq<Event>)
    ensures FilterEvents(events, "", All) == events
  {
    if |events| > 0 {
      assert Text.ToLower("") == "";
      Text.ContainsEmpty(Text.ToLower(events[0].title));
      InitialFilterShowsAll(events[1..]);
      assert events == [events[0]] + events[1..];
    }
  }

  /** The search is case-insensitive: two queries that lower-case alike list the same events. */
  lemma {:induction false} SearchIgnoresCase(events: seq<Event>, q1: string, q2: string, category: string)
    requires Text.ToLower(q1) == Text.ToLower(q2)
    ensures FilterEvents(events, q1, category) == FilterEvents(events, q2, category)
  {
    if |events| > 0 {
      SearchIgnoresCase(events[1..], q1, q2, category);
    }
  }

  /** In particular, typing the query in lower case changes nothing. */
  lemma LowerCaseQuery(events: seq<Event>, query: string, category: string)
    ensures FilterEvents(events, Text.ToLower(query), category) == FilterEvents(events, query, category)
  {
    Text.ToLowerIdempotent(query);
    SearchIgnoresCase(events, Text.ToLower(query), query, category);
  }

  /** For a fixed query, choosing a category keeps an order-preserving part of the 'All' list. */
  lemma {:induction false} CategoryNarrowsAll(events: seq<Event>, query: string, category: string)
    ensures Seqs.IsSubsequence(FilterEvents(events, query, category), FilterEvents(events, query, All))
  {
    if |events| > 0 {
      CategoryNarrowsAll(events[1..], query, category);
      var some := FilterEvents(events[1..], query, category);
      var all := FilterEvents(events[1..], query, All);
      if Shown(events[0], query, category) {
        assert ([events[0]] + some)[1..] == some;
        assert ([events[0]] + all)[1..] == all;
      } else if Shown(events[0], query, All) {
        assert ([events[0]] + all)[1..] == all;
      }
    }
  }

  function CategoryColumn(events: seq<Event>): (r: seq<string>)
    ensures |r| == |events|
    ensures forall i :: 0 <= i < |events| ==> r[i] == events[i].category
  {
    seq(|events|, i requires 0 <= i < |events| => events[i].category)
  }

  /** `categories`: 'All', then each event category once, in order of first appearance. */
  function Categories(events: seq<Event>): (r: seq<string>)
    ensures |r| >= 1 && r[0] == All
    ensures forall c :: c in r[1..] <==> exists i :: 0 <= i < |events| && events[i].category == c
    ensures forall i, j :: 1 <= i < j < |r| ==> r[i] != r[j]
    ensures forall i :: 1 <= i < |r| ==> r[i] in CategoryColumn(events)
    ensures forall i, j :: 1 <= i < j < |r| ==>
              Seqs.FirstIndex(CategoryColumn(events), r[i]) < Seqs.FirstIndex(CategoryColumn(events), r[j])
  {
    var column := CategoryColumn(events);
    var distinct := Seqs.Distinct(column);
    var r := [All] + distinct;
    assert r[1..] == distinct;
    forall c ensures c in distinct <==> exists i :: 0 <= i < |events| && events[i].category == c {
      if c in column {
        var i :| 0 <= i < |column| && column[i] == c;
        assert events[i].category == c;
      }
    }
    r
  }

  /** Every category offered in the select narrows the list to that category's events. */
  lemma SelectingACategory(events: seq<Event>, query: string, category: string)
    requires category != All
    ensures forall e :: e in FilterEvents(events, query, category) <==>
                          e in FilterEvents(events, query, All) && e.category == category
  {
  }
}
