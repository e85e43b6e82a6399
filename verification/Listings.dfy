/**
  The two keyset lists: a team's events, oldest or newest first by scope, and its
  transactions, newest first. Rows stand as their sort keys.
 */
module Listings {
  import opened Wrappers
  import opened SeriesDates
  import opened Keyset
  import EventTables

  // ----- The orders -----

  datatype EventKey = EventKey(date: Day, id: int)
  datatype TxKey = TxKey(date: Day, created: int, id: int)

  /** (date, id) < (date, id), compared lexicographically. */
  predicate EventBefore(a: EventKey, b: EventKey) {
    a.date < b.date || (a.date == b.date && a.id < b.id)
  }

  predicate EventAfter(a: EventKey, b: EventKey) {
    EventBefore(b, a)
  }

  /** ORDER BY date DESC, created_at DESC, id DESC. */
  predicate TxAfter(a: TxKey, b: TxKey) {
    a.date > b.date || (a.date == b.date && (a.created > b.created || (a.created == b.created && a.id > b.id)))
  }

  lemma OrdersAreStrict()
    ensures StrictTotal(EventBefore) && StrictTotal(EventAfter) && StrictTotal(TxAfter)
  {
  }

  // ----- Scopes -----

  datatype Scope = Past | Upcoming | All

  /** An event that has started but not ended is not past: what counts is COALESCE(end_date, date). */
  predicate InScope(e: EventTables.Event, scope: Scope, today: Day) {
    match scope
    case Past => e.endDate.GetOr(e.date) < today
    case Upcoming => e.endDate.GetOr(e.date) >= today
    case All => true
  }

  function Scoped(st: EventTables.Store, team: int, scope: Scope, today: Day): set<EventKey> {
    set id | id in st.events && EventTables.Targeted(st, id, team) && InScope(st.events[id], scope, today)
      :: EventKey(st.events[id].date, id)
  }

  /** Past events newest first, the others oldest first. */
  function OrderOf(scope: Scope): (EventKey, EventKey) -> bool {
    if scope == Past then EventAfter else EventBefore
  }

  lemma OrderIsStrict(scope: Scope)
    ensures StrictTotal(OrderOf(scope))
  {
  }

  /** The repository's statements: the rows of the scope beyond the cursor, in order, at most n of them. */
  ghost function EventQuery(st: EventTables.Store, team: int, scope: Scope, today: Day, cursor: Option<EventKey>,
                            n: nat): seq<EventKey> {
    OrderIsStrict(scope);
    Query(Scoped(st, team, scope, today), OrderOf(scope), cursor, n)
  }

  ghost function TxQuery(rows: set<TxKey>, cursor: Option<TxKey>, n: nat): seq<TxKey> {
    OrdersAreStrict();
    Query(rows, TxAfter, cursor, n)
  }

  ghost function TxWalk(rows: set<TxKey>, limit: nat): seq<TxKey>
    requires limit >= 1
  {
    OrdersAreStrict();
    Walk(rows, TxAfter, None, limit)
  }

  ghost function EventWalk(st: EventTables.Store, team: int, scope: Scope, today: Day, limit: nat): seq<EventKey>
    requires limit >= 1
  {
    OrderIsStrict(scope);
    Walk(Scoped(st, team, scope, today), OrderOf(scope), None, limit)
  }

  /** Paging through a scope shows exactly its events, each once and in order, whatever the page size. */
  lemma EventWalkIsComplete(st: EventTables.Store, team: int, scope: Scope, today: Day, limit: nat)
    requires limit >= 1
    ensures Lists(EventWalk(st, team, scope, today, limit), Scoped(st, team, scope, today), OrderOf(scope))
  {
    OrderIsStrict(scope);
    WalkIsTheListing(Scoped(st, team, scope, today), OrderOf(scope), limit);
  }

  /** The team's event has this key. */
  ghost predicate HasKey(st: EventTables.Store, team: int, k: EventKey) {
    k.id in st.events && (k.id, team) in st.targets && st.events[k.id].date == k.date
  }

  /** The last day: the end date of a span, else the date. */
  ghost predicate LastDay(e: EventTables.Event, day: Day) {
    if e.endDate.Some? then day == e.endDate.value else day == e.date
  }

  /**
    Which events the lists show: those the team is a target of, past once their last day is over. An event on
    its last day is upcoming.
   */
  lemma WalksShow(st: EventTables.Store, team: int, today: Day, limit: nat, k: EventKey)
    requires limit >= 1
    ensures k in EventWalk(st, team, Past, today, limit)
       <==> HasKey(st, team, k) && exists day :: LastDay(st.events[k.id], day) && day < today
    ensures k in EventWalk(st, team, Upcoming, today, limit)
       <==> HasKey(st, team, k) && exists day :: LastDay(st.events[k.id], day) && today <= day
    ensures k in EventWalk(st, team, All, today, limit) <==> HasKey(st, team, k)
  {
    EventWalkIsComplete(st, team, Past, today, limit);
    EventWalkIsComplete(st, team, Upcoming, today, limit);
    EventWalkIsComplete(st, team, All, today, limit);
    assert k in EventWalk(st, team, Past, today, limit) <==> k in Elements(EventWalk(st, team, Past, today, limit));
    var later, all := EventWalk(st, team, Upcoming, today, limit), EventWalk(st, team, All, today, limit);
    assert k in later <==> k in Elements(later);
    assert k in all <==> k in Elements(all);
    if k.id in st.events {
      assert LastDay(st.events[k.id], st.events[k.id].endDate.GetOr(st.events[k.id].date));
    }
  }

  /** Past events are shown newest first, the others oldest first, ties by id. */
  lemma WalkOrder(st: EventTables.Store, team: int, scope: Scope, today: Day, limit: nat, i: nat, j: nat)
    requires limit >= 1 && i < j < |EventWalk(st, team, scope, today, limit)|
    ensures var a, b := EventWalk(st, team, scope, today, limit)[i], EventWalk(st, team, scope, today, limit)[j];
      if scope == Past then a.date > b.date || (a.date == b.date && a.id > b.id)
      else a.date < b.date || (a.date == b.date && a.id < b.id)
  {
    EventWalkIsComplete(st, team, scope, today, limit);
    OrderIsStrict(scope);
    SortedAt(EventWalk(st, team, scope, today, limit), OrderOf(scope), i, j);
  }

  lemma ScopesPartition(st: EventTables.Store, team: int, today: Day)
    ensures Scoped(st, team, Past, today) + Scoped(st, team, Upcoming, today) == Scoped(st, team, All, today)
    ensures Scoped(st, team, Past, today) !! Scoped(st, team, Upcoming, today)
  {
  }

  /** For one fixed today, every event of All is met in exactly one of Past and Upcoming. */
  lemma WalksPartition(st: EventTables.Store, team: int, today: Day, past: nat, upcoming: nat, all: nat, k: EventKey)
    requires past >= 1 && upcoming >= 1 && all >= 1
    ensures k in EventWalk(st, team, All, today, all)
       <==> (k in EventWalk(st, team, Past, today, past) || k in EventWalk(st, team, Upcoming, today, upcoming))
    ensures !(k in EventWalk(st, team, Past, today, past) && k in EventWalk(st, team, Upcoming, today, upcoming))
  {
    EventWalkIsComplete(st, team, Past, today, past);
    EventWalkIsComplete(st, team, Upcoming, today, upcoming);
    EventWalkIsComplete(st, team, All, today, all);
    ScopesPartition(st, team, today);
    assert k in EventWalk(st, team, All, today, all) <==> k in Elements(EventWalk(st, team, All, today, all));
    assert k in EventWalk(st, team, Past, today, past) <==> k in Elements(EventWalk(st, team, Past, today, past));
    var later := EventWalk(st, team, Upcoming, today, upcoming);
    assert k in later <==> k in Elements(later);
  }

  function Reverse<K>(s: seq<K>): (r: seq<K>)
    ensures |r| == |s| && forall i :: 0 <= i < |s| ==> r[i] == s[|s| - 1 - i]
  {
    if s == [] then [] else Reverse(s[1..]) + [s[0]]
  }

  lemma ReverseElements<K>(s: seq<K>)
    ensures Elements(Reverse(s)) == Elements(s)
  {
    forall x ensures x in Reverse(s) <==> x in s {
      if x in s {
        var i :| 0 <= i < |s| && s[i] == x;
        assert Reverse(s)[|s| - 1 - i] == x;
      }
    }
  }

  ghost predicate AllBefore(past: set<EventKey>, upcoming: set<EventKey>) {
    forall p, u :: p in past && u in upcoming ==> EventBefore(p, u)
  }

  lemma JoinedElements<K>(s: seq<K>, t: seq<K>)
    ensures Elements(s + t) == Elements(s) + Elements(t)
  {
  }

  lemma JoinedIsSorted(past: seq<EventKey>, upcoming: seq<EventKey>)
    requires Sorted(past, EventAfter) && Sorted(upcoming, EventBefore)
    requires forall p, u :: p in Elements(past) && u in Elements(upcoming) ==> EventBefore(p, u)
    ensures Sorted(Reverse(past) + upcoming, EventBefore)
  {
  }

  lemma JoinedIsUnsorted(past: seq<EventKey>, upcoming: seq<EventKey>, p: EventKey, u: EventKey)
    requires p in past && u in upcoming && !EventBefore(p, u)
    ensures !Sorted(Reverse(past) + upcoming, EventBefore)
  {
    var n, joined := |past|, Reverse(past) + upcoming;
    var i :| 0 <= i < n && past[i] == p;
    var j :| 0 <= j < |upcoming| && upcoming[j] == u;
    assert joined[n - 1 - i] == p && joined[n + j] == u;
  }

  /**
    The full list reads as the past list backwards followed by the upcoming one exactly when
    no ongoing event began before a past one.
   */
  lemma AllIsPastThenUpcoming(st: EventTables.Store, team: int, today: Day, limit: nat)
    requires limit >= 1
    ensures EventWalk(st, team, All, today, limit)
         == Reverse(EventWalk(st, team, Past, today, limit)) + EventWalk(st, team, Upcoming, today, limit)
       <==> AllBefore(Scoped(st, team, Past, today), Scoped(st, team, Upcoming, today))
  {
    var past, upcoming := EventWalk(st, team, Past, today, limit), EventWalk(st, team, Upcoming, today, limit);
    var all, rows := EventWalk(st, team, All, today, limit), Scoped(st, team, All, today);
    EventWalkIsComplete(st, team, Past, today, limit);
    EventWalkIsComplete(st, team, Upcoming, today, limit);
    EventWalkIsComplete(st, team, All, today, limit);
    ScopesPartition(st, team, today);
    ReverseElements(past);
    var joined := Reverse(past) + upcoming;
    JoinedElements(Reverse(past), upcoming);
    OrdersAreStrict();
    if forall p, u :: p in Elements(past) && u in Elements(upcoming) ==> EventBefore(p, u) {
      JoinedIsSorted(past, upcoming);
      ListingIsUnique(all, joined, rows, EventBefore);
    } else {
      var p, u :| p in Elements(past) && u in Elements(upcoming) && !EventBefore(p, u);
      JoinedIsUnsorted(past, upcoming, p, u);
    }
  }

  // ----- The pages the services return -----

  /** What a page means to the caller who follows its cursor. */
  ghost predicate IsPageOf<K(!new)>(page: seq<K>, next: Option<K>, rows: set<K>, less: (K, K) -> bool,
                                    cursor: Option<K>, limit: nat) {
    && Sorted(page, less) && |page| <= limit
    && (forall x :: x in page ==> x in Beyond(rows, less, cursor))
    && (next.None? ==> Elements(page) == Beyond(rows, less, cursor))
    && (next.Some? ==> |page| == limit && limit > 0 && next.value == page[limit - 1] && Beyond(rows, less, next) != {})
    && (next.Some? ==> Beyond(rows, less, cursor) == Elements(page) + Beyond(rows, less, next))
  }

  lemma TrimmedPage<K(!new)>(rows: set<K>, less: (K, K) -> bool, cursor: Option<K>, limit: nat)
    requires StrictTotal(less) && limit >= 1
    ensures var page := PageAt(rows, less, cursor, limit);
      IsPageOf(page.rows, page.next, rows, less, cursor, limit)
  {
    var all := Listing(Beyond(rows, less, cursor), less);
    var page := PageAt(rows, less, cursor, limit);
    PageOfListing(rows, less, cursor, limit);
    PageFacts(rows, less, cursor, limit);
    forall x | x in page.rows ensures x in Beyond(rows, less, cursor) {
      var i :| 0 <= i < |page.rows| && page.rows[i] == x;
      assert all[i] in Elements(all);
    }
    if page.next.Some? {
      assert all[limit] in Elements(all) && all[limit - 1] in Elements(all);
      SortedAt(all, less, limit - 1, limit);
      assert all[limit] in Beyond(rows, less, page.next);
    }
  }

  /** events.Service.ListEvents: `fetched` is what the repository returned for limit + 1. */
  method ListEvents(ghost st: EventTables.Store, ghost team: int, scope: Scope, ghost today: Day,
                    cursor: Option<EventKey>,
                    limit: nat, fetched: seq<EventKey>)
    returns (page: seq<EventKey>, next: Option<EventKey>, ids: seq<int>)
    requires limit >= 1
    requires fetched == EventQuery(st, team, scope, today, cursor, limit + 1)
    ensures IsPageOf(page, next, Scoped(st, team, scope, today), OrderOf(scope), cursor, limit)
    ensures |ids| == |page| && forall i :: 0 <= i < |page| ==>
      ids[i] in st.events && EventTables.Targeted(st, ids[i], team) && st.events[ids[i]].date == page[i].date
  {
    OrderIsStrict(scope);
    TrimmedPage(Scoped(st, team, scope, today), OrderOf(scope), cursor, limit);
    page, next := fetched, None;
    if |fetched| > limit {
      page := fetched[..limit];
      next := Some(page[|page| - 1]);
    }
    ids := [];
    for i := 0 to |page|
      invariant |ids| == i && forall j :: 0 <= j < i ==> ids[j] == page[j].id
    {
      ids := ids + [page[i].id];
    }
    forall i | 0 <= i < |page| ensures page[i] in Scoped(st, team, scope, today) {
      assert page[i] in page && page[i] in Beyond(Scoped(st, team, scope, today), OrderOf(scope), cursor);
    }
  }

  /** finances.Service.ListTransactions, over the keys of the team's transactions. */
  method ListTransactions(ghost rows: set<TxKey>, cursor: Option<TxKey>, limit: nat, fetched: seq<TxKey>)
    returns (page: seq<TxKey>, next: Option<TxKey>)
    requires limit >= 1
    requires fetched == TxQuery(rows, cursor, limit + 1)
    ensures IsPageOf(page, next, rows, TxAfter, cursor, limit)
  {
    OrdersAreStrict();
    TrimmedPage(rows, TxAfter, cursor, limit);
    page, next := fetched, None;
    if |fetched| > limit {
      page := fetched[..limit];
      next := Some(page[|page| - 1]);
    }
  }

  /** Paging through the transactions shows the team's whole history, newest first, each once. */
  lemma TransactionWalkIsComplete(rows: set<TxKey>, limit: nat)
    requires limit >= 1
    ensures Lists(TxWalk(rows, limit), rows, TxAfter)
  {
    OrdersAreStrict();
    WalkIsTheListing(rows, TxAfter, limit);
  }

  /** Newest date first, within a date the one recorded last, and ties by falling id. */
  lemma TransactionOrder(rows: set<TxKey>, limit: nat, i: nat, j: nat)
    requires limit >= 1 && i < j < |TxWalk(rows, limit)|
    ensures var a, b := TxWalk(rows, limit)[i], TxWalk(rows, limit)[j];
      a.date >= b.date && (a.date == b.date ==> a.created >= b.created && (a.created == b.created ==> a.id > b.id))
  {
    TransactionWalkIsComplete(rows, limit);
    OrdersAreStrict();
    SortedAt(TxWalk(rows, limit), TxAfter, i, j);
  }
}
