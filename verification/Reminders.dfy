/**
  Sending one event reminder, as any number of attempts at once: ticks, retries of a tick,
  replicas, and the same member reached through several targeted teams. Each attempt inserts
  the marker and enqueues the push in one transaction and may die before it commits. Events
  and users may be deleted meanwhile, which takes their markers along.
 */
module Reminders {
  type EventId = int
  type TeamId = int
  type UserId = int
  type SubscriptionId = int
  type ProcId = int

  /** The primary key of event_reminders_sent: the team is not part of it. */
  datatype Pair = Pair(event: EventId, user: UserId)

  datatype Push = Push(pair: Pair, subscription: SubscriptionId)

  /** Begun: not yet marked. Marked: its marker is inserted but not committed. Enqueued: so is its push. */
  datatype Pc = Begun | Marked | Enqueued

  datatype Attempt = Attempt(push: Push, team: TeamId, pc: Pc)

  /** sent and pushes are what is committed; the ids of deleted events and users are never used again. */
  datatype State = State(sent: set<Pair>, pushes: seq<Push>, deletedEvents: set<EventId>, deletedUsers: set<UserId>,
                         attempts: map<ProcId, Attempt>)

  datatype Action =
    | Begin(proc: ProcId, team: TeamId, push: Push)
    | Mark(proc: ProcId)
    | Enqueue(proc: ProcId)
    | Commit(proc: ProcId)
    | Abort(proc: ProcId)
    | DeleteEvent(event: EventId)
    | DeleteUser(user: UserId)

  /** Neither end of the marker's foreign keys has been deleted. */
  predicate Live(s: State, pair: Pair) {
    pair.event !in s.deletedEvents && pair.user !in s.deletedUsers
  }

  predicate Open(s: State, p: ProcId) {
    p in s.attempts && s.attempts[p].pc != Begun
  }

  /**
    Another transaction has inserted the same marker and is still open: the unique index makes this one wait for
    it.
   */
  predicate Blocked(s: State, p: ProcId)
    requires p in s.attempts
  {
    exists q :: && q in s.attempts && q != p && s.attempts[q].pc != Begun
                && s.attempts[q].push.pair == s.attempts[p].push.pair
  }

  ghost predicate Enabled(s: State, a: Action) {
    match a
    case Begin(p, _, _) => p !in s.attempts
    case Mark(p) => p in s.attempts && s.attempts[p].pc == Begun && !Blocked(s, p)
    case Enqueue(p) => p in s.attempts && s.attempts[p].pc == Marked
    case Commit(p) => p in s.attempts && s.attempts[p].pc == Enqueued
    case Abort(p) => p in s.attempts
    // an open marker locks the rows it refers to against deletion
    case DeleteEvent(e) => forall p :: Open(s, p) ==> s.attempts[p].push.pair.event != e
    case DeleteUser(u) => forall p :: Open(s, p) ==> s.attempts[p].push.pair.user != u
  }

  ghost function Apply(s: State, a: Action): State
    requires Enabled(s, a)
  {
    match a
    case Begin(p, team, push) => s.(attempts := s.attempts[p := Attempt(push, team, Begun)])
    case Mark(p) =>
      // ON CONFLICT DO NOTHING affects no row, a deleted event or user fails the foreign key: the attempt is over
      if s.attempts[p].push.pair in s.sent || !Live(s, s.attempts[p].push.pair) then s.(attempts := s.attempts - {p})
      else s.(attempts := s.attempts[p := s.attempts[p].(pc := Marked)])
    case Enqueue(p) => s.(attempts := s.attempts[p := s.attempts[p].(pc := Enqueued)])
    case Commit(p) =>
      var push := s.attempts[p].push;
      s.(sent := s.sent + {push.pair}, pushes := s.pushes + [push], attempts := s.attempts - {p})
    case Abort(p) => s.(attempts := s.attempts - {p})
    // ON DELETE CASCADE
    case DeleteEvent(e) =>
      s.(sent := (set pair | pair in s.sent && pair.event != e), deletedEvents := s.deletedEvents + {e})
    case DeleteUser(u) =>
      s.(sent := (set pair | pair in s.sent && pair.user != u), deletedUsers := s.deletedUsers + {u})
  }

  ghost predicate Legal(s: State, run: seq<Action>)
    decreases |run|
  {
    run == [] || (Enabled(s, run[0]) && Legal(Apply(s, run[0]), run[1..]))
  }

  ghost function Exec(s: State, run: seq<Action>): State
    requires Legal(s, run)
    decreases |run|
  {
    if run == [] then s else Exec(Apply(s, run[0]), run[1..])
  }

  predicate Pushed(pushes: seq<Push>, pair: Pair) {
    exists i :: 0 <= i < |pushes| && pushes[i].pair == pair
  }

  /** No pair has two pushes; a live pair has one exactly when it is marked, and only live pairs are marked. */
  ghost predicate OnePushEach(s: State) {
    && (forall i, j :: 0 <= i < j < |s.pushes| ==> s.pushes[i].pair != s.pushes[j].pair)
    && (forall pair :: pair in s.sent ==> Live(s, pair))
    && (forall pair :: Live(s, pair) ==> (pair in s.sent <==> Pushed(s.pushes, pair)))
  }

  ghost predicate Inv(s: State) {
    && OnePushEach(s)
    && (forall p :: Open(s, p) ==> s.attempts[p].push.pair !in s.sent && Live(s, s.attempts[p].push.pair))
    && (forall p, q :: Open(s, p) && Open(s, q) && p != q ==> s.attempts[p].push.pair != s.attempts[q].push.pair)
  }

  lemma PushedOneMore(pushes: seq<Push>, push: Push, pair: Pair)
    ensures Pushed(pushes + [push], pair) <==> Pushed(pushes, pair) || pair == push.pair
  {
    var after := pushes + [push];
    assert after[|pushes|] == push;
    if i :| 0 <= i < |pushes| && pushes[i].pair == pair {
      assert after[i].pair == pair;
    }
  }

  /** A first push for a live pair, with its marker. */
  lemma PushAdded(s: State, push: Push)
    requires OnePushEach(s) && push.pair !in s.sent && Live(s, push.pair)
    ensures OnePushEach(s.(sent := s.sent + {push.pair}, pushes := s.pushes + [push]))
  {
    assert !Pushed(s.pushes, push.pair);
    forall pair ensures Pushed(s.pushes + [push], pair) <==> Pushed(s.pushes, pair) || pair == push.pair {
      PushedOneMore(s.pushes, push, pair);
    }
  }

  lemma StepKeepsInv(s: State, a: Action)
    requires Inv(s) && Enabled(s, a)
    ensures Inv(Apply(s, a))
  {
    if a.Commit? {
      assert Open(s, a.proc);
      PushAdded(s, s.attempts[a.proc].push);
    }
    var after := Apply(s, a);
    forall p | Open(after, p) ensures after.attempts[p].push == s.attempts[p].push && (Open(s, p) || a == Mark(p)) {
    }
  }

  lemma {:induction false} RunKeepsInv(s: State, run: seq<Action>)
    requires Inv(s) && Legal(s, run)
    ensures Inv(Exec(s, run))
    decreases |run|
  {
    if run != [] {
      StepKeepsInv(s, run[0]);
      RunKeepsInv(Apply(s, run[0]), run[1..]);
    }
  }

  function Count(pushes: seq<Push>, pair: Pair): nat {
    if pushes == [] then 0
    else (if pushes[|pushes| - 1].pair == pair then 1 else 0) + Count(pushes[..|pushes| - 1], pair)
  }

  lemma {:induction false} CountIsZeroOrOne(pushes: seq<Push>, pair: Pair)
    requires forall i, j :: 0 <= i < j < |pushes| ==> pushes[i].pair != pushes[j].pair
    ensures Count(pushes, pair) == if Pushed(pushes, pair) then 1 else 0
  {
    if pushes != [] {
      var n := |pushes| - 1;
      CountIsZeroOrOne(pushes[..n], pair);
      assert pushes == pushes[..n] + [pushes[n]];
      PushedOneMore(pushes[..n], pushes[n], pair);
    }
  }

  /**
    Over every run of ticks, retries, replicas, crashes, targeted teams and deletions, never more
    than one push is enqueued for an event and a member; while neither is deleted, their marker
    exists exactly when one was.
   */
  lemma MarkedExactlyWhenPushedOnce(s: State, run: seq<Action>, pair: Pair)
    requires OnePushEach(s) && s.attempts == map[] && Legal(s, run)
    ensures var t := Exec(s, run);
      && Count(t.pushes, pair) <= 1
      && (Live(t, pair) ==> Count(t.pushes, pair) == if pair in t.sent then 1 else 0)
      && (!Live(t, pair) ==> pair !in t.sent)
  {
    RunKeepsInv(s, run);
    CountIsZeroOrOne(Exec(s, run).pushes, pair);
  }

  lemma StepAfterDeletion(s: State, a: Action, pair: Pair)
    requires Inv(s) && Enabled(s, a) && !Live(s, pair)
    ensures !Live(Apply(s, a), pair) && Count(Apply(s, a).pushes, pair) == Count(s.pushes, pair)
  {
    if a.Commit? {
      assert Open(s, a.proc);
      var push := s.attempts[a.proc].push;
      assert (s.pushes + [push])[..|s.pushes|] == s.pushes;
    }
  }

  /**
    Losing the marker does not bring a second push: once the event or the member is deleted, the foreign key lets
    no marker in.
   */
  lemma {:induction false} NoPushAfterDeletion(s: State, run: seq<Action>, pair: Pair)
    requires Inv(s) && Legal(s, run) && !Live(s, pair)
    ensures Count(Exec(s, run).pushes, pair) == Count(s.pushes, pair)
    decreases |run|
  {
    if run != [] {
      StepKeepsInv(s, run[0]);
      StepAfterDeletion(s, run[0], pair);
      NoPushAfterDeletion(Apply(s, run[0]), run[1..], pair);
    }
  }

  /** An attempt that dies leaves nothing behind: the tables are as they were, and nothing else is blocked by it. */
  lemma AbortLeavesNothing(s: State, p: ProcId, q: ProcId)
    requires Inv(s) && Open(s, p) && q in s.attempts && q != p && s.attempts[q].pc == Begun
    requires s.attempts[q].push.pair == s.attempts[p].push.pair
    ensures var t := Apply(s, Abort(p));
      && t.sent == s.sent && t.pushes == s.pushes && !Enabled(s, Mark(q))
      && Enabled(t, Mark(q)) && Apply(t, Mark(q)).attempts[q].pc == Marked
  {
    assert Blocked(s, q);
  }

  /** No attempt waits for one that waits: while any is under way, one of them can go on without aborting. */
  lemma SomeAttemptCanGoOn(s: State, p: ProcId) returns (a: Action)
    requires p in s.attempts
    ensures Enabled(s, a) && (a.Mark? || a.Enqueue? || a.Commit?)
  {
    var q := p;
    if s.attempts[p].pc == Begun {
      if !Blocked(s, p) {
        return Mark(p);
      }
      q :| q in s.attempts && q != p && s.attempts[q].pc != Begun && s.attempts[q].push.pair == s.attempts[p].push.pair;
    }
    a := if s.attempts[q].pc == Marked then Enqueue(q) else Commit(q);
  }
}
