/**
  The reminder worker as one tick runs it: the adapter fans every event out to its targeted
  teams, and the worker loops over candidates and members with its two caches. Instants are
  minutes. Lookups that may fail are maps that may lack a key.
 */
module ReminderWorker {
  import opened Reminders

  datatype EventRow = EventRow(id: EventId, owner: TeamId, start: int)
  datatype Candidate = Candidate(event: EventId, team: TeamId, start: int)
  datatype Subscription = Subscription(id: SubscriptionId, user: UserId)
  datatype Preferences = Preferences(enabled: bool, hoursBefore: int)

  /** What the lookups of one tick answer; `failing` are the pairs whose transaction fails this time. */
  datatype World = World(subscriptions: map<TeamId, seq<Subscription>>, readAccess: map<(TeamId, UserId), bool>,
                         preferences: map<(TeamId, UserId), Preferences>, failing: set<Pair>,
                         deletedEvents: set<EventId>, deletedUsers: set<UserId>)

  /** The tables between two transactions. */
  function Tables(w: World, sent: set<Pair>, pushes: seq<Push>): State {
    State(sent, pushes, w.deletedEvents, w.deletedUsers, map[])
  }

  /** The transaction fails by itself, or at the marker's foreign keys. */
  predicate Fails(w: World, pair: Pair) {
    pair in w.failing || pair.event in w.deletedEvents || pair.user in w.deletedUsers
  }

  // ----- Fan-out -----

  /** The event's targets, or its owner when it has none. */
  function TargetsOf(row: EventRow, targets: map<EventId, seq<TeamId>>): seq<TeamId> {
    if row.id in targets && targets[row.id] != [] then targets[row.id] else [row.owner]
  }

  function CandidatesOf(row: EventRow, teams: seq<TeamId>): seq<Candidate> {
    if teams == [] then []
    else CandidatesOf(row, teams[..|teams| - 1]) + [Candidate(row.id, teams[|teams| - 1], row.start)]
  }

  function FanOut(rows: seq<EventRow>, targets: map<EventId, seq<TeamId>>): seq<Candidate> {
    if rows == [] then []
    else
      var row := rows[|rows| - 1];
      FanOut(rows[..|rows| - 1], targets) + CandidatesOf(row, TargetsOf(row, targets))
  }

  lemma {:induction false} CandidatesAreExactly(row: EventRow, teams: seq<TeamId>, c: Candidate)
    ensures c in CandidatesOf(row, teams) <==> c.event == row.id && c.start == row.start && c.team in teams
  {
    if teams != [] {
      var n := |teams| - 1;
      CandidatesAreExactly(row, teams[..n], c);
      assert teams == teams[..n] + [teams[n]];
    }
  }

  /** A team is a candidate for an event exactly when the event targets it; no event is dropped. */
  lemma {:induction false} FanOutReaches(rows: seq<EventRow>, targets: map<EventId, seq<TeamId>>, c: Candidate)
    ensures c in FanOut(rows, targets)
       <==> exists row :: row in rows && c.event == row.id && c.start == row.start && c.team in TargetsOf(row, targets)
  {
    if rows != [] {
      var n := |rows| - 1;
      FanOutReaches(rows[..n], targets, c);
      CandidatesAreExactly(rows[n], TargetsOf(rows[n], targets), c);
      assert rows == rows[..n] + [rows[n]];
    }
  }

  method ListUpcomingForReminders(rows: seq<EventRow>, targets: map<EventId, seq<TeamId>>) returns (out: seq<Candidate>)
    ensures out == FanOut(rows, targets)
  {
    out := [];
    for i := 0 to |rows|
      invariant out == FanOut(rows[..i], targets)
    {
      var teams := if rows[i].id in targets then targets[rows[i].id] else [];
      if teams == [] {
        teams := [rows[i].owner];
      }
      ghost var before := out;
      for j := 0 to |teams|
        invariant out == before + CandidatesOf(rows[i], teams[..j])
      {
        assert teams[..j + 1][..j] == teams[..j];
        out := out + [Candidate(rows[i].id, teams[j], rows[i].start)];
      }
      assert teams[..|teams|] == teams && rows[..i + 1][..i] == rows[..i];
    }
    assert rows[..|rows|] == rows;
  }

  // ----- Who is to be reminded -----

  predicate Allowed(w: World, team: TeamId, user: UserId) {
    (team, user) in w.readAccess && w.readAccess[(team, user)]
  }

  /** Enabled for this team, and the lead time before the start has been reached. */
  predicate IsDue(w: World, c: Candidate, user: UserId, now: int) {
    && (c.team, user) in w.preferences
    && w.preferences[(c.team, user)].enabled
    && c.start - w.preferences[(c.team, user)].hoursBefore * 60 <= now
  }

  predicate Wanted(w: World, c: Candidate, user: UserId, now: int) {
    c.start > now && Allowed(w, c.team, user) && IsDue(w, c, user, now)
  }

  function SubscribersOf(w: World, team: TeamId): seq<Subscription> {
    if team in w.subscriptions then w.subscriptions[team] else []
  }

  /** The pushes the members are to get, one per subscription, in the order the loop reaches them. */
  function WantedAmong(w: World, c: Candidate, now: int, members: seq<Subscription>): seq<Push> {
    if members == [] then []
    else
      var m := members[|members| - 1];
      WantedAmong(w, c, now, members[..|members| - 1])
      + (if Wanted(w, c, m.user, now) then [Push(Pair(c.event, m.user), m.id)] else [])
  }

  function WantedBy(w: World, cs: seq<Candidate>, now: int): seq<Push> {
    if cs == [] then []
    else
      var c := cs[|cs| - 1];
      WantedBy(w, cs[..|cs| - 1], now) + WantedAmong(w, c, now, SubscribersOf(w, c.team))
  }

  lemma {:induction false} WantedAmongReaches(w: World, c: Candidate, now: int, members: seq<Subscription>, pair: Pair)
    ensures Pushed(WantedAmong(w, c, now, members), pair)
       <==> exists m :: m in members && Wanted(w, c, m.user, now) && pair == Pair(c.event, m.user)
  {
    if members != [] {
      var n := |members| - 1;
      WantedAmongReaches(w, c, now, members[..n], pair);
      assert members == members[..n] + [members[n]];
      if Wanted(w, c, members[n].user, now) {
        PushedOneMore(WantedAmong(w, c, now, members[..n]), Push(Pair(c.event, members[n].user), members[n].id), pair);
      } else {
        assert WantedAmong(w, c, now, members) == WantedAmong(w, c, now, members[..n]);
      }
    }
  }

  lemma PushedInEither(a: seq<Push>, b: seq<Push>, pair: Pair)
    ensures Pushed(a + b, pair) <==> Pushed(a, pair) || Pushed(b, pair)
  {
    if i :| 0 <= i < |a| && a[i].pair == pair {
      assert (a + b)[i].pair == pair;
    }
    if i :| 0 <= i < |b| && b[i].pair == pair {
      assert (a + b)[|a| + i].pair == pair;
    }
  }

  lemma {:induction false} WantedByReaches(w: World, cs: seq<Candidate>, now: int, pair: Pair)
    ensures Pushed(WantedBy(w, cs, now), pair)
       <==> exists c :: c in cs && Pushed(WantedAmong(w, c, now, SubscribersOf(w, c.team)), pair)
  {
    if cs != [] {
      var n := |cs| - 1;
      WantedByReaches(w, cs[..n], now, pair);
      assert cs == cs[..n] + [cs[n]];
      PushedInEither(WantedBy(w, cs[..n], now), WantedAmong(w, cs[n], now, SubscribersOf(w, cs[n].team)), pair);
    }
  }

  predicate WantsReminder(w: World, row: EventRow, team: TeamId, user: UserId, now: int) {
    && Wanted(w, Candidate(row.id, team, row.start), user, now)
    && exists m :: m in SubscribersOf(w, team) && m.user == user
  }

  /**
    The pairs one tick is to remind: every subscriber, in any targeted team, who may read events there and whose
    lead time is reached.
   */
  ghost predicate ToRemind(w: World, rows: seq<EventRow>, targets: map<EventId, seq<TeamId>>, now: int, pair: Pair) {
    exists row, team :: row in rows && row.id == pair.event && team in TargetsOf(row, targets) &&
      WantsReminder(w, row, team, pair.user, now)
  }

  /**
    One reminder that is due, in the rows' own fields: the event has not begun, the team is one of its targets or
    owns an event without targets, and a subscriber of the team who may read events there has reminders on and has
    reached the lead time.
   */
  ghost predicate DueFor(w: World, row: EventRow, targets: map<EventId, seq<TeamId>>, team: TeamId, m: Subscription,
                         now: int) {
    && now < row.start
    && (if row.id in targets && targets[row.id] != [] then team in targets[row.id] else team == row.owner)
    && team in w.subscriptions && m in w.subscriptions[team]
    && (team, m.user) in w.readAccess && w.readAccess[(team, m.user)] == true
    && (team, m.user) in w.preferences && w.preferences[(team, m.user)].enabled
    && row.start <= now + 60 * w.preferences[(team, m.user)].hoursBefore
  }

  ghost predicate DuePair(w: World, rows: seq<EventRow>, targets: map<EventId, seq<TeamId>>, now: int, pair: Pair) {
    exists row: EventRow, team: TeamId, m: Subscription :: row in rows && row.id == pair.event && m.user == pair.user
                           && DueFor(w, row, targets, team, m, now)
  }

  ghost predicate DuePush(w: World, rows: seq<EventRow>, targets: map<EventId, seq<TeamId>>, now: int, push: Push) {
    exists row: EventRow, team: TeamId, m: Subscription :: row in rows && push == Push(Pair(row.id, m.user), m.id)
                           && DueFor(w, row, targets, team, m, now)
  }

  lemma WantedIsDue(w: World, row: EventRow, targets: map<EventId, seq<TeamId>>, team: TeamId, m: Subscription,
                    now: int)
    ensures DueFor(w, row, targets, team, m, now)
       <==> team in TargetsOf(row, targets) && m in SubscribersOf(w, team)
            && Wanted(w, Candidate(row.id, team, row.start), m.user, now)
  {
  }

  lemma ToRemindExactly(w: World, rows: seq<EventRow>, targets: map<EventId, seq<TeamId>>, now: int, pair: Pair)
    ensures ToRemind(w, rows, targets, now, pair) <==> DuePair(w, rows, targets, now, pair)
  {
    if ToRemind(w, rows, targets, now, pair) {
      var row, team :| row in rows && row.id == pair.event && team in TargetsOf(row, targets) &&
        WantsReminder(w, row, team, pair.user, now);
      var m :| m in SubscribersOf(w, team) && m.user == pair.user;
      WantedIsDue(w, row, targets, team, m, now);
    }
    if row: EventRow, team: TeamId, m: Subscription :|
      && row in rows && row.id == pair.event && m.user == pair.user
      && DueFor(w, row, targets, team, m, now) {
      WantedIsDue(w, row, targets, team, m, now);
      assert WantsReminder(w, row, team, pair.user, now);
    }
  }

  lemma {:induction false} WantedAmongGoTo(w: World, c: Candidate, now: int, members: seq<Subscription>, push: Push)
    requires push in WantedAmong(w, c, now, members)
    ensures exists m :: m in members && Wanted(w, c, m.user, now) && push == Push(Pair(c.event, m.user), m.id)
  {
    if members != [] {
      var n := |members| - 1;
      assert members == members[..n] + [members[n]];
      if push in WantedAmong(w, c, now, members[..n]) {
        WantedAmongGoTo(w, c, now, members[..n], push);
      }
    }
  }

  lemma {:induction false} WantedByGoTo(w: World, cs: seq<Candidate>, now: int, push: Push)
    requires push in WantedBy(w, cs, now)
    ensures exists c :: c in cs && push in WantedAmong(w, c, now, SubscribersOf(w, c.team))
  {
    if cs != [] {
      var n := |cs| - 1;
      assert cs == cs[..n] + [cs[n]];
      if push in WantedBy(w, cs[..n], now) {
        WantedByGoTo(w, cs[..n], now, push);
      }
    }
  }

  lemma WantedPushIsDue(w: World, rows: seq<EventRow>, targets: map<EventId, seq<TeamId>>, now: int, push: Push)
    requires push in WantedBy(w, FanOut(rows, targets), now)
    ensures DuePush(w, rows, targets, now, push)
  {
    var cs := FanOut(rows, targets);
    WantedByGoTo(w, cs, now, push);
    var c: Candidate :| c in cs && push in WantedAmong(w, c, now, SubscribersOf(w, c.team));
    WantedAmongGoTo(w, c, now, SubscribersOf(w, c.team), push);
    var m :| m in SubscribersOf(w, c.team) && Wanted(w, c, m.user, now) && push == Push(Pair(c.event, m.user), m.id);
    FanOutReaches(rows, targets, c);
    var row :| row in rows && c.event == row.id && c.start == row.start && c.team in TargetsOf(row, targets);
    assert c == Candidate(row.id, c.team, row.start);
    WantedIsDue(w, row, targets, c.team, m, now);
  }

  lemma TickReaches(w: World, rows: seq<EventRow>, targets: map<EventId, seq<TeamId>>, now: int, pair: Pair)
    ensures Pushed(WantedBy(w, FanOut(rows, targets), now), pair) <==> ToRemind(w, rows, targets, now, pair)
  {
    var cs := FanOut(rows, targets);
    WantedByReaches(w, cs, now, pair);
    if c: Candidate :| c in cs && Pushed(WantedAmong(w, c, now, SubscribersOf(w, c.team)), pair) {
      FanOutReaches(rows, targets, c);
      WantedAmongReaches(w, c, now, SubscribersOf(w, c.team), pair);
      var row :| row in rows && c.event == row.id && c.start == row.start && c.team in TargetsOf(row, targets);
      assert c == Candidate(row.id, c.team, row.start) && WantsReminder(w, row, c.team, pair.user, now);
    }
    if ToRemind(w, rows, targets, now, pair) {
      var row, team :| row in rows && row.id == pair.event && team in TargetsOf(row, targets) &&
        WantsReminder(w, row, team, pair.user, now);
      var c := Candidate(row.id, team, row.start);
      FanOutReaches(rows, targets, c);
      WantedAmongReaches(w, c, now, SubscribersOf(w, team), pair);
    }
  }

  // ----- What a stretch of wanted pushes does -----

  function Succeeding(w: World, wanted: seq<Push>): seq<Push> {
    if wanted == [] then []
    else
      var last := wanted[|wanted| - 1];
      Succeeding(w, wanted[..|wanted| - 1]) + (if Fails(w, last.pair) then [] else [last])
  }

  function PairsOf(pushes: seq<Push>): set<Pair> {
    set i | 0 <= i < |pushes| :: pushes[i].pair
  }

  /** The pushes that are enqueued: those that no marker from before and no earlier push forestalls. */
  function FirstOf(sent: set<Pair>, wanted: seq<Push>): seq<Push> {
    if wanted == [] then []
    else
      var n := |wanted| - 1;
      var last := wanted[n];
      FirstOf(sent, wanted[..n]) + (if last.pair in sent || Pushed(wanted[..n], last.pair) then [] else [last])
  }

  /** Of a pair's wanted pushes exactly the first is enqueued, and none if the pair was marked before. */
  lemma {:induction false} OnlyTheFirstIsEnqueued(sent: set<Pair>, wanted: seq<Push>, push: Push)
    ensures push in FirstOf(sent, wanted) <==>
      push.pair !in sent && exists i :: 0 <= i < |wanted| && wanted[i] == push && !Pushed(wanted[..i], push.pair)
  {
    if wanted != [] {
      var n := |wanted| - 1;
      OnlyTheFirstIsEnqueued(sent, wanted[..n], push);
      forall i | 0 <= i < n ensures wanted[..n][..i] == wanted[..i] {
      }
      if i :| 0 <= i < n && wanted[..n][i] == push && !Pushed(wanted[..n][..i], push.pair) {
        assert wanted[i] == push && !Pushed(wanted[..i], push.pair);
      }
    }
  }

  lemma {:induction false} SucceedingConcat(w: World, a: seq<Push>, b: seq<Push>)
    ensures Succeeding(w, a + b) == Succeeding(w, a) + Succeeding(w, b)
  {
    if b == [] {
      assert a + b == a;
    } else {
      var n := |b| - 1;
      SucceedingConcat(w, a, b[..n]);
      assert (a + b)[..|a + b| - 1] == a + b[..n];
    }
  }

  lemma InPairs(pushes: seq<Push>, pair: Pair)
    ensures pair in PairsOf(pushes) <==> Pushed(pushes, pair)
  {
  }

  lemma PairsConcat(a: seq<Push>, b: seq<Push>)
    ensures PairsOf(a + b) == PairsOf(a) + PairsOf(b)
  {
    forall pair ensures pair in PairsOf(a + b) <==> pair in PairsOf(a) || pair in PairsOf(b) {
      PushedInEither(a, b, pair);
      InPairs(a + b, pair);
      InPairs(a, pair);
      InPairs(b, pair);
    }
  }

  lemma {:induction false} FirstOfConcat(sent: set<Pair>, a: seq<Push>, b: seq<Push>)
    ensures FirstOf(sent, a + b) == FirstOf(sent, a) + FirstOf(sent + PairsOf(a), b)
  {
    if b == [] {
      assert a + b == a;
    } else {
      var n := |b| - 1;
      FirstOfConcat(sent, a, b[..n]);
      assert (a + b)[..|a + b| - 1] == a + b[..n];
      PushedInEither(a, b[..n], b[n].pair);
      InPairs(a, b[n].pair);
    }
  }

  predicate NoneFails(w: World, wanted: seq<Push>) {
    forall i :: 0 <= i < |wanted| ==> !Fails(w, wanted[i].pair)
  }

  /** How the tables change while a stretch of wanted pushes is worked off. */
  predicate WorkedOff(w: World, wanted: seq<Push>, before: State, after: State) {
    && after.sent == before.sent + PairsOf(Succeeding(w, wanted))
    && after.pushes == before.pushes + FirstOf(before.sent, Succeeding(w, wanted))
  }

  lemma JoinPushes(a: seq<Push>, b: seq<Push>, c: seq<Push>)
    ensures (a + b) + c == a + (b + c)
  {
  }

  lemma NoneFailsConcat(w: World, a: seq<Push>, b: seq<Push>)
    ensures NoneFails(w, a + b) <==> NoneFails(w, a) && NoneFails(w, b)
  {
    assert forall i :: 0 <= i < |b| ==> (a + b)[|a| + i] == b[i];
    assert forall i :: 0 <= i < |a| ==> (a + b)[i] == a[i];
  }

  lemma WorkedOffBoth(w: World, a: seq<Push>, b: seq<Push>, before: State, between: State, after: State)
    requires WorkedOff(w, a, before, between) && WorkedOff(w, b, between, after)
    ensures WorkedOff(w, a + b, before, after) && (NoneFails(w, a + b) <==> NoneFails(w, a) && NoneFails(w, b))
  {
    var first, second := Succeeding(w, a), Succeeding(w, b);
    SucceedingConcat(w, a, b);
    PairsConcat(first, second);
    FirstOfConcat(before.sent, first, second);
    JoinPushes(before.pushes, FirstOf(before.sent, first), FirstOf(between.sent, second));
    NoneFailsConcat(w, a, b);
  }

  lemma {:induction false} InSucceeding(w: World, wanted: seq<Push>, pair: Pair)
    ensures Pushed(Succeeding(w, wanted), pair) <==> Pushed(wanted, pair) && !Fails(w, pair)
  {
    if wanted != [] {
      var n := |wanted| - 1;
      InSucceeding(w, wanted[..n], pair);
      assert wanted == wanted[..n] + [wanted[n]];
      PushedOneMore(wanted[..n], wanted[n], pair);
      if Fails(w, wanted[n].pair) {
        assert Succeeding(w, wanted) == Succeeding(w, wanted[..n]);
      } else {
        PushedOneMore(Succeeding(w, wanted[..n]), wanted[n], pair);
      }
    }
  }

  lemma {:induction false} SucceedingAreWanted(w: World, wanted: seq<Push>, push: Push)
    requires push in Succeeding(w, wanted)
    ensures push in wanted
  {
    if wanted != [] {
      var n := |wanted| - 1;
      if push in Succeeding(w, wanted[..n]) {
        SucceedingAreWanted(w, wanted[..n], push);
      }
    }
  }

  /** Whatever a tick enqueues goes to a subscription that was due one. */
  lemma EnqueuedAreDue(w: World, rows: seq<EventRow>, targets: map<EventId, seq<TeamId>>, now: int, sent: set<Pair>,
                       push: Push)
    requires push in FirstOf(sent, Succeeding(w, WantedBy(w, FanOut(rows, targets), now)))
    ensures DuePush(w, rows, targets, now, push) && push.pair !in sent
  {
    var wanted := WantedBy(w, FanOut(rows, targets), now);
    OnlyTheFirstIsEnqueued(sent, Succeeding(w, wanted), push);
    SucceedingAreWanted(w, wanted, push);
    WantedPushIsDue(w, rows, targets, now, push);
  }

  /** A tick's effect, pair by pair. */
  lemma TickIsExact(w: World, rows: seq<EventRow>, targets: map<EventId, seq<TeamId>>, now: int)
    ensures var wanted := WantedBy(w, FanOut(rows, targets), now);
      && (forall pair :: pair in PairsOf(Succeeding(w, wanted)) <==>
            ToRemind(w, rows, targets, now, pair) && !Fails(w, pair))
      && (NoneFails(w, wanted) <==> forall pair :: ToRemind(w, rows, targets, now, pair) ==> !Fails(w, pair))
  {
    var wanted := WantedBy(w, FanOut(rows, targets), now);
    forall pair
      ensures pair in PairsOf(Succeeding(w, wanted)) <==> ToRemind(w, rows, targets, now, pair) && !Fails(w, pair)
      ensures Pushed(wanted, pair) <==> ToRemind(w, rows, targets, now, pair)
    {
      TickReaches(w, rows, targets, now, pair);
      InSucceeding(w, wanted, pair);
      InPairs(Succeeding(w, wanted), pair);
    }
    forall i | 0 <= i < |wanted| ensures ToRemind(w, rows, targets, now, wanted[i].pair) {
      assert Pushed(wanted, wanted[i].pair);
    }
  }

  // ----- The worker -----

  /** One attempt of the protocol with nothing interleaved. */
  ghost function AttemptAlone(s: State, team: TeamId, push: Push): State
    requires s.attempts == map[]
  {
    var marked := Apply(Apply(s, Begin(0, team, push)), Mark(0));
    if 0 !in marked.attempts then marked else Apply(Apply(marked, Enqueue(0)), Commit(0))
  }

  predicate PermsCacheOk(w: World, cache: map<(TeamId, UserId), bool>) {
    forall k :: k in cache ==> k in w.readAccess && cache[k] == w.readAccess[k]
  }

  predicate MembersCacheOk(w: World, cache: map<TeamId, seq<Subscription>>) {
    forall t :: t in cache ==> t in w.subscriptions && cache[t] == w.subscriptions[t]
  }

  /** Caching an answer never changes one. */
  method IsAllowed(w: World, team: TeamId, user: UserId, cache: map<(TeamId, UserId), bool>)
    returns (allowed: bool, newCache: map<(TeamId, UserId), bool>)
    requires PermsCacheOk(w, cache)
    ensures allowed == Allowed(w, team, user) && PermsCacheOk(w, newCache)
  {
    newCache := cache;
    if (team, user) in cache {
      return cache[(team, user)], cache;
    }
    if (team, user) !in w.readAccess {
      return false, cache;
    }
    allowed := w.readAccess[(team, user)];
    newCache := cache[(team, user) := allowed];
  }

  lemma OneMember(w: World, c: Candidate, now: int, m: Subscription)
    ensures WantedAmong(w, c, now, [m]) == if Wanted(w, c, m.user, now) then [Push(Pair(c.event, m.user), m.id)] else []
  {
    assert [m][..0] == [];
  }

  lemma OneMoreMember(w: World, c: Candidate, now: int, members: seq<Subscription>, i: nat)
    requires i < |members|
    ensures WantedAmong(w, c, now, members[..i + 1])
         == WantedAmong(w, c, now, members[..i]) + WantedAmong(w, c, now, [members[i]])
  {
    assert members[..i + 1][..i] == members[..i];
    OneMember(w, c, now, members[i]);
  }

  lemma {:induction false} NobodyAfterTheStart(w: World, c: Candidate, now: int, members: seq<Subscription>)
    requires c.start <= now
    ensures WantedAmong(w, c, now, members) == []
  {
    if members != [] {
      NobodyAfterTheStart(w, c, now, members[..|members| - 1]);
    }
  }

  class Worker {
    var sent: set<Pair>
    var pushes: seq<Push>

    function View(w: World): State
      reads this
    {
      Tables(w, sent, pushes)
    }

    method RemindMember(w: World, c: Candidate, m: Subscription, now: int) returns (ok: bool)
      requires OnePushEach(View(w))
      modifies this
      ensures OnePushEach(View(w))
      ensures IsDue(w, c, m.user, now) && !Fails(w, Pair(c.event, m.user)) ==>
        ok && View(w) == AttemptAlone(old(View(w)), c.team, Push(Pair(c.event, m.user), m.id))
      ensures !IsDue(w, c, m.user, now) || Fails(w, Pair(c.event, m.user)) ==>
        View(w) == old(View(w)) && ok == !IsDue(w, c, m.user, now)
    {
      if (c.team, m.user) !in w.preferences {
        return true;
      }
      var prefs := w.preferences[(c.team, m.user)];
      if !prefs.enabled {
        return true;
      }
      var due := c.start - prefs.hoursBefore * 60;
      if now < due {
        return true;
      }
      var pair := Pair(c.event, m.user);
      if Fails(w, pair) {
        return false;
      }
      if pair in sent {
        return true;
      }
      PushAdded(View(w), Push(pair, m.id));
      sent, pushes := sent + {pair}, pushes + [Push(pair, m.id)];
      return true;
    }

    /** The body of the loop over a team's members. */
    method ConsiderMember(w: World, c: Candidate, m: Subscription, now: int, permsCache: map<(TeamId, UserId), bool>)
      returns (ok: bool, newPerms: map<(TeamId, UserId), bool>)
      requires OnePushEach(View(w)) && PermsCacheOk(w, permsCache) && c.start > now
      modifies this
      ensures OnePushEach(View(w)) && PermsCacheOk(w, newPerms)
      ensures WorkedOff(w, WantedAmong(w, c, now, [m]), old(View(w)), View(w))
      ensures ok <==> NoneFails(w, WantedAmong(w, c, now, [m]))
    {
      var allowed;
      allowed, newPerms := IsAllowed(w, c.team, m.user, permsCache);
      ok := true;
      OneMember(w, c, now, m);
      if allowed {
        ok := RemindMember(w, c, m, now);
      }
    }

    method RemindForEvent(w: World, c: Candidate, now: int, membersCache: map<TeamId, seq<Subscription>>,
                          permsCache: map<(TeamId, UserId), bool>)
      returns (ok: bool, newMembers: map<TeamId, seq<Subscription>>, newPerms: map<(TeamId, UserId), bool>)
      requires OnePushEach(View(w)) && MembersCacheOk(w, membersCache) && PermsCacheOk(w, permsCache)
      modifies this
      ensures OnePushEach(View(w)) && MembersCacheOk(w, newMembers) && PermsCacheOk(w, newPerms)
      ensures WorkedOff(w, WantedAmong(w, c, now, SubscribersOf(w, c.team)), old(View(w)), View(w))
      ensures ok <==> NoneFails(w, WantedAmong(w, c, now, SubscribersOf(w, c.team)))
    {
      ok, newMembers, newPerms := true, membersCache, permsCache;
      if c.start <= now {
        NobodyAfterTheStart(w, c, now, SubscribersOf(w, c.team));
        return;
      }
      if c.team !in newMembers {
        if c.team !in w.subscriptions {
          return;
        }
        newMembers := newMembers[c.team := w.subscriptions[c.team]];
      }
      var members := newMembers[c.team];
      for i := 0 to |members|
        invariant OnePushEach(View(w)) && PermsCacheOk(w, newPerms)
        invariant WorkedOff(w, WantedAmong(w, c, now, members[..i]), old(View(w)), View(w))
        invariant ok <==> NoneFails(w, WantedAmong(w, c, now, members[..i]))
      {
        ghost var between := View(w);
        var reminded;
        reminded, newPerms := ConsiderMember(w, c, members[i], now, newPerms);
        ok := ok && reminded;
        OneMoreMember(w, c, now, members, i);
        WorkedOffBoth(w, WantedAmong(w, c, now, members[..i]), WantedAmong(w, c, now, [members[i]]),
                      old(View(w)), between, View(w));
      }
      assert members[..|members|] == members;
    }

    /** The loop of Work, with the caches it carries from candidate to candidate. */
    method RemindAll(w: World, candidates: seq<Candidate>, now: int) returns (ok: bool)
      requires OnePushEach(View(w))
      modifies this
      ensures OnePushEach(View(w))
      ensures WorkedOff(w, WantedBy(w, candidates, now), old(View(w)), View(w))
      ensures ok <==> NoneFails(w, WantedBy(w, candidates, now))
    {
      var membersCache: map<TeamId, seq<Subscription>> := map[];
      var permsCache: map<(TeamId, UserId), bool> := map[];
      ok := true;
      for i := 0 to |candidates|
        invariant OnePushEach(View(w))
        invariant MembersCacheOk(w, membersCache) && PermsCacheOk(w, permsCache)
        invariant WorkedOff(w, WantedBy(w, candidates[..i], now), old(View(w)), View(w))
        invariant ok <==> NoneFails(w, WantedBy(w, candidates[..i], now))
      {
        ghost var between := View(w);
        var c := candidates[i];
        var reminded;
        reminded, membersCache, permsCache := RemindForEvent(w, c, now, membersCache, permsCache);
        ok := ok && reminded;
        assert candidates[..i + 1][..i] == candidates[..i];
        WorkedOffBoth(w, WantedBy(w, candidates[..i], now), WantedAmong(w, c, now, SubscribersOf(w, c.team)),
                      old(View(w)), between, View(w));
      }
      assert candidates[..|candidates|] == candidates;
    }

    /**
      After a tick exactly the pairs that were to be reminded are marked, but for the failing ones,
      which make it report an error; each newly marked pair's one push is to the first of its
      subscriptions that the loops reach.
     */
    method Work(w: World, rows: seq<EventRow>, targets: map<EventId, seq<TeamId>>, now: int) returns (ok: bool)
      requires OnePushEach(View(w))
      modifies this
      ensures OnePushEach(View(w))
      ensures forall pair :: pair in sent <==>
        pair in old(sent) || (DuePair(w, rows, targets, now, pair) && !Fails(w, pair))
      ensures old(pushes) <= pushes
      ensures forall i :: |old(pushes)| <= i < |pushes| ==>
        DuePush(w, rows, targets, now, pushes[i]) && pushes[i].pair !in old(sent)
      ensures pushes == old(pushes) + FirstOf(old(sent), Succeeding(w, WantedBy(w, FanOut(rows, targets), now)))
      ensures ok <==> forall pair :: DuePair(w, rows, targets, now, pair) ==> !Fails(w, pair)
    {
      var candidates := ListUpcomingForReminders(rows, targets);
      ok := RemindAll(w, candidates, now);
      TickIsExact(w, rows, targets, now);
      forall pair ensures ToRemind(w, rows, targets, now, pair) <==> DuePair(w, rows, targets, now, pair) {
        ToRemindExactly(w, rows, targets, now, pair);
      }
      forall i | |old(pushes)| <= i < |pushes|
        ensures DuePush(w, rows, targets, now, pushes[i]) && pushes[i].pair !in old(sent)
      {
        EnqueuedAreDue(w, rows, targets, now, old(sent), pushes[i]);
      }
    }
  }
}
