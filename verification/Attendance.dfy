/**
  Effective attendance and cross-team rosters. The header counts (one event or
  batched), the roster rows and a member's own status are separate derivations, some
  in SQL and some in Go; this module states each as the code has it and proves that
  they agree. Tables whose row order a query could depend on are sequences in
  arbitrary order.
 */
module Attendance {
  import opened Wrappers

  type UserId = int
  type TeamId = int
  type EventId = int
  type MembershipId = int
  type Day = int

  datatype Status = Yes | No | Maybe | Pending | NotNominated
  datatype ResponseMode = OptIn | OptOut

  datatype Event = Event(date: Day, endDate: Option<Day>, mode: ResponseMode)
  datatype Response = Response(status: Status, reason: Option<string>, at: Option<int>)
  datatype Absence = Absence(user: UserId, team: TeamId, from: Day, to: Day)
  datatype Member = Member(id: MembershipId, team: TeamId, user: UserId)

  datatype Db = Db(events: map<EventId, Event>, eventTeams: seq<(EventId, TeamId)>, members: seq<Member>,
                   responses: map<(EventId, UserId), Response>, absences: set<Absence>)

  /** UNIQUE (team_id, user_id) on memberships. */
  ghost predicate MembersUnique(rows: seq<Member>) {
    forall a, b :: a in rows && b in rows && a.team == b.team && a.user == b.user ==> a == b
  }

  // ----- The precedence rule, in SQL and in Go -----

  predicate AbsenceCovers(db: Db, e: Event, user: UserId, team: TeamId) {
    exists ab <- db.absences ::
      ab.user == user && ab.team == team && ab.from <= e.endDate.GetOr(e.date) && ab.to >= e.date
  }

  /** Absences and events begin before they end. */
  ghost predicate RangesOrdered(db: Db) {
    && (forall ab :: ab in db.absences ==> ab.from <= ab.to)
    && (forall id :: id in db.events && db.events[id].endDate.Some? ==>
          db.events[id].date <= db.events[id].endDate.value)
  }

  /** The event takes place on this day and the absence covers it. */
  ghost predicate SharedDay(e: Event, ab: Absence, day: Day) {
    && e.date <= day && (day == e.date || (e.endDate.Some? && day <= e.endDate.value))
    && ab.from <= day <= ab.to
  }

  /** On some day of the event the user is absent from the team. */
  ghost predicate Away(db: Db, e: Event, user: UserId, team: TeamId) {
    exists ab, day :: ab in db.absences && ab.user == user && ab.team == team && SharedDay(e, ab, day)
  }

  /** The overlap test of the SQL finds exactly the absences that share a day with the event. */
  lemma AbsenceCoversExactly(db: Db, id: EventId, user: UserId, team: TeamId)
    requires RangesOrdered(db) && id in db.events
    ensures AbsenceCovers(db, db.events[id], user, team) <==> Away(db, db.events[id], user, team)
  {
    var e := db.events[id];
    if AbsenceCovers(db, e, user, team) {
      var ab :| ab in db.absences && ab.user == user && ab.team == team
                && ab.from <= e.endDate.GetOr(e.date) && ab.to >= e.date;
      assert SharedDay(e, ab, if ab.from < e.date then e.date else ab.from);
    }
  }

  function Explicit(db: Db, id: EventId, user: UserId): Option<Response> {
    if (id, user) in db.responses then Some(db.responses[(id, user)]) else None
  }

  /** EffectiveStatusExpr: the CASE expression over one roster row. */
  function EffectiveStatusSql(explicit: Option<Response>, absenceCovers: bool, mode: ResponseMode): Status {
    if explicit.Some? then explicit.value.status
    else if absenceCovers then No
    else if mode == OptOut then Yes
    else Pending
  }

  datatype Effective = Effective(status: Status, reason: Option<string>, at: Option<int>, auto: bool, absent: bool)

  /** computeEffectiveAttendance. */
  function ComputeEffective(explicit: Option<Response>, absenceCovers: bool, mode: ResponseMode): Effective {
    match explicit
    case Some(r) => Effective(r.status, r.reason, r.at, false, absenceCovers)
    case None =>
      if absenceCovers then Effective(No, None, None, true, true)
      else if mode == OptOut then Effective(Yes, None, None, true, false)
      else Effective(Pending, None, None, false, false)
  }

  lemma SqlAndGoAgree(explicit: Option<Response>, covers: bool, mode: ResponseMode)
    ensures ComputeEffective(explicit, covers, mode).status == EffectiveStatusSql(explicit, covers, mode)
    ensures covers <==> ComputeEffective(explicit, covers, mode).absent
    ensures ComputeEffective(explicit, covers, mode).auto <==> explicit.None? && (covers || mode == OptOut)
  {
  }

  /** What counts for a user whom a membership of `team` represents, in the fields of the rows. */
  ghost predicate CountsAs(db: Db, id: EventId, user: UserId, team: TeamId, status: Status)
    requires id in db.events
  {
    if (id, user) in db.responses then status == db.responses[(id, user)].status
    else if Away(db, db.events[id], user, team) then status == No
    else status == if db.events[id].mode.OptOut? then Yes else Pending
  }

  /** The whole derived attendance: a response comes with its details, a default is bare and marked as automatic. */
  ghost predicate EffectiveFits(db: Db, id: EventId, user: UserId, team: TeamId, eff: Effective)
    requires id in db.events
  {
    && CountsAs(db, id, user, team, eff.status)
    && (eff.absent <==> Away(db, db.events[id], user, team))
    && if (id, user) in db.responses then
         var r := db.responses[(id, user)];
         eff.reason == r.reason && eff.at == r.at && !eff.auto
       else
         eff.reason.None? && eff.at.None? && (eff.auto <==> eff.status != Pending)
  }

  lemma ComputedFits(db: Db, id: EventId, user: UserId, team: TeamId)
    requires RangesOrdered(db) && id in db.events
    ensures var e := db.events[id];
      EffectiveFits(db, id, user, team,
                    ComputeEffective(Explicit(db, id, user), AbsenceCovers(db, e, user, team), e.mode))
  {
    AbsenceCoversExactly(db, id, user, team);
  }

  // ----- DISTINCT ON (user) ORDER BY user, (team = view) DESC, team -----

  predicate Preferred(view: TeamId, a: Member, b: Member) {
    if (a.team == view) != (b.team == view) then a.team == view else a.team < b.team
  }

  function DistinctOn(rows: seq<Member>, view: TeamId): map<UserId, Member> {
    if rows == [] then map[]
    else
      var kept, last := DistinctOn(rows[..|rows| - 1], view), rows[|rows| - 1];
      if last.user in kept && !Preferred(view, last, kept[last.user]) then kept else kept[last.user := last]
  }

  /** r is the row DISTINCT ON keeps for its user: no row of that user is preferred over it. */
  ghost predicate Representative(rows: seq<Member>, view: TeamId, r: Member) {
    r in rows && forall s :: s in rows && s.user == r.user ==> !Preferred(view, s, r)
  }

  lemma {:induction false} DistinctOnKeeps(rows: seq<Member>, view: TeamId)
    ensures forall r :: r in rows ==> r.user in DistinctOn(rows, view)
    ensures forall u :: u in DistinctOn(rows, view) ==>
      DistinctOn(rows, view)[u].user == u && Representative(rows, view, DistinctOn(rows, view)[u])
  {
    if rows != [] {
      var init, last := rows[..|rows| - 1], rows[|rows| - 1];
      DistinctOnKeeps(init, view);
      assert rows == init + [last];
      var kept, all := DistinctOn(init, view), DistinctOn(rows, view);
      forall u | u in all ensures all[u].user == u && Representative(rows, view, all[u]) {
        if u == last.user && u in kept && all[u] == last {
          forall s | s in rows && s.user == u ensures !Preferred(view, s, last) {
            if s != last {
              assert s in init && !Preferred(view, s, kept[u]);
            }
          }
        }
      }
    }
  }

  lemma RepresentativeIsUnique(rows: seq<Member>, view: TeamId, a: Member, b: Member)
    requires MembersUnique(rows) && Representative(rows, view, a) && Representative(rows, view, b) && a.user == b.user
    ensures a == b
  {
  }

  /** Which row stands for a user does not depend on the order in which a join produces the rows. */
  lemma DistinctOnIgnoresOrder(a: seq<Member>, b: seq<Member>, view: TeamId)
    requires MembersUnique(a) && forall r :: r in a <==> r in b
    ensures DistinctOn(a, view) == DistinctOn(b, view)
  {
    var da, db := DistinctOn(a, view), DistinctOn(b, view);
    DistinctOnKeeps(a, view);
    DistinctOnKeeps(b, view);
    forall u ensures u in da <==> u in db {
      if u in da { assert da[u] in b; }
      if u in db { assert db[u] in a; }
    }
    forall u | u in da ensures da[u] == db[u] {
      assert Representative(a, view, db[u]);
      RepresentativeIsUnique(a, view, da[u], db[u]);
    }
  }

  // ----- The two joins -----

  predicate Targets(db: Db, id: EventId, team: TeamId) {
    (id, team) in db.eventTeams
  }

  /** eventTeamMembersLateral: memberships joined to event_teams. */
  function LateralRows(db: Db, id: EventId, members: seq<Member>): seq<Member> {
    if members == [] then []
    else (if Targets(db, id, members[0].team) then [members[0]] else []) + LateralRows(db, id, members[1..])
  }

  function OfTeam(members: seq<Member>, team: TeamId): seq<Member> {
    if members == [] then []
    else (if members[0].team == team then [members[0]] else []) + OfTeam(members[1..], team)
  }

  /** ListAttendance: event_teams joined to memberships. */
  function RosterRows(db: Db, id: EventId, targets: seq<(EventId, TeamId)>): seq<Member> {
    if targets == [] then []
    else (if targets[0].0 == id then OfTeam(db.members, targets[0].1) else []) + RosterRows(db, id, targets[1..])
  }

  lemma {:induction false} InLateralRows(db: Db, id: EventId, members: seq<Member>, m: Member)
    ensures m in LateralRows(db, id, members) <==> m in members && Targets(db, id, m.team)
  {
    if members != [] {
      InLateralRows(db, id, members[1..], m);
      assert members == [members[0]] + members[1..];
    }
  }

  lemma {:induction false} InOfTeam(members: seq<Member>, team: TeamId, m: Member)
    ensures m in OfTeam(members, team) <==> m in members && m.team == team
  {
    if members != [] {
      InOfTeam(members[1..], team, m);
      assert members == [members[0]] + members[1..];
    }
  }

  lemma {:induction false} InRosterRows(db: Db, id: EventId, targets: seq<(EventId, TeamId)>, m: Member)
    ensures m in RosterRows(db, id, targets) <==> m in db.members && (id, m.team) in targets
  {
    if targets != [] {
      InRosterRows(db, id, targets[1..], m);
      InOfTeam(db.members, targets[0].1, m);
      assert targets == [targets[0]] + targets[1..];
    }
  }

  function HeaderRepresentatives(db: Db, id: EventId, view: TeamId): map<UserId, Member> {
    DistinctOn(LateralRows(db, id, db.members), view)
  }

  function RosterRepresentatives(db: Db, id: EventId, view: TeamId): map<UserId, Member> {
    DistinctOn(RosterRows(db, id, db.eventTeams), view)
  }

  /** Header and roster pick the same membership for every user. */
  lemma SameRepresentatives(db: Db, id: EventId, view: TeamId)
    requires MembersUnique(db.members)
    ensures HeaderRepresentatives(db, id, view) == RosterRepresentatives(db, id, view)
  {
    var a, b := LateralRows(db, id, db.members), RosterRows(db, id, db.eventTeams);
    forall m ensures m in a <==> m in b {
      InLateralRows(db, id, db.members, m);
      InRosterRows(db, id, db.eventTeams, m);
    }
    forall m | m in a ensures m in db.members {
      InLateralRows(db, id, db.members, m);
    }
    DistinctOnIgnoresOrder(a, b, view);
  }

  /** m is a membership of a targeted team, of the viewing team if its user has one there, else of the lowest team. */
  ghost predicate StandsFor(db: Db, id: EventId, view: TeamId, m: Member) {
    && m in db.members && (id, m.team) in db.eventTeams
    && (forall s :: s in db.members && s.user == m.user && (id, s.team) in db.eventTeams && s.team != m.team ==>
          m.team == view || (s.team != view && m.team < s.team))
  }

  lemma RepresentedBy(db: Db, id: EventId, view: TeamId, u: UserId)
    requires u in RosterRepresentatives(db, id, view)
    ensures StandsFor(db, id, view, RosterRepresentatives(db, id, view)[u])
    ensures RosterRepresentatives(db, id, view)[u].user == u
  {
    var rows := RosterRows(db, id, db.eventTeams);
    DistinctOnKeeps(rows, view);
    var m := RosterRepresentatives(db, id, view)[u];
    InRosterRows(db, id, db.eventTeams, m);
    forall s | s in db.members && s.user == m.user && (id, s.team) in db.eventTeams && s.team != m.team
      ensures m.team == view || (s.team != view && m.team < s.team)
    {
      InRosterRows(db, id, db.eventTeams, s);
      assert !Preferred(view, s, m);
    }
  }

  lemma StandingIsRepresenting(db: Db, id: EventId, view: TeamId, m: Member)
    requires MembersUnique(db.members) && StandsFor(db, id, view, m)
    ensures m.user in RosterRepresentatives(db, id, view) && RosterRepresentatives(db, id, view)[m.user] == m
  {
    InRosterRows(db, id, db.eventTeams, m);
    DistinctOnKeeps(RosterRows(db, id, db.eventTeams), view);
    RepresentedBy(db, id, view, m.user);
  }

  /** A user is on the roster exactly if some targeted team has them. */
  lemma RepresentedExactly(db: Db, id: EventId, view: TeamId, u: UserId)
    ensures u in RosterRepresentatives(db, id, view)
       <==> exists m :: m in db.members && m.user == u && (id, m.team) in db.eventTeams
  {
    if u in RosterRepresentatives(db, id, view) {
      RepresentedBy(db, id, view, u);
    }
    if m :| m in db.members && m.user == u && (id, m.team) in db.eventTeams {
      InRosterRows(db, id, db.eventTeams, m);
      DistinctOnKeeps(RosterRows(db, id, db.eventTeams), view);
    }
  }

  /** A viewer who belongs to the viewing team is represented by that membership. */
  lemma ViewerIsRepresentedByViewingTeam(db: Db, id: EventId, view: TeamId, m: Member)
    requires MembersUnique(db.members) && m in db.members && m.team == view && Targets(db, id, view)
    ensures m.user in RosterRepresentatives(db, id, view) && RosterRepresentatives(db, id, view)[m.user] == m
  {
    var rows := RosterRows(db, id, db.eventTeams);
    InRosterRows(db, id, db.eventTeams, m);
    DistinctOnKeeps(rows, view);
    var r := DistinctOn(rows, view)[m.user];
    assert !Preferred(view, m, r);
    InRosterRows(db, id, db.eventTeams, r);
  }

  // ----- Header counts -----

  datatype Summary = Summary(yes: nat, no: nat, maybe: nat, pending: nat, notNominated: nat, nominated: nat, total: nat)

  const EMPTY_SUMMARY := Summary(0, 0, 0, 0, 0, 0, 0)

  function WithStatus(statuses: map<UserId, Status>, s: Status): set<UserId> {
    set u | u in statuses && statuses[u] == s
  }

  function Counted(statuses: map<UserId, Status>, s: Status): nat {
    |WithStatus(statuses, s)|
  }

  function Summarize(statuses: map<UserId, Status>): Summary {
    Summary(Counted(statuses, Yes), Counted(statuses, No), Counted(statuses, Maybe), Counted(statuses, Pending),
            Counted(statuses, NotNominated), |set u | u in statuses && statuses[u] != NotNominated|, |statuses|)
  }

  function Statuses(db: Db, id: EventId, reps: map<UserId, Member>): map<UserId, Status>
    requires id in db.events
  {
    var e := db.events[id];
    map u | u in reps :: EffectiveStatusSql(Explicit(db, id, u), AbsenceCovers(db, e, u, reps[u].team), e.mode)
  }

  predicate Visible(db: Db, id: EventId, view: TeamId) {
    id in db.events && Targets(db, id, view)
  }

  function GetAttendanceSummary(db: Db, id: EventId, view: TeamId): Summary {
    if Visible(db, id, view) then Summarize(Statuses(db, id, HeaderRepresentatives(db, id, view))) else EMPTY_SUMMARY
  }

  /** GROUP BY event: an event without a single roster row has no entry. */
  function GetAttendanceSummaries(db: Db, ids: set<EventId>, view: TeamId): map<EventId, Summary> {
    map id | id in ids && id in db.events && HeaderRepresentatives(db, id, view) != map[] ::
      Summarize(Statuses(db, id, HeaderRepresentatives(db, id, view)))
  }

  /**
    Reading a missing key of the batched map gives the zero summary, so batched and single counts agree on every
    visible event.
   */
  lemma BatchedSummaryAgrees(db: Db, ids: set<EventId>, view: TeamId, id: EventId)
    requires id in ids && Visible(db, id, view)
    ensures var batch := GetAttendanceSummaries(db, ids, view);
      (if id in batch then batch[id] else EMPTY_SUMMARY) == GetAttendanceSummary(db, id, view)
  {
  }

  lemma FourParts(a: set<UserId>, b: set<UserId>, c: set<UserId>, d: set<UserId>, all: set<UserId>)
    requires a !! b && (a + b) !! c && (a + b + c) !! d && all == a + b + c + d
    ensures |all| == |a| + |b| + |c| + |d|
  {
  }

  lemma StatusesApart(statuses: map<UserId, Status>, s: Status, t: Status)
    requires s != t
    ensures WithStatus(statuses, s) !! WithStatus(statuses, t)
  {
  }

  lemma NominatedParts(statuses: map<UserId, Status>, nominated: set<UserId>)
    requires nominated == set u | u in statuses && statuses[u] != NotNominated
    ensures nominated == WithStatus(statuses, Yes) + WithStatus(statuses, No) + WithStatus(statuses, Maybe)
                         + WithStatus(statuses, Pending)
    ensures statuses.Keys == nominated + WithStatus(statuses, NotNominated)
    ensures nominated !! WithStatus(statuses, NotNominated)
  {
  }

  lemma CountsAddUp(statuses: map<UserId, Status>)
    ensures var s := Summarize(statuses);
      s.yes + s.no + s.maybe + s.pending + s.notNominated == s.total && s.nominated + s.notNominated == s.total
  {
    var nominated := set u | u in statuses && statuses[u] != NotNominated;
    NominatedParts(statuses, nominated);
    StatusesApart(statuses, Yes, No);
    StatusesApart(statuses, Yes, Maybe);
    StatusesApart(statuses, No, Maybe);
    StatusesApart(statuses, Yes, Pending);
    StatusesApart(statuses, No, Pending);
    StatusesApart(statuses, Maybe, Pending);
    FourParts(WithStatus(statuses, Yes), WithStatus(statuses, No), WithStatus(statuses, Maybe),
              WithStatus(statuses, Pending), nominated);
    assert |statuses.Keys| == |nominated| + |WithStatus(statuses, NotNominated)|;
  }

  // ----- Roster rows -----

  const MAX_ATTENDANCE_ROWS := 5000

  datatype RosterRow = RosterRow(membership: MembershipId, user: UserId, effective: Effective)

  function RosterRowOf(db: Db, e: Event, id: EventId, m: Member): RosterRow {
    RosterRow(m.id, m.user, ComputeEffective(Explicit(db, id, m.user), AbsenceCovers(db, e, m.user, m.team), e.mode))
  }

  /** The ORDER BY name of the outer query: some order of all represented users. */
  ghost predicate Enumerates(order: seq<UserId>, reps: map<UserId, Member>) {
    && (forall u :: u in order <==> u in reps)
    && (forall i, j :: 0 <= i < j < |order| ==> order[i] != order[j])
  }

  function Limit(order: seq<UserId>): seq<UserId> {
    if |order| <= MAX_ATTENDANCE_ROWS then order else order[..MAX_ATTENDANCE_ROWS]
  }

  /** The roster rows before the cap, in the given order. */
  ghost function FullRoster(db: Db, id: EventId, view: TeamId, order: seq<UserId>): (rows: seq<RosterRow>)
    requires Visible(db, id, view) && Enumerates(order, RosterRepresentatives(db, id, view))
    ensures |rows| == |order|
  {
    seq(|order|, i requires 0 <= i < |order| =>
      assert order[i] in order; RosterRowOf(db, db.events[id], id, RosterRepresentatives(db, id, view)[order[i]]))
  }

  /** A roster row shows a membership that stands for its user, with what counts for that user. */
  ghost predicate RowFits(db: Db, id: EventId, view: TeamId, row: RosterRow)
    requires id in db.events
  {
    exists m :: StandsFor(db, id, view, m) && row.membership == m.id && row.user == m.user
                && EffectiveFits(db, id, m.user, m.team, row.effective)
  }

  lemma RosterRowFits(db: Db, id: EventId, view: TeamId, u: UserId)
    requires RangesOrdered(db) && id in db.events && u in RosterRepresentatives(db, id, view)
    ensures RowFits(db, id, view, RosterRowOf(db, db.events[id], id, RosterRepresentatives(db, id, view)[u]))
    ensures RosterRepresentatives(db, id, view)[u].user == u
  {
    var m := RosterRepresentatives(db, id, view)[u];
    RepresentedBy(db, id, view, u);
    ComputedFits(db, id, u, m.team);
    assert StandsFor(db, id, view, m);
  }

  method ListAttendance(db: Db, id: EventId, view: TeamId, order: seq<UserId>) returns (out: seq<RosterRow>)
    requires Enumerates(order, RosterRepresentatives(db, id, view))
    ensures !(id in db.events && (id, view) in db.eventTeams) ==> out == []
    ensures id in db.events && (id, view) in db.eventTeams ==>
      && |out| == (if |order| < MAX_ATTENDANCE_ROWS then |order| else MAX_ATTENDANCE_ROWS)
      && (forall i :: 0 <= i < |out| ==> out[i].user == order[i])
      && (RangesOrdered(db) ==> forall i :: 0 <= i < |out| ==> RowFits(db, id, view, out[i]))
    ensures Visible(db, id, view) ==> out == FullRoster(db, id, view, order)[..|Limit(order)|]
  {
    out := [];
    if !Visible(db, id, view) {
      return;
    }
    var reps, scanned := RosterRepresentatives(db, id, view), Limit(order);
    var e := db.events[id];
    ghost var full := FullRoster(db, id, view, order);
    for i := 0 to |scanned|
      invariant out == full[..i]
    {
      assert scanned[i] == order[i] && order[i] in order;
      var m := reps[scanned[i]];
      var eff := ComputeEffective(Explicit(db, id, m.user), AbsenceCovers(db, e, m.user, m.team), e.mode);
      out := out + [RosterRow(m.id, m.user, eff)];
    }
    forall i | 0 <= i < |out|
      ensures out[i].user == order[i] && (RangesOrdered(db) ==> RowFits(db, id, view, out[i]))
    {
      assert order[i] in order && out[i] == full[i];
      RepresentedBy(db, id, view, order[i]);
      if RangesOrdered(db) {
        RosterRowFits(db, id, view, order[i]);
      }
    }
  }

  function CountRows(rows: seq<RosterRow>, s: Status): nat {
    if rows == [] then 0
    else CountRows(rows[..|rows| - 1], s) + (if rows[|rows| - 1].effective.status == s then 1 else 0)
  }

  /** rows lists each user of `statuses` once, with that status. */
  ghost predicate Lists(rows: seq<RosterRow>, statuses: map<UserId, Status>) {
    && (forall i :: 0 <= i < |rows| ==> rows[i].user in statuses && statuses[rows[i].user] == rows[i].effective.status)
    && (forall i, j :: 0 <= i < j < |rows| ==> rows[i].user != rows[j].user)
    && (forall u :: u in statuses ==> exists i :: 0 <= i < |rows| && rows[i].user == u)
  }

  lemma ListsWithoutLast(rows: seq<RosterRow>, statuses: map<UserId, Status>)
    requires Lists(rows, statuses) && rows != []
    ensures Lists(rows[..|rows| - 1], statuses - {rows[|rows| - 1].user})
  {
  }

  lemma KeysWithout(statuses: map<UserId, Status>, u: UserId)
    requires u in statuses
    ensures |statuses| == |statuses - {u}| + 1
  {
  }

  lemma CountedWithout(statuses: map<UserId, Status>, u: UserId, s: Status)
    requires u in statuses
    ensures Counted(statuses, s) == Counted(statuses - {u}, s) + (if statuses[u] == s then 1 else 0)
    ensures |statuses| == |statuses - {u}| + 1
  {
    var rest := statuses - {u};
    assert WithStatus(statuses, s) == WithStatus(rest, s) + (if statuses[u] == s then {u} else {});
    assert u !in WithStatus(rest, s);
    KeysWithout(statuses, u);
  }

  lemma {:induction false} CountRowsIsCardinality(rows: seq<RosterRow>, statuses: map<UserId, Status>, s: Status)
    requires Lists(rows, statuses)
    ensures CountRows(rows, s) == Counted(statuses, s) && |rows| == |statuses|
    decreases |rows|
  {
    if rows == [] {
      assert forall u :: u !in statuses;
      assert statuses == map[];
      assert WithStatus(statuses, s) == {};
    } else {
      var init, last := rows[..|rows| - 1], rows[|rows| - 1];
      var rest := statuses - {last.user};
      ListsWithoutLast(rows, statuses);
      CountRowsIsCardinality(init, rest, s);
      CountedWithout(statuses, last.user, s);
    }
  }

  lemma RosterLists(db: Db, id: EventId, view: TeamId, order: seq<UserId>)
    requires MembersUnique(db.members) && Visible(db, id, view)
    requires Enumerates(order, RosterRepresentatives(db, id, view))
    ensures Lists(FullRoster(db, id, view, order), Statuses(db, id, HeaderRepresentatives(db, id, view)))
  {
    SameRepresentatives(db, id, view);
    var reps, rows := RosterRepresentatives(db, id, view), FullRoster(db, id, view, order);
    var statuses := Statuses(db, id, reps);
    DistinctOnKeeps(RosterRows(db, id, db.eventTeams), view);
    forall i | 0 <= i < |rows|
      ensures rows[i].user == order[i] && rows[i].user in statuses && statuses[rows[i].user] == rows[i].effective.status
    {
      assert order[i] in order;
      var m := reps[order[i]];
      SqlAndGoAgree(Explicit(db, id, m.user), AbsenceCovers(db, db.events[id], m.user, m.team), db.events[id].mode);
    }
    forall u | u in statuses ensures exists i :: 0 <= i < |rows| && rows[i].user == u {
      assert u in order;
      var i :| 0 <= i < |order| && order[i] == u;
      assert rows[i].user == u;
    }
  }

  /**
    Roster and header agree on a visible event: counting the roster rows by status gives
    the header's counts, whatever the row order of the tables and of the listing.
   */
  lemma RosterMatchesHeader(db: Db, id: EventId, view: TeamId, order: seq<UserId>)
    requires MembersUnique(db.members) && Visible(db, id, view)
    requires Enumerates(order, RosterRepresentatives(db, id, view))
    ensures var rows, head := FullRoster(db, id, view, order), GetAttendanceSummary(db, id, view);
      && |rows| == head.total
      && CountRows(rows, Yes) == head.yes && CountRows(rows, No) == head.no && CountRows(rows, Maybe) == head.maybe
      && CountRows(rows, Pending) == head.pending && CountRows(rows, NotNominated) == head.notNominated
      && head.yes + head.no + head.maybe + head.pending + head.notNominated == head.total
      && head.nominated + head.notNominated == head.total
  {
    var rows := FullRoster(db, id, view, order);
    var statuses := Statuses(db, id, HeaderRepresentatives(db, id, view));
    RosterLists(db, id, view, order);
    CountRowsIsCardinality(rows, statuses, Yes);
    CountRowsIsCardinality(rows, statuses, No);
    CountRowsIsCardinality(rows, statuses, Maybe);
    CountRowsIsCardinality(rows, statuses, Pending);
    CountRowsIsCardinality(rows, statuses, NotNominated);
    CountsAddUp(statuses);
  }

  /**
    The listing is the whole roster, and so has as many rows as the header's total, exactly when the roster fits
    under the cap.
   */
  lemma ListedExactlyWithinCap(db: Db, id: EventId, view: TeamId, order: seq<UserId>)
    requires MembersUnique(db.members) && Visible(db, id, view)
    requires Enumerates(order, RosterRepresentatives(db, id, view))
    ensures |Limit(order)| == GetAttendanceSummary(db, id, view).total
       <==> GetAttendanceSummary(db, id, view).total <= MAX_ATTENDANCE_ROWS
    ensures GetAttendanceSummary(db, id, view).total <= MAX_ATTENDANCE_ROWS ==> Limit(order) == order
  {
    RosterMatchesHeader(db, id, view, order);
  }

  // ----- "My" status -----

  function GetMyEffectiveAttendance(db: Db, id: EventId, user: UserId, view: TeamId): Option<Effective> {
    if Visible(db, id, view) then
      Some(ComputeEffective(Explicit(db, id, user), AbsenceCovers(db, db.events[id], user, view), db.events[id].mode))
    else None
  }

  predicate IsMyRow(db: Db, id: EventId, view: TeamId, me: Member, row: RosterRow) {
    && row.membership == me.id && row.user == me.user
    && GetMyEffectiveAttendance(db, id, me.user, view) == Some(row.effective)
  }

  /** A member of the viewing team sees, as their own status, exactly their row of the roster. */
  lemma MyStatusIsMyRosterRow(db: Db, id: EventId, view: TeamId, order: seq<UserId>, me: Member)
    requires MembersUnique(db.members) && Visible(db, id, view)
    requires Enumerates(order, RosterRepresentatives(db, id, view))
    requires me in db.members && me.team == view
    ensures var rows := FullRoster(db, id, view, order);
      exists i :: 0 <= i < |order| && order[i] == me.user && IsMyRow(db, id, view, me, rows[i])
  {
    ViewerIsRepresentedByViewingTeam(db, id, view, me);
    assert me.user in order;
    var i :| 0 <= i < |order| && order[i] == me.user;
    assert FullRoster(db, id, view, order)[i] == RosterRowOf(db, db.events[id], id, me);
  }

  /** The batched variant, as the loop over the rows of its one query (events in `ids`, with no visibility filter). */
  method GetMyEffectiveAttendances(db: Db, rows: seq<EventId>, user: UserId, view: TeamId)
    returns (out: map<EventId, Effective>)
    requires forall i :: 0 <= i < |rows| ==> rows[i] in db.events
    ensures out.Keys == set id | id in rows
    ensures forall i :: 0 <= i < |rows| && Targets(db, rows[i], view) ==>
      rows[i] in out && GetMyEffectiveAttendance(db, rows[i], user, view) == Some(out[rows[i]])
  {
    out := map[];
    for i := 0 to |rows|
      invariant out.Keys == set id | id in rows[..i]
      invariant forall id :: id in out ==> id in db.events
      invariant forall id :: id in out && Targets(db, id, view) ==>
        GetMyEffectiveAttendance(db, id, user, view) == Some(out[id])
    {
      var e := db.events[rows[i]];
      assert rows[..i + 1] == rows[..i] + [rows[i]];
      out := out[rows[i] := ComputeEffective(Explicit(db, rows[i], user), AbsenceCovers(db, e, user, view), e.mode)];
    }
    assert rows[..|rows|] == rows;
  }
}
