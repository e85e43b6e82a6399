/**
  The header counts and a member's own status in the fields of the rows: which membership stands for
  a user, and what counts for a user who has not responded.
 */
module AttendanceFields {
  import opened Wrappers
  import opened Attendance

  /** The users who count with a status. */
  ghost function UsersCounting(db: Db, id: EventId, view: TeamId, status: Status): set<UserId>
    requires id in db.events
  {
    set m | m in db.members && StandsFor(db, id, view, m) && CountsAs(db, id, m.user, m.team, status) :: m.user
  }

  lemma StatusCounts(db: Db, id: EventId, view: TeamId, u: UserId)
    requires RangesOrdered(db) && MembersUnique(db.members) && id in db.events
    requires u in HeaderRepresentatives(db, id, view)
    ensures var m := HeaderRepresentatives(db, id, view)[u];
      && StandsFor(db, id, view, m) && m.user == u
      && CountsAs(db, id, u, m.team, Statuses(db, id, HeaderRepresentatives(db, id, view))[u])
  {
    SameRepresentatives(db, id, view);
    RepresentedBy(db, id, view, u);
    AbsenceCoversExactly(db, id, u, HeaderRepresentatives(db, id, view)[u].team);
  }

  lemma CountedAreCounting(db: Db, id: EventId, view: TeamId, status: Status)
    requires RangesOrdered(db) && MembersUnique(db.members) && id in db.events
    ensures WithStatus(Statuses(db, id, HeaderRepresentatives(db, id, view)), status)
         == UsersCounting(db, id, view, status)
  {
    var reps := HeaderRepresentatives(db, id, view);
    var statuses := Statuses(db, id, reps);
    forall u | u in WithStatus(statuses, status) ensures u in UsersCounting(db, id, view, status) {
      StatusCounts(db, id, view, u);
      assert reps[u] in db.members;
    }
    forall u | u in UsersCounting(db, id, view, status) ensures u in WithStatus(statuses, status) {
      var m :| m in db.members && StandsFor(db, id, view, m) && CountsAs(db, id, m.user, m.team, status)
               && m.user == u;
      SameRepresentatives(db, id, view);
      StandingIsRepresenting(db, id, view, m);
      StatusCounts(db, id, view, u);
    }
  }

  /** The header of a visible event counts, for each status, the users who count with it; else it is all zeros. */
  lemma HeaderCountsUsers(db: Db, id: EventId, view: TeamId)
    requires RangesOrdered(db) && MembersUnique(db.members)
    ensures var s := GetAttendanceSummary(db, id, view);
      if id in db.events && (id, view) in db.eventTeams then
        && s.yes == |UsersCounting(db, id, view, Yes)| && s.no == |UsersCounting(db, id, view, No)|
        && s.maybe == |UsersCounting(db, id, view, Maybe)| && s.pending == |UsersCounting(db, id, view, Pending)|
        && s.notNominated == |UsersCounting(db, id, view, NotNominated)|
        && s.nominated == s.yes + s.no + s.maybe + s.pending
        && s.total == s.nominated + s.notNominated
      else
        s == Summary(0, 0, 0, 0, 0, 0, 0)
  {
    if Visible(db, id, view) {
      CountedAreCounting(db, id, view, Yes);
      CountedAreCounting(db, id, view, No);
      CountedAreCounting(db, id, view, Maybe);
      CountedAreCounting(db, id, view, Pending);
      CountedAreCounting(db, id, view, NotNominated);
      CountsAddUp(Statuses(db, id, HeaderRepresentatives(db, id, view)));
    }
  }

  /**
    A represented user without a response counts as "no" exactly when an absence of theirs, in the team of the
    membership that stands for them, shares a day with the event.
   */
  lemma SilentNoExactly(db: Db, id: EventId, view: TeamId, m: Member)
    requires RangesOrdered(db) && MembersUnique(db.members) && id in db.events
    requires StandsFor(db, id, view, m) && (id, m.user) !in db.responses
    ensures m.user in WithStatus(Statuses(db, id, HeaderRepresentatives(db, id, view)), No)
       <==> exists ab, day :: ab in db.absences && ab.user == m.user && ab.team == m.team
                              && SharedDay(db.events[id], ab, day)
  {
    SameRepresentatives(db, id, view);
    StandingIsRepresenting(db, id, view, m);
    StatusCounts(db, id, view, m.user);
  }

  /** One's own status on a visible event is what counts for one as a member of the viewing team. */
  lemma MyStatusCounts(db: Db, id: EventId, user: UserId, view: TeamId)
    requires RangesOrdered(db)
    ensures var mine := GetMyEffectiveAttendance(db, id, user, view);
      if id in db.events && (id, view) in db.eventTeams then
        mine.Some? && EffectiveFits(db, id, user, view, mine.value)
      else
        mine.None?
  {
    if Visible(db, id, view) {
      ComputedFits(db, id, user, view);
    }
  }
}
