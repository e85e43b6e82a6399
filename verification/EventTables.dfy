/**
  The events, event_series and event_teams tables, and what each repository operation
  does to them: create, create series, update, set status and delete, with single and
  series scope. `today` is CURRENT_DATE. A failed operation leaves the tables alone.
 */
module EventTables {
  import opened Wrappers
  import opened SeriesDates

  type EventId = int
  type SeriesId = int
  type TeamId = int
  type Minute = int

  datatype Status = Active | Cancelled
  datatype Scope = Single | Series

  /** Descriptive columns that no rule below looks at. */
  datatype Column =
    Type | Title | Location | Note | MeetTime | MeetTimeMandatory | ResponseMode | NominatedRoles | CancelLead

  datatype Event = Event(team: TeamId, series: Option<SeriesId>, details: map<Column, string>, date: Day,
                         endDate: Option<Day>, startTime: Option<Minute>, endTime: Option<Minute>,
                         status: Status, excludeFromStats: bool)

  datatype Store = Store(events: map<EventId, Event>, series: map<SeriesId, TeamId>,
                         targets: set<(EventId, TeamId)>, teams: set<TeamId>)

  datatype NewEvent = NewEvent(details: map<Column, string>, date: Day, endDate: Option<Day>, startTime: Option<Minute>,
                               endTime: Option<Minute>, excludeFromStats: bool, crossTeams: seq<TeamId>,
                               repeatEnd: Option<Day>, repeatWeeks: int)

  /** A partial update: a field that is None (or a column that is absent) is left alone. */
  datatype Patch = Patch(details: map<Column, string>, date: Option<Day>, endDate: Option<Day>, clearEndDate: bool,
                         startTime: Option<Option<Minute>>, endTime: Option<Option<Minute>>,
                         excludeFromStats: Option<bool>, crossTeams: Option<seq<TeamId>>)

  datatype Error = NotFound | UnknownTeam | CheckViolation | MultiDayEndDateOnSeriesEvent

  const MAX_SPAN_DAYS := 1095

  /** The CHECK constraints of the events table. */
  predicate ChecksOk(e: Event) {
    && (e.startTime.Some? && e.endTime.Some? ==> e.endTime.value > e.startTime.value)
    && (e.endDate.Some? ==> e.date <= e.endDate.value && e.endDate.value - e.date <= MAX_SPAN_DAYS)
  }

  predicate TeamsExist(s: Store, ids: seq<TeamId>) {
    forall t <- ids :: t in s.teams
  }

  /** The owning team together with the cross teams. */
  function TargetSet(owner: TeamId, extra: seq<TeamId>): set<TeamId> {
    {owner} + set t | t in extra
  }

  function Pairs(ids: set<EventId>, teams: set<TeamId>): set<(EventId, TeamId)> {
    set e, t | e in ids && t in teams :: (e, t)
  }

  function Without(targets: set<(EventId, TeamId)>, ids: set<EventId>): set<(EventId, TeamId)> {
    set p | p in targets && p.0 !in ids
  }

  predicate Owned(s: Store, id: EventId, team: TeamId) {
    id in s.events && s.events[id].team == team
  }

  predicate Targeted(s: Store, id: EventId, team: TeamId) {
    id in s.events && (id, team) in s.targets
  }

  // ----- Create -----

  function Inserted(team: TeamId, series: Option<SeriesId>, p: NewEvent, date: Day, endDate: Option<Day>): Event {
    Event(team, series, p.details, date, endDate, p.startTime, p.endTime, Active, p.excludeFromStats)
  }

  function CreateEvent(s: Store, id: EventId, team: TeamId, p: NewEvent): Result<Store, Error> {
    var e := Inserted(team, None, p, p.date, p.endDate);
    if !TeamsExist(s, p.crossTeams) || team !in s.teams then Err(UnknownTeam)
    else if !ChecksOk(e) then Err(CheckViolation)
    else Ok(s.(events := s.events[id := e], targets := s.targets + Pairs({id}, TargetSet(team, p.crossTeams))))
  }

  function Occurrences(p: NewEvent): seq<Day> {
    Weekly(p.date, OccurrenceCount(p.date, p.repeatEnd, p.repeatWeeks))
  }

  /** One row per date, the i-th with the i-th fresh id. */
  function WithOccurrences(events: map<EventId, Event>, ids: seq<EventId>, dates: seq<Day>,
                           row: Event): map<EventId, Event>
    requires |ids| == |dates|
  {
    if ids == [] then events
    else
      var n := |ids| - 1;
      WithOccurrences(events, ids[..n], dates[..n], row)[ids[n] := row.(date := dates[n])]
  }

  function IdSet(ids: seq<EventId>): set<EventId> {
    set id | id in ids
  }

  function CreateSeries(s: Store, sid: SeriesId, ids: seq<EventId>, team: TeamId, p: NewEvent): Result<Store, Error>
    requires |ids| == |Occurrences(p)|
  {
    var row := Inserted(team, Some(sid), p, p.date, None);
    if !TeamsExist(s, p.crossTeams) || team !in s.teams then Err(UnknownTeam)
    else if !ChecksOk(row) then Err(CheckViolation)
    else Ok(s.(events := WithOccurrences(s.events, ids, Occurrences(p), row), series := s.series[sid := team],
               targets := s.targets + Pairs(IdSet(ids), TargetSet(team, p.crossTeams))))
  }

  // ----- Update -----

  /** buildEventUpdateSets' ok: the patch sets some column of the events table. */
  predicate SetsColumns(p: Patch) {
    p.details != map[] || p.date.Some? || p.endDate.Some? || p.clearEndDate || p.startTime.Some? || p.endTime.Some?
    || p.excludeFromStats.Some?
  }

  function Patched(e: Event, p: Patch): Event {
    e.(details := e.details + p.details,
       date := p.date.GetOr(e.date),
       endDate := if p.clearEndDate then None else if p.endDate.Some? then p.endDate else e.endDate,
       startTime := p.startTime.GetOr(e.startTime), endTime := p.endTime.GetOr(e.endTime),
       excludeFromStats := p.excludeFromStats.GetOr(e.excludeFromStats))
  }

  /** The part of a patch that may apply to every occurrence of a series. */
  function SeriesPart(p: Patch): Patch {
    p.(date := None, endDate := None, clearEndDate := false)
  }

  predicate InSeries(e: Event, sid: SeriesId) {
    e.series == Some(sid)
  }

  /** updateSeriesEvents: today's and later occurrences take the patch; past ones only its statistics flag. */
  function SeriesPatched(e: Event, sid: SeriesId, p: Patch, today: Day): Event {
    if !InSeries(e, sid) || !SetsColumns(SeriesPart(p)) then e
    else if e.date >= today then Patched(e, SeriesPart(p))
    else e.(excludeFromStats := p.excludeFromStats.GetOr(e.excludeFromStats))
  }

  function UpdateSeriesEvents(s: Store, sid: SeriesId, p: Patch, today: Day): Result<Store, Error> {
    var after := map id | id in s.events :: SeriesPatched(s.events[id], sid, p, today);
    if exists id <- s.events :: InSeries(s.events[id], sid) && !ChecksOk(after[id]) then Err(CheckViolation)
    else Ok(s.(events := after))
  }

  function ReplaceTargets(s: Store, ids: set<EventId>, team: TeamId, extra: seq<TeamId>): Store {
    s.(targets := Without(s.targets, ids) + Pairs(ids, TargetSet(team, extra)))
  }

  function SeriesIds(s: Store, sid: SeriesId): set<EventId> {
    set id | id in s.events && InSeries(s.events[id], sid)
  }

  /** applySeriesScopedUpdate. */
  function SeriesScopedUpdate(s: Store, id: EventId, team: TeamId, p: Patch, scope: Scope,
                              today: Day): Result<Store, Error> {
    if scope != Series && p.endDate.None? then Ok(s)
    else if !Owned(s, id, team) then Err(NotFound)
    else
      match s.events[id].series
      case None => Ok(s)
      case Some(sid) =>
        if p.endDate.Some? then Err(MultiDayEndDateOnSeriesEvent)
        else
          match UpdateSeriesEvents(s, sid, p, today)
          case Err(e) => Err(e)
          case Ok(s1) =>
            Ok(if p.crossTeams.Some? then ReplaceTargets(s1, SeriesIds(s1, sid), team, p.crossTeams.value) else s1)
  }

  /** writeOrReadSingleEvent and the event's own target replacement. */
  function SingleUpdate(s: Store, id: EventId, team: TeamId, p: Patch): Result<Store, Error> {
    if !Owned(s, id, team) then Err(NotFound)
    else if !ChecksOk(Patched(s.events[id], p)) then Err(CheckViolation)
    else
      var s1 := s.(events := s.events[id := Patched(s.events[id], p)]);
      Ok(if p.crossTeams.Some? then ReplaceTargets(s1, {id}, team, p.crossTeams.value) else s1)
  }

  function UpdateEvent(s: Store, id: EventId, team: TeamId, p: Patch, scope: Scope, today: Day): Result<Store, Error> {
    if p.crossTeams.Some? && !TeamsExist(s, p.crossTeams.value) then Err(UnknownTeam)
    else
      match SeriesScopedUpdate(s, id, team, p, scope, today)
      case Err(e) => Err(e)
      case Ok(s1) => SingleUpdate(s1, id, team, p)
  }

  // ----- Set status -----

  function SeriesStatus(s: Store, sid: SeriesId, team: TeamId, status: Status, today: Day): Store {
    s.(events := map id | id in s.events ::
         var e := s.events[id];
         if InSeries(e, sid) && e.date >= today && Targeted(s, id, team) then e.(status := status) else e)
  }

  function SetStatus(s: Store, id: EventId, team: TeamId, status: Status, scope: Scope,
                     today: Day): Result<Store, Error> {
    if !Targeted(s, id, team) then Err(NotFound)
    else
      var s1 := if scope == Series && s.events[id].series.Some?
                then SeriesStatus(s, s.events[id].series.value, team, status, today) else s;
      Ok(s1.(events := s1.events[id := s1.events[id].(status := status)]))
  }

  // ----- Delete -----

  /** Deleting event rows cascades to their target rows. */
  function Removed(s: Store, ids: set<EventId>): Store {
    s.(events := s.events - ids, targets := Without(s.targets, ids))
  }

  /** DELETE FROM event_series WHERE nothing refers to it; the foreign key would set series_id to NULL. */
  function DropSeriesIfEmpty(s: Store, sid: SeriesId): Store {
    if exists id <- s.events :: InSeries(s.events[id], sid) then s
    else s.(series := s.series - {sid},
            events := map id | id in s.events ::
              var e := s.events[id]; if InSeries(e, sid) then e.(series := None) else e)
  }

  function DeleteEvent(s: Store, id: EventId, team: TeamId, scope: Scope, today: Day): Result<Store, Error> {
    if !Owned(s, id, team) then Err(NotFound)
    else if scope == Series && s.events[id].series.Some? then
      var sid := s.events[id].series.value;
      var remaining := set q | q in s.events && InSeries(s.events[q], sid)
                               && s.events[q].team == team && s.events[q].date >= today;
      Ok(DropSeriesIfEmpty(Removed(Removed(s, remaining), {id}), sid))
    else Ok(Removed(s, {id}))
  }

  // ----- The store invariant -----

  ghost predicate EventOk(s: Store, id: EventId)
    requires id in s.events
  {
    var e := s.events[id];
    && ChecksOk(e)
    && (id, e.team) in s.targets
    && (e.series.Some? ==> e.series.value in s.series && s.series[e.series.value] == e.team)
    && (e.endDate.Some? ==> e.series.None?)
  }

  ghost predicate Inv(s: Store) {
    && (forall id :: id in s.events ==> EventOk(s, id))
    && (forall p :: p in s.targets ==> p.0 in s.events && p.1 in s.teams)
  }

  // ----- Every operation keeps it -----

  lemma CreateEventKeepsInv(s: Store, id: EventId, team: TeamId, p: NewEvent)
    requires Inv(s) && id !in s.events && CreateEvent(s, id, team, p).Ok?
    ensures Inv(CreateEvent(s, id, team, p).value)
  {
  }

  lemma {:induction false} OccurrencesAdded(events: map<EventId, Event>, ids: seq<EventId>, dates: seq<Day>, row: Event)
    requires |ids| == |dates|
    ensures WithOccurrences(events, ids, dates, row).Keys == events.Keys + IdSet(ids)
    ensures forall id :: id in events && id !in ids ==> WithOccurrences(events, ids, dates, row)[id] == events[id]
    ensures forall id :: id in ids ==> WithOccurrences(events, ids, dates, row)[id].(date := row.date) == row
  {
    if ids != [] {
      var n := |ids| - 1;
      OccurrencesAdded(events, ids[..n], dates[..n], row);
      assert ids == ids[..n] + [ids[n]];
    }
  }

  /** With distinct fresh ids, the i-th id carries the i-th date. */
  lemma {:induction false} OccurrenceAt(events: map<EventId, Event>, ids: seq<EventId>, dates: seq<Day>, row: Event,
                                        i: nat)
    requires |ids| == |dates| && i < |ids| && forall j, k :: 0 <= j < k < |ids| ==> ids[j] != ids[k]
    ensures ids[i] in WithOccurrences(events, ids, dates, row)
    ensures WithOccurrences(events, ids, dates, row)[ids[i]] == row.(date := dates[i])
  {
    var n := |ids| - 1;
    if i < n {
      OccurrenceAt(events, ids[..n], dates[..n], row, i);
    }
  }

  lemma CreateSeriesKeepsInv(s: Store, sid: SeriesId, ids: seq<EventId>, team: TeamId, p: NewEvent)
    requires Inv(s) && sid !in s.series && (forall id <- ids :: id !in s.events) && |ids| == |Occurrences(p)|
    requires CreateSeries(s, sid, ids, team, p).Ok?
    ensures Inv(CreateSeries(s, sid, ids, team, p).value)
  {
    var after := CreateSeries(s, sid, ids, team, p).value;
    var row := Inserted(team, Some(sid), p, p.date, None);
    OccurrencesAdded(s.events, ids, Occurrences(p), row);
    forall id | id in after.events ensures EventOk(after, id) {
      if id in ids {
        var e := after.events[id];
        assert e.(date := row.date) == row;
        assert e.team == team && e.series == Some(sid) && e.endDate == None;
      } else {
        assert EventOk(s, id);
      }
    }
  }

  lemma ReplaceTargetsKeepsInv(s: Store, ids: set<EventId>, team: TeamId, extra: seq<TeamId>)
    requires Inv(s) && team in s.teams && TeamsExist(s, extra)
    requires forall id :: id in ids ==> id in s.events && s.events[id].team == team
    ensures Inv(ReplaceTargets(s, ids, team, extra))
  {
  }

  lemma UpdateSeriesKeepsInv(s: Store, sid: SeriesId, p: Patch, today: Day)
    requires Inv(s) && UpdateSeriesEvents(s, sid, p, today).Ok?
    ensures Inv(UpdateSeriesEvents(s, sid, p, today).value)
  {
  }

  /** Every occurrence of an owned event's series is owned by the same team. */
  lemma SeriesHasOneOwner(s: Store, id: EventId, team: TeamId, sid: SeriesId)
    requires Inv(s) && Owned(s, id, team) && s.events[id].series == Some(sid)
    ensures forall q :: q in SeriesIds(s, sid) ==> s.events[q].team == team
  {
  }

  lemma SeriesScopedUpdateKeepsInv(s: Store, id: EventId, team: TeamId, p: Patch, scope: Scope, today: Day)
    requires Inv(s) && (p.crossTeams.Some? ==> TeamsExist(s, p.crossTeams.value))
    requires SeriesScopedUpdate(s, id, team, p, scope, today).Ok?
    ensures var after := SeriesScopedUpdate(s, id, team, p, scope, today).value;
      && Inv(after) && after.teams == s.teams
      && (id in after.events ==> id in s.events && after.events[id].series == s.events[id].series)
  {
    if (scope == Series || p.endDate.Some?) && s.events[id].series.Some? {
      var sid := s.events[id].series.value;
      UpdateSeriesKeepsInv(s, sid, p, today);
      var s1 := UpdateSeriesEvents(s, sid, p, today).value;
      if p.crossTeams.Some? {
        SeriesHasOneOwner(s1, id, team, sid);
        assert EventOk(s1, id);
        ReplaceTargetsKeepsInv(s1, SeriesIds(s1, sid), team, p.crossTeams.value);
      }
    }
  }

  lemma SingleUpdateKeepsInv(s: Store, id: EventId, team: TeamId, p: Patch)
    requires Inv(s) && (p.crossTeams.Some? ==> TeamsExist(s, p.crossTeams.value))
    requires SingleUpdate(s, id, team, p).Ok?
    requires p.endDate.Some? && !p.clearEndDate ==> s.events[id].series.None?
    ensures Inv(SingleUpdate(s, id, team, p).value)
  {
  }

  lemma UpdateEventKeepsInv(s: Store, id: EventId, team: TeamId, p: Patch, scope: Scope, today: Day)
    requires Inv(s) && UpdateEvent(s, id, team, p, scope, today).Ok?
    ensures Inv(UpdateEvent(s, id, team, p, scope, today).value)
  {
    SeriesScopedUpdateKeepsInv(s, id, team, p, scope, today);
    var s1 := SeriesScopedUpdate(s, id, team, p, scope, today).value;
    SingleUpdateKeepsInv(s1, id, team, p);
  }

  lemma SetStatusKeepsInv(s: Store, id: EventId, team: TeamId, status: Status, scope: Scope, today: Day)
    requires Inv(s) && SetStatus(s, id, team, status, scope, today).Ok?
    ensures Inv(SetStatus(s, id, team, status, scope, today).value)
  {
  }

  lemma DeleteEventKeepsInv(s: Store, id: EventId, team: TeamId, scope: Scope, today: Day)
    requires Inv(s) && DeleteEvent(s, id, team, scope, today).Ok?
    ensures Inv(DeleteEvent(s, id, team, scope, today).value)
  {
  }
}
