/**
  What the event operations do and refuse, said field by field of the rows: which columns an
  update sets and which it leaves, what a created event or series looks like, and when a CHECK
  constraint rejects the result.
 */
module EventFields {
  import opened Wrappers
  import opened SeriesDates
  import opened EventTables

  // ----- Columns -----

  /** Every column of the patch has the patch's value, every other one the value it had, or still none. */
  predicate ColumnsTake(before: map<Column, string>, patch: map<Column, string>, after: map<Column, string>) {
    forall c: Column ::
      && (c in patch ==> c in after && after[c] == patch[c])
      && (c !in patch ==> (c in after <==> c in before))
      && (c !in patch && c in before ==> after[c] == before[c])
  }

  /** What an update never touches. */
  predicate SameIdentity(before: Event, after: Event) {
    after.team == before.team && after.series == before.series && after.status == before.status
  }

  /** The fields that apply to every occurrence alike. */
  predicate TakesCommon(before: Event, p: Patch, after: Event) {
    && SameIdentity(before, after)
    && ColumnsTake(before.details, p.details, after.details)
    && (if p.startTime.Some? then after.startTime == p.startTime.value else after.startTime == before.startTime)
    && (if p.endTime.Some? then after.endTime == p.endTime.value else after.endTime == before.endTime)
    && (if p.excludeFromStats.Some? then after.excludeFromStats == p.excludeFromStats.value
        else after.excludeFromStats == before.excludeFromStats)
  }

  /** The addressed event: the common fields, its date and its span; clearing the end date wins over giving one. */
  predicate TakesPatch(before: Event, p: Patch, after: Event) {
    && TakesCommon(before, p, after)
    && (if p.date.Some? then after.date == p.date.value else after.date == before.date)
    && (if p.clearEndDate then after.endDate == None
        else if p.endDate.Some? then after.endDate == p.endDate else after.endDate == before.endDate)
  }

  /** Another occurrence that a series update reaches: date and span are its own. */
  predicate TakesSeriesPart(before: Event, p: Patch, after: Event) {
    TakesCommon(before, p, after) && after.date == before.date && after.endDate == before.endDate
  }

  /** A past occurrence of the series: at most its statistics flag. */
  predicate TakesFlag(before: Event, p: Patch, after: Event) {
    && SameIdentity(before, after) && after.details == before.details
    && after.date == before.date && after.endDate == before.endDate
    && after.startTime == before.startTime && after.endTime == before.endTime
    && (if p.excludeFromStats.Some? then after.excludeFromStats == p.excludeFromStats.value
        else after.excludeFromStats == before.excludeFromStats)
  }

  lemma SameColumns(before: map<Column, string>, patch: map<Column, string>, a: map<Column, string>,
                    b: map<Column, string>)
    requires ColumnsTake(before, patch, a) && ColumnsTake(before, patch, b)
    ensures a == b
  {
    forall c ensures c in a <==> c in b {
    }
    forall c | c in a ensures a[c] == b[c] {
    }
  }

  lemma PatchedTakesPatch(e: Event, p: Patch, after: Event)
    ensures TakesPatch(e, p, after) <==> after == Patched(e, p)
  {
    assert ColumnsTake(e.details, p.details, Patched(e, p).details);
    if TakesPatch(e, p, after) {
      SameColumns(e.details, p.details, after.details, Patched(e, p).details);
    }
  }

  lemma SeriesPartTakesCommon(e: Event, p: Patch, after: Event)
    ensures TakesSeriesPart(e, p, after) <==> after == Patched(e, SeriesPart(p))
  {
    assert ColumnsTake(e.details, p.details, Patched(e, SeriesPart(p)).details);
    if TakesSeriesPart(e, p, after) {
      SameColumns(e.details, p.details, after.details, Patched(e, SeriesPart(p)).details);
    }
  }

  /** A patch that sets no column of a row leaves it as it is. */
  lemma EmptyPatch(e: Event, p: Patch)
    requires !SetsColumns(p)
    ensures Patched(e, p) == e
  {
    assert e.details + map[] == e.details;
  }

  // ----- Update -----

  /** The occurrence belongs to the series a series-wide update goes to. */
  predicate Sibling(s: Store, id: EventId, scope: Scope, q: EventId) {
    && scope == Series && q != id && q in s.events && id in s.events
    && s.events[id].series.Some? && s.events[q].series == s.events[id].series
  }

  predicate UpdatedFieldByField(s: Store, id: EventId, p: Patch, scope: Scope, today: Day, after: Store, q: EventId)
    requires id in s.events && q in s.events && q in after.events
  {
    if q == id then TakesPatch(s.events[q], p, after.events[q])
    else if !Sibling(s, id, scope, q) then after.events[q] == s.events[q]
    else if s.events[q].date >= today then TakesSeriesPart(s.events[q], p, after.events[q])
    else TakesFlag(s.events[q], p, after.events[q])
  }

  lemma SeriesPatchTwice(e: Event, sid: SeriesId, p: Patch, today: Day)
    ensures Patched(SeriesPatched(e, sid, p, today), p) == Patched(e, p)
  {
    assert e.details + p.details + p.details == e.details + p.details;
  }

  lemma SiblingFieldByField(e: Event, sid: SeriesId, p: Patch, today: Day)
    requires InSeries(e, sid)
    ensures if e.date >= today then TakesSeriesPart(e, p, SeriesPatched(e, sid, p, today))
            else TakesFlag(e, p, SeriesPatched(e, sid, p, today))
  {
    SeriesPartTakesCommon(e, p, Patched(e, SeriesPart(p)));
    if !SetsColumns(SeriesPart(p)) {
      EmptyPatch(e, SeriesPart(p));
    }
  }

  lemma AddressedFieldByField(s: Store, id: EventId, team: TeamId, p: Patch, scope: Scope, today: Day)
    requires UpdateEvent(s, id, team, p, scope, today).Ok?
    ensures var after := UpdateEvent(s, id, team, p, scope, today).value;
      id in s.events && after.events.Keys == s.events.Keys && TakesPatch(s.events[id], p, after.events[id])
  {
    if scope == Series && s.events[id].series.Some? {
      SeriesPatchTwice(s.events[id], s.events[id].series.value, p, today);
    }
    PatchedTakesPatch(s.events[id], p, UpdateEvent(s, id, team, p, scope, today).value.events[id]);
  }

  /** After an accepted update every row has exactly the fields it should, and no row appears or goes. */
  lemma UpdateFieldByField(s: Store, id: EventId, team: TeamId, p: Patch, scope: Scope, today: Day, q: EventId)
    requires UpdateEvent(s, id, team, p, scope, today).Ok? && q in s.events
    ensures var after := UpdateEvent(s, id, team, p, scope, today).value;
      id in s.events && after.events.Keys == s.events.Keys && UpdatedFieldByField(s, id, p, scope, today, after, q)
  {
    AddressedFieldByField(s, id, team, p, scope, today);
    if Sibling(s, id, scope, q) {
      SiblingFieldByField(s.events[q], s.events[id].series.value, p, today);
    }
  }

  ghost predicate AllUpdated(s: Store, id: EventId, p: Patch, scope: Scope, today: Day, after: Store) {
    && id in s.events && after.events.Keys == s.events.Keys
    && forall q :: q in s.events ==> UpdatedFieldByField(s, id, p, scope, today, after, q)
  }

  lemma UpdateAllFields(s: Store, id: EventId, team: TeamId, p: Patch, scope: Scope, today: Day)
    requires UpdateEvent(s, id, team, p, scope, today).Ok?
    ensures AllUpdated(s, id, p, scope, today, UpdateEvent(s, id, team, p, scope, today).value)
  {
    UpdateFieldByField(s, id, team, p, scope, today, id);
    forall q | q in s.events
      ensures UpdatedFieldByField(s, id, p, scope, today, UpdateEvent(s, id, team, p, scope, today).value, q)
    {
      UpdateFieldByField(s, id, team, p, scope, today, q);
    }
  }

  /** Named cross teams replace the targets of the addressed event and its siblings, and of nothing else. */
  ghost predicate TargetsUpdated(s: Store, id: EventId, team: TeamId, p: Patch, scope: Scope, after: Store) {
    && after.series == s.series && after.teams == s.teams
    && forall q, t :: (q, t) in after.targets <==>
         if p.crossTeams.Some? && (q == id || Sibling(s, id, scope, q)) then t == team || t in p.crossTeams.value
         else (q, t) in s.targets
  }

  lemma UpdateAllTargets(s: Store, id: EventId, team: TeamId, p: Patch, scope: Scope, today: Day)
    requires UpdateEvent(s, id, team, p, scope, today).Ok?
    ensures TargetsUpdated(s, id, team, p, scope, UpdateEvent(s, id, team, p, scope, today).value)
  {
  }

  /** The table's CHECK constraints: times in order, and a span in order and of at most 1095 days. */
  predicate RowValid(e: Event) {
    && (e.startTime.Some? && e.endTime.Some? ==> e.startTime.value < e.endTime.value)
    && (e.endDate.Some? ==> e.date <= e.endDate.value <= e.date + 1095)
  }

  /** The addressed row would break a constraint. */
  ghost predicate BreaksOwn(s: Store, id: EventId, p: Patch)
    requires id in s.events
  {
    exists after :: TakesPatch(s.events[id], p, after) && !RowValid(after)
  }

  /** Some row of the series from today on would break one, before the addressed event gets its own date and span. */
  ghost predicate BreaksSeries(s: Store, id: EventId, p: Patch, today: Day)
    requires id in s.events
  {
    exists q, after ::
      && (q == id || Sibling(s, id, Series, q)) && s.events[q].date >= today
      && TakesSeriesPart(s.events[q], p, after) && !RowValid(after)
  }

  lemma OwnBreaksExactly(s: Store, id: EventId, p: Patch)
    requires id in s.events
    ensures BreaksOwn(s, id, p) <==> !ChecksOk(Patched(s.events[id], p))
  {
    PatchedTakesPatch(s.events[id], p, Patched(s.events[id], p));
    forall after: Event ensures TakesPatch(s.events[id], p, after) <==> after == Patched(s.events[id], p) {
      PatchedTakesPatch(s.events[id], p, after);
    }
  }

  lemma SeriesBreaksExactly(s: Store, id: EventId, p: Patch, today: Day)
    requires Inv(s) && id in s.events && s.events[id].series.Some? && p.endDate.None?
    ensures BreaksSeries(s, id, p, today) <==> UpdateSeriesEvents(s, s.events[id].series.value, p, today).Err?
  {
    var sid := s.events[id].series.value;
    forall q | q in s.events && InSeries(s.events[q], sid)
      ensures !ChecksOk(SeriesPatched(s.events[q], sid, p, today)) <==>
        s.events[q].date >= today && !RowValid(Patched(s.events[q], SeriesPart(p)))
    {
      assert EventOk(s, q);
      if !SetsColumns(SeriesPart(p)) {
        EmptyPatch(s.events[q], SeriesPart(p));
      }
    }
    forall q, after: Event | q in s.events
      ensures TakesSeriesPart(s.events[q], p, after) <==> after == Patched(s.events[q], SeriesPart(p))
    {
      SeriesPartTakesCommon(s.events[q], p, after);
    }
  }

  lemma SeriesAnswersThenSingle(s: Store, id: EventId, team: TeamId, p: Patch, today: Day)
    requires Inv(s) && id in s.events && s.events[id].team == team && s.events[id].series.Some? && p.endDate.None?
    ensures match SeriesScopedUpdate(s, id, team, p, Series, today)
            case Err(e) => e == CheckViolation && BreaksSeries(s, id, p, today)
            case Ok(s1) =>
              && !BreaksSeries(s, id, p, today) && id in s1.events && s1.events[id].team == team
              && (ChecksOk(Patched(s1.events[id], p)) <==> ChecksOk(Patched(s.events[id], p)))
  {
    SeriesBreaksExactly(s, id, p, today);
    SeriesPatchTwice(s.events[id], s.events[id].series.value, p, today);
  }

  predicate KnownTeams(s: Store, p: Patch) {
    p.crossTeams.Some? ==> forall t <- p.crossTeams.value :: t in s.teams
  }

  /** Every answer of UpdateEvent, and exactly when it is given. */
  lemma UpdateAnswers(s: Store, id: EventId, team: TeamId, p: Patch, scope: Scope, today: Day)
    requires Inv(s)
    ensures var answer := UpdateEvent(s, id, team, p, scope, today);
      var owned := id in s.events && s.events[id].team == team;
      && (answer == Err(UnknownTeam) <==> !KnownTeams(s, p))
      && (answer == Err(NotFound) <==> KnownTeams(s, p) && !owned)
      && (answer == Err(MultiDayEndDateOnSeriesEvent) <==>
            KnownTeams(s, p) && owned && s.events[id].series.Some? && p.endDate.Some?)
      && (answer == Err(CheckViolation) <==>
            && KnownTeams(s, p) && owned && !(s.events[id].series.Some? && p.endDate.Some?)
            && (BreaksOwn(s, id, p) || (scope == Series && s.events[id].series.Some? && BreaksSeries(s, id, p, today))))
  {
    if KnownTeams(s, p) && id in s.events && s.events[id].team == team {
      OwnBreaksExactly(s, id, p);
      if scope == Series && s.events[id].series.Some? && p.endDate.None? {
        SeriesAnswersThenSingle(s, id, team, p, today);
      }
    }
  }

  // ----- Create -----

  /** Exactly when an event is created, and what it then looks like. */
  lemma CreateFieldByField(s: Store, id: EventId, team: TeamId, p: NewEvent)
    ensures CreateEvent(s, id, team, p).Ok? <==>
      && team in s.teams && (forall t <- p.crossTeams :: t in s.teams)
      && (p.startTime.Some? && p.endTime.Some? ==> p.startTime.value < p.endTime.value)
      && (p.endDate.Some? ==> p.date <= p.endDate.value <= p.date + 1095)
    ensures CreateEvent(s, id, team, p).Ok? ==>
      var after := CreateEvent(s, id, team, p).value;
      var row := Event(team, None, p.details, p.date, p.endDate, p.startTime, p.endTime, Active, p.excludeFromStats);
      && after.events == s.events[id := row] && after.series == s.series
      && forall q, t :: (q, t) in after.targets <==>
           (q, t) in s.targets || (q == id && (t == team || t in p.crossTeams))
  {
  }

  /** The row of the i-th occurrence. */
  function OccurrenceRow(team: TeamId, sid: SeriesId, p: NewEvent, i: nat): Event {
    Event(team, Some(sid), p.details, p.date + 7 * i, None, p.startTime, p.endTime, Active, p.excludeFromStats)
  }

  /** What a series looks like: a row a week, none with a span, and all with the same targets. */
  lemma SeriesFieldByField(s: Store, sid: SeriesId, ids: seq<EventId>, team: TeamId, p: NewEvent, i: nat)
    requires |ids| == |Occurrences(p)| && i < |ids| && forall j, k :: 0 <= j < k < |ids| ==> ids[j] != ids[k]
    requires CreateSeries(s, sid, ids, team, p).Ok?
    ensures var after := CreateSeries(s, sid, ids, team, p).value;
      && after.series == s.series[sid := team]
      && after.events.Keys == s.events.Keys + (set q | q in ids)
      && ids[i] in after.events && after.events[ids[i]] == OccurrenceRow(team, sid, p, i)
      && (forall q :: q in s.events && q !in ids ==> q in after.events && after.events[q] == s.events[q])
      && forall q, t :: (q, t) in after.targets <==>
           (q, t) in s.targets || (q in ids && (t == team || t in p.crossTeams))
  {
    var row := Inserted(team, Some(sid), p, p.date, None);
    OccurrenceAt(s.events, ids, Occurrences(p), row, i);
    OccurrencesAdded(s.events, ids, Occurrences(p), row);
  }

  ghost predicate SeriesCreated(s: Store, sid: SeriesId, ids: seq<EventId>, team: TeamId, p: NewEvent, after: Store) {
    && after.series == s.series[sid := team]
    && after.events.Keys == s.events.Keys + (set q | q in ids)
    && (forall i :: 0 <= i < |ids| ==> ids[i] in after.events && after.events[ids[i]] == OccurrenceRow(team, sid, p, i))
    && (forall q :: q in s.events && q !in ids ==> after.events[q] == s.events[q])
    && forall q, t :: (q, t) in after.targets <==>
         (q, t) in s.targets || (q in ids && (t == team || t in p.crossTeams))
  }

  lemma SeriesAllFields(s: Store, sid: SeriesId, ids: seq<EventId>, team: TeamId, p: NewEvent)
    requires |ids| == |Occurrences(p)| && forall j, k :: 0 <= j < k < |ids| ==> ids[j] != ids[k]
    requires CreateSeries(s, sid, ids, team, p).Ok?
    ensures SeriesCreated(s, sid, ids, team, p, CreateSeries(s, sid, ids, team, p).value)
  {
    SeriesFieldByField(s, sid, ids, team, p, 0);
    forall i | 0 <= i < |ids|
      ensures var after := CreateSeries(s, sid, ids, team, p).value;
        ids[i] in after.events && after.events[ids[i]] == OccurrenceRow(team, sid, p, i)
    {
      SeriesFieldByField(s, sid, ids, team, p, i);
    }
  }

  /** Exactly when a series is created; a span on the request is ignored. */
  lemma SeriesAnswers(s: Store, sid: SeriesId, ids: seq<EventId>, team: TeamId, p: NewEvent)
    requires |ids| == |Occurrences(p)|
    ensures CreateSeries(s, sid, ids, team, p).Ok? <==>
      && team in s.teams && (forall t <- p.crossTeams :: t in s.teams)
      && (p.startTime.Some? && p.endTime.Some? ==> p.startTime.value < p.endTime.value)
  {
  }

  /** Without an end date a series has the requested number of weeks, at least 1 and at most 104. */
  lemma RequestedWeeks(p: NewEvent)
    requires p.repeatEnd.None?
    ensures 1 <= |Occurrences(p)| <= 104
    ensures 1 <= p.repeatWeeks <= 104 ==> |Occurrences(p)| == p.repeatWeeks
    ensures p.repeatWeeks < 1 ==> |Occurrences(p)| == 1
    ensures p.repeatWeeks > 104 ==> |Occurrences(p)| == 104
  {
  }

  // ----- Set status and delete -----

  /** An occurrence from today on of the series that a series-wide operation goes to. */
  predicate LaterSibling(s: Store, id: EventId, scope: Scope, today: Day, q: EventId) {
    Sibling(s, id, scope, q) && s.events[q].date >= today
  }

  /** The status changes on the addressed event and on its later siblings that target the team; nothing else does. */
  ghost predicate StatusChanged(s: Store, id: EventId, team: TeamId, status: Status, scope: Scope, today: Day,
                                after: Store) {
    && after.events.Keys == s.events.Keys && after.targets == s.targets && after.series == s.series
    && forall q :: q in s.events ==>
         var e := s.events[q];
         var reached := q == id || (LaterSibling(s, id, scope, today, q) && (q, team) in s.targets);
         after.events[q] == Event(e.team, e.series, e.details, e.date, e.endDate, e.startTime, e.endTime,
                                  if reached then status else e.status, e.excludeFromStats)
  }

  lemma SetStatusFieldByField(s: Store, id: EventId, team: TeamId, status: Status, scope: Scope, today: Day)
    ensures SetStatus(s, id, team, status, scope, today).Ok? <==> id in s.events && (id, team) in s.targets
    ensures SetStatus(s, id, team, status, scope, today).Ok? ==>
      StatusChanged(s, id, team, status, scope, today, SetStatus(s, id, team, status, scope, today).value)
  {
  }

  /** The addressed event goes, and its later siblings of the same owner. */
  predicate Goes(s: Store, id: EventId, team: TeamId, scope: Scope, today: Day, q: EventId) {
    q == id || (LaterSibling(s, id, scope, today, q) && s.events[q].team == team)
  }

  /** The rows that go take their targets along, and the series row goes once nothing refers to it. */
  ghost predicate RowsGone(s: Store, id: EventId, team: TeamId, scope: Scope, today: Day, after: Store)
    requires id in s.events
  {
    && (forall q :: q in after.events <==> q in s.events && !Goes(s, id, team, scope, today, q))
    && (forall q :: q in after.events ==> after.events[q] == s.events[q])
    && (forall q, t :: (q, t) in after.targets <==> (q, t) in s.targets && !Goes(s, id, team, scope, today, q))
    && (forall sid :: sid in after.series <==>
          sid in s.series
          && (scope == Series && s.events[id].series == Some(sid) ==>
                exists q :: q in s.events && s.events[q].series == Some(sid) && !Goes(s, id, team, scope, today, q)))
    && (forall sid :: sid in after.series ==> after.series[sid] == s.series[sid])
  }

  lemma DeleteFieldByField(s: Store, id: EventId, team: TeamId, scope: Scope, today: Day)
    ensures DeleteEvent(s, id, team, scope, today).Ok? <==> id in s.events && s.events[id].team == team
    ensures DeleteEvent(s, id, team, scope, today).Ok? ==>
      RowsGone(s, id, team, scope, today, DeleteEvent(s, id, team, scope, today).value)
  {
    if DeleteEvent(s, id, team, scope, today).Ok? {
      var after := DeleteEvent(s, id, team, scope, today).value;
      forall q ensures q in after.events <==> q in s.events && !Goes(s, id, team, scope, today, q) {
      }
    }
  }
}
