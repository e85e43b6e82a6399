/**
  Series-scoped operations preserve history, one operation at a time and over whole
  runs: what happened before today stays as it was, and no surviving occurrence is
  ever detached from its series.
 */
module EventHistory {
  import opened Wrappers
  import opened SeriesDates
  import opened EventTables

  predicate Past(s: Store, q: EventId, today: Day) {
    q in s.events && s.events[q].date < today
  }

  predicate SameTargets(before: Store, after: Store, q: EventId) {
    forall t <- before.teams + after.teams :: (q, t) in before.targets <==> (q, t) in after.targets
  }

  lemma SetStatusKeepsHistory(s: Store, id: EventId, team: TeamId, status: Status, scope: Scope, today: Day, q: EventId)
    requires SetStatus(s, id, team, status, scope, today).Ok? && Past(s, q, today) && q != id
    ensures var after := SetStatus(s, id, team, status, scope, today).value;
      q in after.events && after.events[q] == s.events[q] && after.targets == s.targets
  {
  }

  lemma DeleteKeepsHistory(s: Store, id: EventId, team: TeamId, scope: Scope, today: Day, q: EventId)
    requires Inv(s) && DeleteEvent(s, id, team, scope, today).Ok? && Past(s, q, today) && q != id
    ensures var after := DeleteEvent(s, id, team, scope, today).value;
      q in after.events && after.events[q] == s.events[q] && SameTargets(s, after, q)
  {
  }

  /** A survivor keeps its series: the SET NULL of the foreign key never fires. */
  lemma DeleteNeverDetaches(s: Store, id: EventId, team: TeamId, scope: Scope, today: Day, q: EventId)
    requires DeleteEvent(s, id, team, scope, today).Ok?
    requires q in DeleteEvent(s, id, team, scope, today).value.events
    ensures q in s.events && DeleteEvent(s, id, team, scope, today).value.events[q] == s.events[q]
  {
  }

  /**
    Exactly the addressed event and its series' occurrences from today on go, and the series row goes exactly when
    none is left.
   */
  lemma SeriesDeleteIsExact(s: Store, id: EventId, team: TeamId, sid: SeriesId, today: Day)
    requires Inv(s) && DeleteEvent(s, id, team, Series, today).Ok? && s.events[id].series == Some(sid)
    ensures var after := DeleteEvent(s, id, team, Series, today).value;
      && (forall q :: q in after.events <==>
            q in s.events && q != id && !(InSeries(s.events[q], sid) && s.events[q].date >= today))
      && (sid in after.series <==> exists q :: q in after.events && InSeries(after.events[q], sid))
      && (forall other :: other != sid ==> (other in after.series <==> other in s.series))
  {
  }

  /**
    An update changes a past occurrence of the series only in its statistics flag and, if asked to, its target
    teams.
   */
  lemma UpdateKeepsHistory(s: Store, id: EventId, team: TeamId, p: Patch, scope: Scope, today: Day, q: EventId)
    requires UpdateEvent(s, id, team, p, scope, today).Ok? && Past(s, q, today) && q != id
    ensures var after := UpdateEvent(s, id, team, p, scope, today).value;
      var reached := scope == Series && s.events[id].series.Some? && s.events[q].series == s.events[id].series;
      && q in after.events
      && after.events[q] == s.events[q].(excludeFromStats :=
           if reached then p.excludeFromStats.GetOr(s.events[q].excludeFromStats) else s.events[q].excludeFromStats)
      && (!reached || p.crossTeams.None? ==> SameTargets(s, after, q))
  {
  }

  /** A series update reaches every other occurrence from today on, with everything but the date and the span. */
  lemma SeriesUpdateReaches(s: Store, id: EventId, team: TeamId, p: Patch, today: Day, q: EventId)
    requires UpdateEvent(s, id, team, p, Series, today).Ok? && s.events[id].series.Some?
    requires q in s.events && q != id && s.events[q].series == s.events[id].series && s.events[q].date >= today
    ensures var after := UpdateEvent(s, id, team, p, Series, today).value;
      q in after.events && after.events[q] == Patched(s.events[q], SeriesPart(p))
      && after.events[q].date == s.events[q].date && after.events[q].endDate == s.events[q].endDate
  {
  }

  /**
    Sharing a series shares all of it: afterwards every occurrence, past ones included, targets exactly the same
    teams.
   */
  lemma SeriesTargetsInLockstep(s: Store, id: EventId, team: TeamId, p: Patch, today: Day, q: EventId, t: TeamId)
    requires UpdateEvent(s, id, team, p, Series, today).Ok? && p.crossTeams.Some? && s.events[id].series.Some?
    requires q in s.events && s.events[q].series == s.events[id].series
    ensures var after := UpdateEvent(s, id, team, p, Series, today).value;
      (q, t) in after.targets <==> t in TargetSet(team, p.crossTeams.value)
  {
  }

  /**
    A series status change reaches exactly the addressed event and the occurrences from today on that the team is
    a target of.
   */
  lemma SetStatusIsExact(s: Store, id: EventId, team: TeamId, status: Status, today: Day, q: EventId)
    requires SetStatus(s, id, team, status, Series, today).Ok? && q in s.events
    ensures var after := SetStatus(s, id, team, status, Series, today).value;
      var reached := q == id || (s.events[q].series.Some? && s.events[q].series == s.events[id].series
                                 && s.events[q].date >= today && (q, team) in s.targets);
      && after.events.Keys == s.events.Keys
      && after.events[q] == if reached then s.events[q].(status := status) else s.events[q]
  {
  }

  /** The series part first and the whole patch after it is the whole patch. */
  lemma PatchTwice(e: Event, p: Patch)
    ensures Patched(Patched(e, SeriesPart(p)), p) == Patched(e, p)
    ensures Patched(e.(excludeFromStats := p.excludeFromStats.GetOr(e.excludeFromStats)), p) == Patched(e, p)
  {
    assert e.details + p.details + p.details == e.details + p.details;
  }

  /** After an accepted update the addressed event has every column of the patch, whatever the scope did before. */
  lemma AddressedEventTakesThePatch(s: Store, id: EventId, team: TeamId, p: Patch, scope: Scope, today: Day)
    requires UpdateEvent(s, id, team, p, scope, today).Ok?
    ensures var after := UpdateEvent(s, id, team, p, scope, today).value;
      id in s.events && id in after.events && after.events[id] == Patched(s.events[id], p) && ChecksOk(after.events[id])
  {
    if scope == Series && s.events[id].series.Some? {
      PatchTwice(s.events[id], p);
    }
  }

  // ----- Whole runs -----

  datatype Op =
    | Create(id: EventId, team: TeamId, event: NewEvent)
    | Recur(sid: SeriesId, ids: seq<EventId>, team: TeamId, event: NewEvent)
    | Update(id: EventId, team: TeamId, patch: Patch, scope: Scope)
    | Flip(id: EventId, team: TeamId, status: Status, scope: Scope)
    | Delete(id: EventId, team: TeamId, scope: Scope)

  /** The ids the operation brings are not in use. */
  predicate FreshIds(s: Store, op: Op) {
    match op
    case Create(id, _, _) => id !in s.events
    case Recur(sid, ids, _, p) => sid !in s.series && |ids| == |Occurrences(p)| && forall id <- ids :: id !in s.events
    case _ => true
  }

  function Outcome(s: Store, op: Op, today: Day): Result<Store, Error>
    requires FreshIds(s, op)
  {
    match op
    case Create(id, team, p) => CreateEvent(s, id, team, p)
    case Recur(sid, ids, team, p) => CreateSeries(s, sid, ids, team, p)
    case Update(id, team, p, scope) => UpdateEvent(s, id, team, p, scope, today)
    case Flip(id, team, status, scope) => SetStatus(s, id, team, status, scope, today)
    case Delete(id, team, scope) => DeleteEvent(s, id, team, scope, today)
  }

  function After(s: Store, op: Op, today: Day): Store
    requires FreshIds(s, op)
  {
    match Outcome(s, op, today)
    case Ok(next) => next
    case Err(_) => s
  }

  /** Without series scope no operation touches any event but the addressed one, nor its targets. */
  lemma SingleScopeTouchesOneEvent(s: Store, op: Op, today: Day, q: EventId)
    requires (op.Update? || op.Flip? || op.Delete?) && op.scope == Single && q != op.id && q in s.events
    ensures var after := After(s, op, today);
      q in after.events && after.events[q] == s.events[q] && SameTargets(s, after, q) && after.series == s.series
  {
  }

  /** The store with every event and series id ever handed out: the database never reuses a UUID. */
  datatype Log = Log(store: Store, events: set<EventId>, series: set<SeriesId>)

  function NewEvents(op: Op): set<EventId> {
    match op
    case Create(id, _, _) => {id}
    case Recur(_, ids, _, _) => IdSet(ids)
    case _ => {}
  }

  function NewSeries(op: Op): set<SeriesId> {
    if op.Recur? then {op.sid} else {}
  }

  predicate LogOk(log: Log) {
    log.store.events.Keys <= log.events && log.store.series.Keys <= log.series
  }

  predicate NeverIssued(log: Log, op: Op) {
    && NewEvents(op) !! log.events && NewSeries(op) !! log.series
    && (op.Recur? ==> |op.ids| == |Occurrences(op.event)|)
  }

  lemma NeverIssuedIsFresh(log: Log, op: Op)
    requires LogOk(log) && NeverIssued(log, op)
    ensures FreshIds(log.store, op)
  {
    if op.Recur? {
      forall id | id in op.ids ensures id !in log.store.events {
        assert id in NewEvents(op);
      }
    }
  }

  function Extend(log: Log, op: Op, today: Day): Log
    requires LogOk(log) && NeverIssued(log, op)
  {
    NeverIssuedIsFresh(log, op);
    Log(After(log.store, op, today), log.events + NewEvents(op), log.series + NewSeries(op))
  }

  /** No operation creates an event or a series but those it brings. */
  lemma OnlyNewIds(s: Store, op: Op, today: Day)
    requires FreshIds(s, op)
    ensures After(s, op, today).events.Keys <= s.events.Keys + NewEvents(op)
    ensures After(s, op, today).series.Keys <= s.series.Keys + NewSeries(op)
  {
    if op.Recur? {
      OccurrencesAdded(s.events, op.ids, Occurrences(op.event),
                       Inserted(op.team, Some(op.sid), op.event, op.event.date, None));
    }
  }

  lemma ExtendKeepsLog(log: Log, op: Op, today: Day)
    requires LogOk(log) && NeverIssued(log, op)
    ensures LogOk(Extend(log, op, today))
  {
    NeverIssuedIsFresh(log, op);
    OnlyNewIds(log.store, op, today);
  }

  /** A run is a list of operations, each with the day it happens on. */
  predicate Runs(log: Log, run: seq<(Op, Day)>)
    requires LogOk(log)
    decreases |run|
  {
    run == [] ||
    (NeverIssued(log, run[0].0) &&
     (ExtendKeepsLog(log, run[0].0, run[0].1); Runs(Extend(log, run[0].0, run[0].1), run[1..])))
  }

  function Exec(log: Log, run: seq<(Op, Day)>): Log
    requires LogOk(log) && Runs(log, run)
    decreases |run|
  {
    if run == [] then log
    else
      ExtendKeepsLog(log, run[0].0, run[0].1);
      Exec(Extend(log, run[0].0, run[0].1), run[1..])
  }

  lemma StepKeepsInv(s: Store, op: Op, today: Day)
    requires Inv(s) && FreshIds(s, op)
    ensures Inv(After(s, op, today))
  {
    if Outcome(s, op, today).Ok? {
      match op {
        case Create(id, team, p) => CreateEventKeepsInv(s, id, team, p);
        case Recur(sid, ids, team, p) => CreateSeriesKeepsInv(s, sid, ids, team, p);
        case Update(id, team, p, scope) => UpdateEventKeepsInv(s, id, team, p, scope, today);
        case Flip(id, team, status, scope) => SetStatusKeepsInv(s, id, team, status, scope, today);
        case Delete(id, team, scope) => DeleteEventKeepsInv(s, id, team, scope, today);
      }
    }
  }

  /**
    The store invariant holds after every run: owners among the targets, live series of the same team, spans only
    on single events.
   */
  lemma {:induction false} RunKeepsInv(log: Log, run: seq<(Op, Day)>)
    requires LogOk(log) && Inv(log.store) && Runs(log, run)
    ensures Inv(Exec(log, run).store)
    decreases |run|
  {
    if run != [] {
      NeverIssuedIsFresh(log, run[0].0);
      ExtendKeepsLog(log, run[0].0, run[0].1);
      StepKeepsInv(log.store, run[0].0, run[0].1);
      RunKeepsInv(Extend(log, run[0].0, run[0].1), run[1..]);
    }
  }

  // ----- Nothing is ever detached -----

  predicate SameOwnerAndSeries(a: Event, b: Event) {
    a.team == b.team && a.series == b.series
  }

  lemma UpdateKeepsOwnerAndSeries(s: Store, id: EventId, team: TeamId, p: Patch, scope: Scope, today: Day, q: EventId)
    requires UpdateEvent(s, id, team, p, scope, today).Ok? && q in s.events
    ensures var after := UpdateEvent(s, id, team, p, scope, today).value;
      q in after.events && SameOwnerAndSeries(after.events[q], s.events[q])
  {
  }

  lemma StepKeepsOwnerAndSeries(s: Store, op: Op, today: Day, q: EventId)
    requires FreshIds(s, op) && q in s.events && q in After(s, op, today).events
    ensures SameOwnerAndSeries(After(s, op, today).events[q], s.events[q])
  {
    if Outcome(s, op, today).Ok? {
      match op {
        case Create(_, _, _) =>
        case Recur(sid, ids, team, p) =>
          OccurrencesAdded(s.events, ids, Occurrences(p), Inserted(team, Some(sid), p, p.date, None));
        case Update(id, team, p, scope) => UpdateKeepsOwnerAndSeries(s, id, team, p, scope, today, q);
        case Flip(_, _, _, _) =>
        case Delete(id, team, scope) => DeleteNeverDetaches(s, id, team, scope, today, q);
      }
    }
  }

  /**
    Over every run an event that is still there belongs to the series and the team it was created
    for: no deletion of siblings or of the series row detaches it, and a deleted event's id never
    comes back.
   */
  lemma {:induction false} NothingIsDetached(log: Log, run: seq<(Op, Day)>, q: EventId)
    requires LogOk(log) && Runs(log, run) && q in log.events && q in Exec(log, run).store.events
    ensures q in log.store.events && SameOwnerAndSeries(Exec(log, run).store.events[q], log.store.events[q])
    decreases |run|
  {
    if run != [] {
      var op, today := run[0].0, run[0].1;
      NeverIssuedIsFresh(log, op);
      ExtendKeepsLog(log, op, today);
      NothingIsDetached(Extend(log, op, today), run[1..], q);
      OnlyNewIds(log.store, op, today);
      StepKeepsOwnerAndSeries(log.store, op, today, q);
    }
  }

  // ----- What has been held stays on record -----

  predicate Addresses(op: Op, q: EventId) {
    (op.Update? || op.Flip? || op.Delete?) && op.id == q
  }

  /** Equal in everything but the statistics flag. */
  predicate SameRecord(a: Event, b: Event) {
    a == b.(excludeFromStats := a.excludeFromStats)
  }

  lemma StepKeepsHistory(s: Store, op: Op, today: Day, q: EventId)
    requires Inv(s) && FreshIds(s, op) && Past(s, q, today) && !Addresses(op, q)
    ensures q in After(s, op, today).events && SameRecord(After(s, op, today).events[q], s.events[q])
  {
    if Outcome(s, op, today).Ok? {
      match op {
        case Create(_, _, _) =>
        case Recur(sid, ids, team, p) =>
          OccurrencesAdded(s.events, ids, Occurrences(p), Inserted(team, Some(sid), p, p.date, None));
        case Update(id, team, p, scope) => UpdateKeepsHistory(s, id, team, p, scope, today, q);
        case Flip(id, team, status, scope) => SetStatusKeepsHistory(s, id, team, status, scope, today, q);
        case Delete(id, team, scope) => DeleteKeepsHistory(s, id, team, scope, today, q);
      }
    }
  }

  /**
    What has been held stays on record: an event dated before every day of a run, and not
    itself addressed in it, is still there afterwards with the same date, series, texts,
    times and status, whatever was done to the rest of its series.
   */
  lemma {:induction false} HistorySurvivesEveryRun(log: Log, run: seq<(Op, Day)>, q: EventId)
    requires LogOk(log) && Inv(log.store) && Runs(log, run) && q in log.store.events
    requires forall i :: 0 <= i < |run| ==> log.store.events[q].date < run[i].1 && !Addresses(run[i].0, q)
    ensures q in Exec(log, run).store.events && SameRecord(Exec(log, run).store.events[q], log.store.events[q])
    decreases |run|
  {
    if run != [] {
      NeverIssuedIsFresh(log, run[0].0);
      ExtendKeepsLog(log, run[0].0, run[0].1);
      StepKeepsInv(log.store, run[0].0, run[0].1);
      StepKeepsHistory(log.store, run[0].0, run[0].1, q);
      HistorySurvivesEveryRun(Extend(log, run[0].0, run[0].1), run[1..], q);
    }
  }
}
