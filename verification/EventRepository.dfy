/**
  The events repository as it runs: methods that update the three tables statement by
  statement, roll back on an error, and loop where the code loops. Each is tied to the
  operation that EventTables defines.
 */
module EventRepository {
  import opened Wrappers
  import opened SeriesDates
  import opened EventTables
  import EventFields

  /** dedupTeamIDs: the owning team first, then every further team once. */
  method DedupTeamIds(owner: TeamId, extra: seq<TeamId>) returns (out: seq<TeamId>)
    ensures (set t | t in out) == TargetSet(owner, extra)
    ensures forall i, j :: 0 <= i < j < |out| ==> out[i] != out[j]
    ensures |out| > 0 && out[0] == owner
  {
    var seen := {owner};
    out := [owner];
    for i := 0 to |extra|
      invariant seen == (set t | t in out) == TargetSet(owner, extra[..i])
      invariant forall j, k :: 0 <= j < k < |out| ==> out[j] != out[k]
      invariant |out| > 0 && out[0] == owner
    {
      assert extra[..i + 1] == extra[..i] + [extra[i]];
      if extra[i] !in seen {
        assert forall j :: 0 <= j < |out| ==> out[j] in seen;
        seen := seen + {extra[i]};
        out := out + [extra[i]];
      }
    }
    assert extra[..|extra|] == extra;
  }

  class Repository {
    var events: map<EventId, Event>
    var series: map<SeriesId, TeamId>
    var targets: set<(EventId, TeamId)>
    const teams: set<TeamId>

    function View(): Store
      reads this
    {
      Store(events, series, targets, teams)
    }

    method InsertEventTeams(ids: set<EventId>, ts: seq<TeamId>)
      modifies this`targets
      ensures targets == old(targets) + Pairs(ids, set t | t in ts)
    {
      if ids != {} && ts != [] {
        targets := targets + Pairs(ids, set t | t in ts);
      } else {
        assert Pairs(ids, set t | t in ts) == {};
      }
    }

    method CreateEvent(id: EventId, team: TeamId, p: NewEvent) returns (err: Option<Error>)
      modifies this`events, this`targets
      ensures match EventTables.CreateEvent(old(View()), id, team, p)
              case Ok(next) => err == None && View() == next
              case Err(e) => err == Some(e) && View() == old(View())
      ensures err == None ==> events == old(events)[id := Event(team, None, p.details, p.date, p.endDate, p.startTime,
                                                                p.endTime, Active, p.excludeFromStats)]
      ensures err == None ==> forall q, t :: (q, t) in targets <==>
        ((q, t) in old(targets) || (q == id && (t == team || t in p.crossTeams)))
    {
      EventFields.CreateFieldByField(View(), id, team, p);
      if !TeamsExist(View(), p.crossTeams) || team !in teams {
        return Some(UnknownTeam);
      }
      var e := Inserted(team, None, p, p.date, p.endDate);
      if !ChecksOk(e) {
        return Some(CheckViolation);
      }
      events := events[id := e];
      var ts := DedupTeamIds(team, p.crossTeams);
      InsertEventTeams({id}, ts);
      return None;
    }

    /** ids are the UUIDs the database hands out, one per occurrence. */
    method CreateSeries(sid: SeriesId, ids: seq<EventId>, team: TeamId, p: NewEvent) returns (err: Option<Error>)
      requires |ids| == |Occurrences(p)| && forall j, k :: 0 <= j < k < |ids| ==> ids[j] != ids[k]
      modifies this`events, this`series, this`targets
      ensures err == None ==> EventFields.SeriesCreated(old(View()), sid, ids, team, p, View())
      ensures match EventTables.CreateSeries(old(View()), sid, ids, team, p)
              case Ok(next) => err == None && View() == next
              case Err(e) => err == Some(e) && View() == old(View())
    {
      EventFields.SeriesAnswers(View(), sid, ids, team, p);
      if EventTables.CreateSeries(View(), sid, ids, team, p).Ok? {
        EventFields.SeriesAllFields(View(), sid, ids, team, p);
      }
      var dates := SeriesDates.SeriesDates(p.date, p.repeatEnd, p.repeatWeeks);
      if !TeamsExist(View(), p.crossTeams) || team !in teams {
        return Some(UnknownTeam);
      }
      var row := Inserted(team, Some(sid), p, p.date, None);
      if !ChecksOk(row) {
        return Some(CheckViolation);
      }
      series := series[sid := team];
      // one INSERT for all dates
      events := WithOccurrences(events, ids, dates, row);
      var ts := DedupTeamIds(team, p.crossTeams);
      InsertEventTeams(IdSet(ids), ts);
      return None;
    }

    method ReplaceEventTeams(ids: set<EventId>, team: TeamId, extra: seq<TeamId>)
      modifies this`targets
      ensures View() == ReplaceTargets(old(View()), ids, team, extra)
    {
      targets := Without(targets, ids);
      var ts := DedupTeamIds(team, extra);
      InsertEventTeams(ids, ts);
    }

    /** replaceEventTeamsForSeries: collect the ids of the series, then replace their targets in one go. */
    method ReplaceEventTeamsForSeries(sid: SeriesId, team: TeamId, extra: seq<TeamId>)
      modifies this`targets
      ensures View() == ReplaceTargets(old(View()), SeriesIds(old(View()), sid), team, extra)
    {
      var ids := SeriesIds(View(), sid);
      if ids == {} {
        assert Without(targets, {}) + Pairs({}, TargetSet(team, extra)) == targets;
        return;
      }
      ReplaceEventTeams(ids, team, extra);
    }

    method ApplySeriesScopedUpdate(id: EventId, team: TeamId, p: Patch, scope: Scope, today: Day)
      returns (err: Option<Error>)
      modifies this`events, this`targets
      ensures match SeriesScopedUpdate(old(View()), id, team, p, scope, today)
              case Ok(next) => err == None && View() == next
              case Err(e) => err == Some(e) && View() == old(View())
    {
      if scope != Series && p.endDate.None? {
        return None;
      }
      if !Owned(View(), id, team) {
        return Some(NotFound);
      }
      if events[id].series.None? {
        return None;
      }
      if p.endDate.Some? {
        return Some(MultiDayEndDateOnSeriesEvent);
      }
      var sid := events[id].series.value;
      var updated := map q | q in events :: SeriesPatched(events[q], sid, p, today);
      if exists q <- events :: InSeries(events[q], sid) && !ChecksOk(updated[q]) {
        return Some(CheckViolation);
      }
      events := updated;
      if p.crossTeams.Some? {
        ReplaceEventTeamsForSeries(sid, team, p.crossTeams.value);
      }
      return None;
    }

    method UpdateEvent(id: EventId, team: TeamId, p: Patch, scope: Scope, today: Day) returns (err: Option<Error>)
      modifies this`events, this`targets
      ensures match EventTables.UpdateEvent(old(View()), id, team, p, scope, today)
              case Ok(next) => err == None && View() == next
              case Err(e) => err == Some(e) && View() == old(View())
      ensures err == None ==> EventFields.AllUpdated(old(View()), id, p, scope, today, View())
      ensures err == None ==> EventFields.TargetsUpdated(old(View()), id, team, p, scope, View())
    {
      if EventTables.UpdateEvent(View(), id, team, p, scope, today).Ok? {
        EventFields.UpdateAllFields(View(), id, team, p, scope, today);
        EventFields.UpdateAllTargets(View(), id, team, p, scope, today);
      }
      if p.crossTeams.Some? && !TeamsExist(View(), p.crossTeams.value) {
        return Some(UnknownTeam);
      }
      var savedEvents, savedTargets := events, targets;
      err := ApplySeriesScopedUpdate(id, team, p, scope, today);
      if err.Some? {
        return;
      }
      if !Owned(View(), id, team) {
        err := Some(NotFound);
      } else if !ChecksOk(Patched(events[id], p)) {
        err := Some(CheckViolation);
      }
      if err.Some? {
        events, targets := savedEvents, savedTargets;
        return;
      }
      events := events[id := Patched(events[id], p)];
      if p.crossTeams.Some? {
        ReplaceEventTeams({id}, team, p.crossTeams.value);
      }
    }

    method SetStatus(id: EventId, team: TeamId, status: Status, scope: Scope, today: Day) returns (err: Option<Error>)
      modifies this`events
      ensures match EventTables.SetStatus(old(View()), id, team, status, scope, today)
              case Ok(next) => err == None && View() == next
              case Err(e) => err == Some(e) && View() == old(View())
      ensures err == None <==> id in old(events) && (id, team) in targets
      ensures err == None ==> EventFields.StatusChanged(old(View()), id, team, status, scope, today, View())
    {
      EventFields.SetStatusFieldByField(View(), id, team, status, scope, today);
      if scope == Series && Targeted(View(), id, team) && events[id].series.Some? {
        var sid := events[id].series.value;
        events := map q | q in events ::
          var e := events[q];
          if InSeries(e, sid) && e.date >= today && Targeted(View(), q, team) then e.(status := status) else e;
      }
      if !Targeted(View(), id, team) {
        return Some(NotFound);
      }
      events := events[id := events[id].(status := status)];
      return None;
    }

    /** DELETE FROM events, with the cascade to event_teams. */
    method DeleteRows(ids: set<EventId>)
      modifies this`events, this`targets
      ensures View() == Removed(old(View()), ids)
    {
      events := events - ids;
      targets := Without(targets, ids);
    }

    method DeleteSeriesRemainder(id: EventId, team: TeamId, sid: SeriesId, today: Day)
      requires Owned(View(), id, team) && events[id].series == Some(sid)
      modifies this`events, this`series, this`targets
      ensures EventTables.DeleteEvent(old(View()), id, team, Series, today) == Ok(View())
    {
      var remaining := set q | q in events && InSeries(events[q], sid)
                               && events[q].team == team && events[q].date >= today;
      DeleteRows(remaining);
      DeleteRows({id});
      if !exists q <- events :: InSeries(events[q], sid) {
        series := series - {sid};
        events := map q | q in events :: var e := events[q]; if InSeries(e, sid) then e.(series := None) else e;
      }
    }

    method DeleteEvent(id: EventId, team: TeamId, scope: Scope, today: Day) returns (err: Option<Error>)
      modifies this`events, this`series, this`targets
      ensures match EventTables.DeleteEvent(old(View()), id, team, scope, today)
              case Ok(next) => err == None && View() == next
              case Err(e) => err == Some(e) && View() == old(View())
      ensures err == None <==> id in old(events) && old(events)[id].team == team
      ensures err == None ==> EventFields.RowsGone(old(View()), id, team, scope, today, View())
    {
      EventFields.DeleteFieldByField(View(), id, team, scope, today);
      if scope == Series && Owned(View(), id, team) && events[id].series.Some? {
        DeleteSeriesRemainder(id, team, events[id].series.value, today);
        return None;
      }
      if !Owned(View(), id, team) {
        return Some(NotFound);
      }
      DeleteRows({id});
      return None;
    }
  }
}
