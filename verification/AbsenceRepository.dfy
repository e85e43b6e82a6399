/** The absence repository as it runs under the team's lock, and exactly which requests it accepts. */
module AbsenceRepository {
  import opened Wrappers
  import opened Absences

  datatype Error = OverlappingAbsence | NotMember | NotFound | InvalidDateRange | SpanTooLong

  /** A day on which the member is absent by another row than `except`. */
  predicate Taken(rows: map<Id, Absence>, team: TeamId, user: UserId, except: Option<Id>, day: Day) {
    exists x :: x in rows && Some(x) != except && rows[x].team == team && rows[x].user == user && Covers(rows[x], day)
  }

  /** For an ordered range the overlap query finds a row exactly when some day of the range is taken. */
  lemma OverlapIsATakenDay(rows: map<Id, Absence>, team: TeamId, user: UserId, except: Option<Id>, first: Day,
                           last: Day)
    requires RowsOk(rows) && first <= last
    ensures Overlapping(rows, team, user, except, first, last)
       <==> exists day :: first <= day <= last && Taken(rows, team, user, except, day)
  {
    if Overlapping(rows, team, user, except, first, last) {
      var x: Id :| x in rows && Some(x) != except && Clashes(rows[x], team, user, first, last);
      ClashIsASharedDay(rows[x], first, last);
      var day :| Covers(rows[x], day) && first <= day <= last;
      assert Taken(rows, team, user, except, day);
    }
    if day :| first <= day <= last && Taken(rows, team, user, except, day) {
      var x: Id :| && x in rows && Some(x) != except
                   && rows[x].team == team && rows[x].user == user && Covers(rows[x], day);
      assert Clashes(rows[x], team, user, first, last);
    }
  }

  /** The range is free: no day of it is taken. */
  ghost predicate Free(rows: map<Id, Absence>, team: TeamId, user: UserId, except: Option<Id>, first: Day, last: Day) {
    forall day :: first <= day <= last ==> !Taken(rows, team, user, except, day)
  }

  /** The range the patch results in is in bounds, and free but for the row itself. */
  ghost predicate ResultFits(rows: map<Id, Absence>, id: Id, newFirst: Option<Day>, newLast: Option<Day>)
    requires id in rows
  {
    var after := Patched(rows[id], newFirst, newLast);
    RangeOk(after.first, after.last) && Free(rows, after.team, after.user, Some(id), after.first, after.last)
  }

  /** The range a patch results in: each end the given one, or else the stored one. */
  ghost predicate EndsAfter(a: Absence, newFirst: Option<Day>, newLast: Option<Day>, first: Day, last: Day) {
    && (newFirst.Some? ==> first == newFirst.value) && (newFirst.None? ==> first == a.first)
    && (newLast.Some? ==> last == newLast.value) && (newLast.None? ==> last == a.last)
  }

  /** Another row of the member reaches into the range. */
  ghost predicate Reached(rows: map<Id, Absence>, team: TeamId, user: UserId, except: Option<Id>, first: Day,
                          last: Day) {
    exists x :: && x in rows && (except.None? || x != except.value) && rows[x].team == team && rows[x].user == user
                && rows[x].first <= last && first <= rows[x].last
  }

  /** What a request for a range is answered, the checks in their order; `stranger` is the answer to a non-member. */
  ghost predicate Answers(rows: map<Id, Absence>, member: bool, stranger: Error, team: TeamId, user: UserId,
                          except: Option<Id>, first: Day, last: Day, err: Option<Error>) {
    if Reached(rows, team, user, except, first, last) then err == Some(OverlappingAbsence)
    else if !member then err == Some(stranger)
    else if last < first then err == Some(InvalidDateRange)
    else if last > first + 1095 then err == Some(SpanTooLong)
    else err == None
  }

  /** Only the row with this id changes, and only its two ends. */
  ghost predicate EndsReplaced(before: map<Id, Absence>, after: map<Id, Absence>, id: Id, newFirst: Option<Day>,
                               newLast: Option<Day>) {
    && id in before && after.Keys == before.Keys
    && after[id].team == before[id].team && after[id].user == before[id].user
    && EndsAfter(before[id], newFirst, newLast, after[id].first, after[id].last)
    && forall x :: x in before && x != id ==> after[x] == before[x]
  }

  lemma CreateAlone(s: State, team: TeamId, user: UserId, first: Day, last: Day, id: Id)
    requires s.txs == map[] && s.locks == map[] && id !in s.rows
    ensures Alone(s, Creating(team, user, Waiting, first, last), id)
         == if Overlapping(s.rows, team, user, None, first, last) || (team, user) !in s.members || !RangeOk(first, last)
            then s
            else s.(rows := s.rows[id := Absence(team, user, first, last)])
  {
  }

  lemma UpdateAlone(s: State, id: Id, team: TeamId, user: UserId, newFirst: Option<Day>, newLast: Option<Day>)
    requires s.txs == map[] && s.locks == map[]
    ensures Alone(s, Updating(team, user, Waiting, id, newFirst, newLast), id)
         == if !Owned(s.rows, id, team, user) || (team, user) !in s.members then s
            else
              var after := Patched(s.rows[id], newFirst, newLast);
              if Overlapping(s.rows, team, user, Some(id), after.first, after.last) || !RangeOk(after.first, after.last)
              then s
              else s.(rows := s.rows[id := after])
  {
  }

  class Repository {
    var rows: map<Id, Absence>
    var members: set<(TeamId, UserId)>

    function View(): State
      reads this
    {
      State(rows, members, map[], map[])
    }

    method CheckRange(first: Day, last: Day) returns (err: Option<Error>)
      ensures err == None <==> RangeOk(first, last)
      ensures err == None || (err == Some(InvalidDateRange) <==> last < first)
      ensures err == None || err == Some(InvalidDateRange) || err == Some(SpanTooLong)
    {
      if last < first {
        return Some(InvalidDateRange);
      }
      return if last - first > MAX_SPAN then Some(SpanTooLong) else None;
    }

    /** Accepted exactly for a member whose range is in bounds and has no day already taken. */
    method Create(team: TeamId, user: UserId, first: Day, last: Day, id: Id) returns (err: Option<Error>)
      requires RowsOk(rows) && id !in rows
      modifies this`rows
      ensures RowsOk(rows)
      ensures err == None <==>
        (team, user) in members && RangeOk(first, last) && Free(old(rows), team, user, None, first, last)
      ensures err == None ==> rows == old(rows)[id := Absence(team, user, first, last)]
      ensures err != None ==> rows == old(rows)
      ensures Answers(old(rows), (team, user) in members, NotMember, team, user, None, first, last, err)
      ensures View() == Alone(old(View()), Creating(team, user, Waiting, first, last), id)
    {
      CreateAlone(View(), team, user, first, last, id);
      if first <= last {
        OverlapIsATakenDay(rows, team, user, None, first, last);
      }
      if Overlapping(rows, team, user, None, first, last) {
        return Some(OverlappingAbsence);
      }
      if (team, user) !in members {
        return Some(NotMember);
      }
      err := CheckRange(first, last);
      if err == None {
        WriteKeepsRows(rows, members, Creating(team, user, Checked, first, last), id);
        rows := rows[id := Absence(team, user, first, last)];
      }
    }

    /** Loads the stored range, then overwrites whichever end the patch gives. */
    method ResolveFinalRange(id: Id, team: TeamId, user: UserId, newFirst: Option<Day>, newLast: Option<Day>)
      returns (range: Result<(Day, Day), Error>)
      ensures !Owned(rows, id, team, user) ==> range == Err(NotFound)
      ensures id in rows && rows[id].team == team && rows[id].user == user ==>
        range.Ok? && EndsAfter(rows[id], newFirst, newLast, range.value.0, range.value.1)
      ensures Owned(rows, id, team, user) ==>
        range == Ok((Patched(rows[id], newFirst, newLast).first, Patched(rows[id], newFirst, newLast).last))
    {
      if !Owned(rows, id, team, user) {
        return Err(NotFound);
      }
      var finalFirst, finalLast := rows[id].first, rows[id].last;
      if newFirst.Some? {
        finalFirst := newFirst.value;
      }
      if newLast.Some? {
        finalLast := newLast.value;
      }
      return Ok((finalFirst, finalLast));
    }

    /**
      The checks are made on the resulting range, so a patch of one end is accepted exactly when the whole result
      fits.
     */
    method Update(id: Id, team: TeamId, user: UserId, newFirst: Option<Day>, newLast: Option<Day>)
      returns (err: Option<Error>)
      requires RowsOk(rows)
      modifies this`rows
      ensures RowsOk(rows)
      ensures err == None <==>
        Owned(old(rows), id, team, user) && (team, user) in members && ResultFits(old(rows), id, newFirst, newLast)
      ensures err == None ==> rows == old(rows)[id := Patched(old(rows)[id], newFirst, newLast)]
      ensures err != None ==> rows == old(rows)
      ensures err == None ==> EndsReplaced(old(rows), rows, id, newFirst, newLast)
      ensures if id in old(rows) && old(rows)[id].team == team && old(rows)[id].user == user then
        forall first, last :: EndsAfter(old(rows)[id], newFirst, newLast, first, last) ==>
          Answers(old(rows), (team, user) in members, NotFound, team, user, Some(id), first, last, err)
      else
        err == Some(NotFound)
      ensures View() == Alone(old(View()), Updating(team, user, Waiting, id, newFirst, newLast), id)
    {
      UpdateAlone(View(), id, team, user, newFirst, newLast);
      var range := ResolveFinalRange(id, team, user, newFirst, newLast);
      if range.Err? {
        return Some(range.error);
      }
      var (finalFirst, finalLast) := range.value;
      if finalFirst <= finalLast {
        OverlapIsATakenDay(rows, team, user, Some(id), finalFirst, finalLast);
      }
      if Overlapping(rows, team, user, Some(id), finalFirst, finalLast) {
        return Some(OverlappingAbsence);
      }
      if (team, user) !in members {
        return Some(NotFound);
      }
      err := CheckRange(finalFirst, finalLast);
      if err == None {
        WriteKeepsRows(rows, members, Updating(team, user, Checked, id, newFirst, newLast), id);
        rows := rows[id := Patched(rows[id], newFirst, newLast)];
      }
    }

    /** One statement, without the lock: a departed member's own row is refused like a foreign one. */
    method Delete(id: Id, team: TeamId, user: UserId) returns (err: Option<Error>)
      requires RowsOk(rows)
      modifies this`rows
      ensures RowsOk(rows)
      ensures err == None <==>
        id in old(rows) && old(rows)[id].team == team && old(rows)[id].user == user && (team, user) in members
      ensures err != None ==> err == Some(NotFound) && rows == old(rows)
      ensures err == None ==> rows == old(rows) - {id}
      ensures View() == Apply(old(View()), Absences.Delete(id, team, user))
    {
      if !Owned(rows, id, team, user) || (team, user) !in members {
        return Some(NotFound);
      }
      rows := rows - {id};
      return None;
    }
  }
}
