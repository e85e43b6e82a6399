/**
  Absences as interleaved transactions. Create and Update take the team's lock, check for an
  overlap and then write; Delete takes no lock, memberships come and go at any time, and a
  transaction may die at any point. Days are numbered.
 */
module Absences {
  import opened Wrappers

  type Id = int
  type TeamId = int
  type UserId = int
  type TxId = int
  type Day = int

  const MAX_SPAN := 1095

  datatype Absence = Absence(team: TeamId, user: UserId, first: Day, last: Day)

  datatype Phase = Waiting | Holding | Checked

  /** A patch gives the first day, the last day, both or neither. */
  datatype Tx =
    | Creating(team: TeamId, user: UserId, phase: Phase, first: Day, last: Day)
    | Updating(team: TeamId, user: UserId, phase: Phase, id: Id, newFirst: Option<Day>, newLast: Option<Day>)

  datatype State = State(rows: map<Id, Absence>, members: set<(TeamId, UserId)>, locks: map<TeamId, TxId>,
                         txs: map<TxId, Tx>)

  datatype Action =
    | Begin(tx: TxId, what: Tx)
    | Acquire(tx: TxId)
    | Check(tx: TxId)
    | Commit(tx: TxId, newId: Id)
    | Die(tx: TxId)
    | Delete(id: Id, team: TeamId, user: UserId)
    | SetMember(team: TeamId, user: UserId, present: bool)

  predicate Clashes(a: Absence, team: TeamId, user: UserId, first: Day, last: Day) {
    a.team == team && a.user == user && a.first <= last && a.last >= first
  }

  // ----- Statements -----

  /** userHasOverlappingAbsence; `except` is the row being updated. */
  predicate Overlapping(rows: map<Id, Absence>, team: TeamId, user: UserId, except: Option<Id>, first: Day, last: Day) {
    exists x :: x in rows && Some(x) != except && Clashes(rows[x], team, user, first, last)
  }

  /** The CHECK constraints of a row. */
  predicate RangeOk(first: Day, last: Day) {
    first <= last && last - first <= MAX_SPAN
  }

  predicate Owned(rows: map<Id, Absence>, id: Id, team: TeamId, user: UserId) {
    id in rows && rows[id].team == team && rows[id].user == user
  }

  /** COALESCE on both ends: an absent end keeps the row's own. */
  function Patched(a: Absence, newFirst: Option<Day>, newLast: Option<Day>): Absence {
    a.(first := newFirst.GetOr(a.first), last := newLast.GetOr(a.last))
  }

  predicate CheckPasses(rows: map<Id, Absence>, tx: Tx) {
    match tx
    case Creating(team, user, _, first, last) => !Overlapping(rows, team, user, None, first, last)
    case Updating(team, user, _, id, nf, nl) =>
      Owned(rows, id, team, user) &&
      var after := Patched(rows[id], nf, nl); !Overlapping(rows, team, user, Some(id), after.first, after.last)
  }

  predicate WriteAccepted(rows: map<Id, Absence>, members: set<(TeamId, UserId)>, tx: Tx) {
    (tx.team, tx.user) in members &&
    match tx
    case Creating(_, _, _, first, last) => RangeOk(first, last)
    case Updating(team, user, _, id, nf, nl) =>
      Owned(rows, id, team, user) && RangeOk(Patched(rows[id], nf, nl).first, Patched(rows[id], nf, nl).last)
  }

  function Written(rows: map<Id, Absence>, tx: Tx, newId: Id): map<Id, Absence>
    requires tx.Updating? ==> tx.id in rows
  {
    match tx
    case Creating(team, user, _, first, last) => rows[newId := Absence(team, user, first, last)]
    case Updating(_, _, _, id, nf, nl) => rows[id := Patched(rows[id], nf, nl)]
  }

  // ----- Runs -----

  predicate Enabled(s: State, a: Action) {
    match a
    case Begin(t, what) => t !in s.txs && what.phase == Waiting
    case Acquire(t) => t in s.txs && s.txs[t].phase == Waiting && s.txs[t].team !in s.locks
    case Check(t) => t in s.txs && s.txs[t].phase == Holding
    case Commit(t, id) => t in s.txs && s.txs[t].phase == Checked && (s.txs[t].Creating? ==> id !in s.rows)
    case Die(t) => t in s.txs
    case Delete(_, _, _) => true
    case SetMember(_, _, _) => true
  }

  function AtPhase(tx: Tx, phase: Phase): Tx {
    match tx
    case Creating(team, user, _, first, last) => Creating(team, user, phase, first, last)
    case Updating(team, user, _, id, nf, nl) => Updating(team, user, phase, id, nf, nl)
  }

  /** The end of a transaction, committed or rolled back: its lock is released. */
  function Ended(s: State, t: TxId): State
    requires t in s.txs
  {
    s.(txs := s.txs - {t}, locks := if s.txs[t].phase == Waiting then s.locks else s.locks - {s.txs[t].team})
  }

  function Apply(s: State, a: Action): State
    requires Enabled(s, a)
  {
    match a
    case Begin(t, what) => s.(txs := s.txs[t := what])
    case Acquire(t) => s.(txs := s.txs[t := AtPhase(s.txs[t], Holding)], locks := s.locks[s.txs[t].team := t])
    case Check(t) =>
      if CheckPasses(s.rows, s.txs[t]) then s.(txs := s.txs[t := AtPhase(s.txs[t], Checked)]) else Ended(s, t)
    case Commit(t, id) =>
      if WriteAccepted(s.rows, s.members, s.txs[t]) then Ended(s, t).(rows := Written(s.rows, s.txs[t], id))
      else Ended(s, t)
    case Die(t) => Ended(s, t)
    case Delete(id, team, user) =>
      if Owned(s.rows, id, team, user) && (team, user) in s.members then s.(rows := s.rows - {id}) else s
    case SetMember(team, user, present) =>
      s.(members := if present then s.members + {(team, user)} else s.members - {(team, user)})
  }

  predicate Legal(s: State, run: seq<Action>)
    decreases |run|
  {
    run == [] || (Enabled(s, run[0]) && Legal(Apply(s, run[0]), run[1..]))
  }

  function Exec(s: State, run: seq<Action>): State
    requires Legal(s, run)
    decreases |run|
  {
    if run == [] then s else Exec(Apply(s, run[0]), run[1..])
  }

  /** One transaction with nothing interleaved. */
  function Alone(s: State, tx: Tx, newId: Id): State
    requires s.txs == map[] && s.locks == map[] && tx.phase == Waiting && (tx.Creating? ==> newId !in s.rows)
  {
    var checked := Apply(Apply(Apply(s, Begin(0, tx)), Acquire(0)), Check(0));
    if 0 !in checked.txs then checked else Apply(checked, Commit(0, newId))
  }

  // ----- The invariant -----

  predicate Covers(a: Absence, day: Day) {
    a.first <= day <= a.last
  }

  predicate Apart(a: Absence, b: Absence) {
    a.team == b.team && a.user == b.user ==> a.last < b.first || b.last < a.first
  }

  /** Every range is ordered and within the limit, and a member's ranges in a team are pairwise apart. */
  predicate RowsOk(rows: map<Id, Absence>) {
    && (forall x :: x in rows ==> RangeOk(rows[x].first, rows[x].last))
    && (forall x, y :: x in rows && y in rows && x != y ==> Apart(rows[x], rows[y]))
  }

  /** A transaction past Acquire is the one its team's lock names. */
  predicate LocksOk(s: State) {
    forall t :: t in s.txs && s.txs[t].phase != Waiting ==> s.txs[t].team in s.locks && s.locks[s.txs[t].team] == t
  }

  /** What the check under the lock established still holds; only a deletion may have intervened. */
  predicate StillClear(rows: map<Id, Absence>, tx: Tx) {
    CheckPasses(rows, tx) || (tx.Updating? && !Owned(rows, tx.id, tx.team, tx.user))
  }

  predicate Inv(s: State) {
    RowsOk(s.rows) && LocksOk(s) && forall t :: t in s.txs && s.txs[t].phase == Checked ==> StillClear(s.rows, s.txs[t])
  }

  /** Ranges that are ordered clash exactly when they share a day. */
  lemma ClashIsASharedDay(a: Absence, first: Day, last: Day)
    requires a.first <= a.last && first <= last
    ensures Clashes(a, a.team, a.user, first, last) <==> exists day :: Covers(a, day) && first <= day <= last
  {
    var shared := if a.first >= first then a.first else first;
    assert Clashes(a, a.team, a.user, first, last) ==> Covers(a, shared) && first <= shared <= last;
  }

  /** The write of a checked transaction keeps the ranges apart. */
  lemma WriteKeepsRows(rows: map<Id, Absence>, members: set<(TeamId, UserId)>, tx: Tx, newId: Id)
    requires RowsOk(rows) && StillClear(rows, tx) && WriteAccepted(rows, members, tx)
    requires tx.Creating? ==> newId !in rows
    ensures RowsOk(Written(rows, tx, newId))
  {
  }

  /** A write in one team leaves what was checked in another as it was. */
  lemma OtherTeamStaysClear(rows: map<Id, Absence>, writer: Tx, newId: Id, tx: Tx)
    requires writer.Updating? ==> Owned(rows, writer.id, writer.team, writer.user)
    requires writer.Creating? ==> newId !in rows
    requires StillClear(rows, tx) && tx.team != writer.team
    ensures StillClear(Written(rows, writer, newId), tx)
  {
  }

  lemma DeletionStaysClear(rows: map<Id, Absence>, gone: Id, tx: Tx)
    requires StillClear(rows, tx)
    ensures StillClear(rows - {gone}, tx)
  {
  }

  lemma StepKeepsInv(s: State, a: Action)
    requires Inv(s) && Enabled(s, a)
    ensures Inv(Apply(s, a))
  {
    var after := Apply(s, a);
    if a.Commit? && WriteAccepted(s.rows, s.members, s.txs[a.tx]) {
      WriteKeepsRows(s.rows, s.members, s.txs[a.tx], a.newId);
      forall t | t in after.txs && after.txs[t].phase == Checked ensures StillClear(after.rows, after.txs[t]) {
        OtherTeamStaysClear(s.rows, s.txs[a.tx], a.newId, s.txs[t]);
      }
    }
    if a.Delete? && after.rows != s.rows {
      forall t | t in after.txs && after.txs[t].phase == Checked ensures StillClear(after.rows, after.txs[t]) {
        DeletionStaysClear(s.rows, a.id, s.txs[t]);
      }
    }
  }

  lemma {:induction false} RunKeepsInv(s: State, run: seq<Action>)
    requires Inv(s) && Legal(s, run)
    ensures Inv(Exec(s, run))
    decreases |run|
  {
    if run != [] {
      StepKeepsInv(s, run[0]);
      RunKeepsInv(Apply(s, run[0]), run[1..]);
    }
  }

  /** Starting from ranges that are apart, no interleaving ever puts two absences of a member in a team on one day. */
  lemma AtMostOneAbsenceADay(s: State, run: seq<Action>, x: Id, y: Id, day: Day)
    requires RowsOk(s.rows) && s.txs == map[] && Legal(s, run)
    requires var rows := Exec(s, run).rows;
      && x in rows && y in rows && rows[x].team == rows[y].team && rows[x].user == rows[y].user
      && Covers(rows[x], day) && Covers(rows[y], day)
    ensures x == y
  {
    RunKeepsInv(s, run);
  }

  lemma RangesStayInBounds(s: State, run: seq<Action>, x: Id)
    requires RowsOk(s.rows) && s.txs == map[] && Legal(s, run) && x in Exec(s, run).rows
    ensures var a := Exec(s, run).rows[x]; a.first <= a.last && a.last - a.first <= MAX_SPAN
  {
    RunKeepsInv(s, run);
  }
}
