/**
  SetRoles, RemoveMember and EraseUser as any number of interleaved transactions.
  Each takes its team locks (one, or for EraseUser every team of the user in
  ascending order), runs its checks one query at a time on the committed tables,
  carrying along what earlier queries returned, and publishes its writes at commit.
  A transaction may also roll back or crash at any point, which releases its locks
  and writes nothing. A transaction that ends otherwise reports an outcome.
 */
module RoleProtocol {
  import opened Wrappers
  import opened Permissions
  import opened RoleTables
  import opened Sets

  type TxnId = int

  /** TeamWrite stands for the other operations that take one team lock, such as an absence insert or update. */
  datatype Request =
    | SetRoles(m: MembershipId, team: TeamId, ids: set<RoleId>, caller: UserId)
    | RemoveMember(m: MembershipId, team: TeamId, caller: UserId)
    | EraseUser(user: UserId)
    | TeamWrite(team: TeamId)

  /** todo lists the locks still to be taken, next one first; own and before are what earlier queries returned. */
  datatype Phase =
    | Acquiring(todo: seq<TeamId>)
    | FindingMembership | FindingRoles
    | ReadingCaller | ReadingTarget(own: Perms) | ReadingGranted(own: Perms, before: Perms)
    | FindingGrant | FindingOthers
    | CheckingWriter | CheckingCaller | CheckingOthers
    | CheckingSoleAdmin
    | Committing
    | Finished(outcome: Option<Outcome>)

  datatype Txn = Txn(req: Request, locked: set<TeamId>, phase: Phase)

  datatype State = State(db: Tables, locks: map<TeamId, TxnId>, txns: map<TxnId, Txn>)

  datatype Action =
    | Begin(id: TxnId, req: Request, plan: seq<TeamId>)
    | Step(id: TxnId)
    | Rollback(id: TxnId)

  function TeamsOf(db: Tables, u: UserId): set<TeamId> {
    set m | m in db.memberships && db.memberships[m].user == u :: db.memberships[m].team
  }

  ghost predicate Ascending(ts: seq<TeamId>) {
    forall i, j :: 0 <= i < j < |ts| ==> ts[i] < ts[j]
  }

  /** The teams a request locks, in the order it locks them, as read when it begins. */
  ghost predicate LockPlan(db: Tables, req: Request, plan: seq<TeamId>) {
    match req
    case EraseUser(u) => Ascending(plan) && (forall t :: t in plan <==> t in TeamsOf(db, u))
    case _ => plan == [req.team]
  }

  function FirstCheck(req: Request): Phase {
    match req
    case SetRoles(_, _, _, _) => FindingMembership
    case RemoveMember(_, _, _) => CheckingWriter
    case EraseUser(_) => CheckingSoleAdmin
    case TeamWrite(_) => Committing
  }

  function AfterLocks(req: Request, todo: seq<TeamId>): Phase {
    if todo == [] then FirstCheck(req) else Acquiring(todo)
  }

  ghost predicate Enabled(s: State, a: Action) {
    match a
    case Begin(id, req, plan) => id !in s.txns && LockPlan(s.db, req, plan)
    case Step(id) =>
      && id in s.txns && !s.txns[id].phase.Finished?
      && (s.txns[id].phase.Acquiring? ==> s.txns[id].phase.todo != [] && s.txns[id].phase.todo[0] !in s.locks)
    case Rollback(id) => id in s.txns && !s.txns[id].phase.Finished?
  }

  /** The end of a transaction: None for a rollback or crash, else what it reports. */
  function Release(s: State, id: TxnId, outcome: Option<Outcome>): State
    requires id in s.txns
  {
    s.(locks := s.locks - s.txns[id].locked, txns := s.txns[id := Txn(s.txns[id].req, {}, Finished(outcome))])
  }

  function Refuse(outcome: Outcome): Phase {
    Finished(Some(outcome))
  }

  /** What follows the query a transaction is about to run: its next phase, or the error it reports. */
  function CheckResult(db: Tables, req: Request, phase: Phase): Phase {
    match (phase, req)
    case (FindingMembership, SetRoles(m, t, _, _)) =>
      if MembershipFound(db, m, t) then FindingRoles else Refuse(NotFound)
    case (FindingRoles, SetRoles(_, t, ids, _)) =>
      if RolesBelong(db, t, ids) then ReadingCaller else Refuse(RoleNotInTeam)
    case (ReadingCaller, SetRoles(_, t, _, caller)) => ReadingTarget(Effective(UserRows(db, t, caller)))
    case (ReadingTarget(own), SetRoles(m, _, _, _)) => ReadingGranted(own, Effective(MembershipRows(db, m)))
    case (ReadingGranted(own, before), SetRoles(_, t, ids, _)) =>
      if WithinCeilings(own, before, Effective(RoleSetRows(db, t, ids))) then FindingGrant
      else Refuse(InsufficientPermission)
    case (FindingGrant, SetRoles(_, t, ids, _)) =>
      if RoleSetHasSettingsWrite(db, t, ids) then Committing else FindingOthers
    case (FindingOthers, SetRoles(m, t, _, _)) =>
      if OtherSettingsWriter(db, t, m) then Committing else Refuse(LastSettingsAdmin)
    case (CheckingWriter, RemoveMember(m, t, _)) =>
      if IsSettingsWriter(db, m, t) then CheckingCaller else Committing
    case (CheckingCaller, RemoveMember(_, t, caller)) =>
      if CallerMayRemoveAdmin(db, t, caller) then CheckingOthers else Refuse(CannotRemoveSettingsAdmin)
    case (CheckingOthers, RemoveMember(m, t, _)) =>
      if OtherSettingsWriter(db, t, m) then Committing else Refuse(LastSettingsAdmin)
    case (CheckingSoleAdmin, EraseUser(u)) =>
      if SoleAdminSomewhere(db, u) then Refuse(SoleSettingsAdmin) else Committing
    case _ => Finished(None)
  }

  /** Only RemoveMember can still fail at its write: when the DELETE affects no row. */
  function CommitOutcome(db: Tables, req: Request): Outcome {
    if req.RemoveMember? && !InTeam(db, req.m, req.team) then NotFound else Done
  }

  function Write(db: Tables, req: Request): Tables {
    match req
    case SetRoles(m, _, ids, _) => ReplaceRoles(db, m, ids)
    case RemoveMember(m, t, _) => if InTeam(db, m, t) then DropMembership(db, m) else db
    case EraseUser(u) => MarkErased(db, u)
    case TeamWrite(_) => db
  }

  ghost function Apply(s: State, a: Action): State
    requires Enabled(s, a)
  {
    match a
    case Begin(id, req, plan) => s.(txns := s.txns[id := Txn(req, {}, AfterLocks(req, plan))])
    case Rollback(id) => Release(s, id, None)
    case Step(id) =>
      var txn := s.txns[id];
      match txn.phase
      case Acquiring(todo) =>
        s.(locks := s.locks[todo[0] := id],
           txns := s.txns[id := Txn(txn.req, txn.locked + {todo[0]}, AfterLocks(txn.req, todo[1..]))])
      case Committing => Release(s, id, Some(CommitOutcome(s.db, txn.req))).(db := Write(s.db, txn.req))
      case phase =>
        var next := CheckResult(s.db, txn.req, phase);
        if next.Finished? then Release(s, id, next.outcome) else s.(txns := s.txns[id := txn.(phase := next)])
  }

  ghost predicate Legal(s: State, run: seq<Action>)
    decreases |run|
  {
    run == [] || (Enabled(s, run[0]) && Legal(Apply(s, run[0]), run[1..]))
  }

  ghost function Exec(s: State, run: seq<Action>): State
    requires Legal(s, run)
    decreases |run|
  {
    if run == [] then s else Exec(Apply(s, run[0]), run[1..])
  }

  ghost predicate Initial(s: State) {
    WellFormed(s.db) && s.locks == map[] && s.txns == map[]
  }

  // ----- The invariant -----

  predicate Active(s: State, id: TxnId) {
    id in s.txns && !s.txns[id].phase.Finished?
  }

  function Todo(txn: Txn): seq<TeamId> {
    if txn.phase.Acquiring? then txn.phase.todo else []
  }

  /** The lock table and the transactions agree on who holds what. */
  ghost predicate LocksAgree(s: State) {
    && (forall t :: t in s.locks ==> s.locks[t] in s.txns && t in s.txns[s.locks[t]].locked)
    && (forall id, t :: id in s.txns && t in s.txns[id].locked ==> t in s.locks && s.locks[t] == id)
  }

  /** Locks are taken upwards: what a transaction waits for lies above everything it holds. */
  ghost predicate LocksAscend(txn: Txn) {
    && (txn.phase.Acquiring? ==> txn.phase.todo != [])
    && (txn.phase.Finished? ==> txn.locked == {})
    && Ascending(Todo(txn))
    && (forall h, w :: h in txn.locked && w in Todo(txn) ==> h < w)
  }

  /** Every team whose tables the request depends on is locked already or still to be locked. */
  ghost predicate Covers(db: Tables, txn: Txn) {
    !txn.phase.Finished? ==>
      match txn.req
      case EraseUser(u) => forall m :: m in db.memberships && db.memberships[m].user == u ==>
        db.memberships[m].team in txn.locked || db.memberships[m].team in Todo(txn)
      case _ => txn.req.team in txn.locked || txn.req.team in Todo(txn)
  }

  /** The request's membership and roles passed validation. */
  ghost predicate Valid(db: Tables, req: Request)
    requires req.SetRoles?
  {
    MembershipFound(db, req.m, req.team) && RolesBelong(db, req.team, req.ids)
  }

  ghost predicate SetRolesEstablished(db: Tables, req: Request, phase: Phase)
    requires req.SetRoles?
  {
    match phase
    case Acquiring(_) => true
    case FindingMembership => true
    case FindingRoles => MembershipFound(db, req.m, req.team)
    case ReadingCaller => Valid(db, req)
    case ReadingTarget(own) => Valid(db, req) && own == Effective(UserRows(db, req.team, req.caller))
    case ReadingGranted(own, before) =>
      && Valid(db, req)
      && own == Effective(UserRows(db, req.team, req.caller)) && before == Effective(MembershipRows(db, req.m))
    case FindingGrant => Valid(db, req) && NoEscalation(db, req.team, req.caller, req.m, req.ids)
    case FindingOthers =>
      && Valid(db, req) && NoEscalation(db, req.team, req.caller, req.m, req.ids)
      && !RoleSetHasSettingsWrite(db, req.team, req.ids)
    case Committing =>
      && Valid(db, req) && NoEscalation(db, req.team, req.caller, req.m, req.ids)
      && AdminGuard(db, req.team, req.m, req.ids)
    case Finished(_) => true
    case _ => false
  }

  ghost predicate RemoveMemberEstablished(db: Tables, req: Request, phase: Phase)
    requires req.RemoveMember?
  {
    match phase
    case Acquiring(_) => true
    case CheckingWriter => true
    case CheckingCaller => IsSettingsWriter(db, req.m, req.team)
    case CheckingOthers => IsSettingsWriter(db, req.m, req.team) && CallerMayRemoveAdmin(db, req.team, req.caller)
    case Committing =>
      IsSettingsWriter(db, req.m, req.team) ==>
        CallerMayRemoveAdmin(db, req.team, req.caller) && OtherSettingsWriter(db, req.team, req.m)
    case Finished(_) => true
    case _ => false
  }

  /** What the queries run so far have established, still true of the committed tables. */
  ghost predicate Established(db: Tables, req: Request, phase: Phase) {
    match req
    case SetRoles(_, _, _, _) => SetRolesEstablished(db, req, phase)
    case RemoveMember(_, _, _) => RemoveMemberEstablished(db, req, phase)
    case EraseUser(u) =>
      && (phase.Acquiring? || phase == CheckingSoleAdmin || phase == Committing || phase.Finished?)
      && (phase == Committing ==> !SoleAdminSomewhere(db, u))
    case TeamWrite(_) => phase.Acquiring? || phase == Committing || phase.Finished?
  }

  ghost predicate TxnOk(db: Tables, txn: Txn) {
    LocksAscend(txn) && Covers(db, txn) && Established(db, txn.req, txn.phase)
  }

  ghost predicate Inv(s: State) {
    WellFormed(s.db) && LocksAgree(s) && forall id :: id in s.txns ==> TxnOk(s.db, s.txns[id])
  }

  // ----- Rely: what a lock on team t freezes -----

  /** The part of the tables that the checks about team t read. */
  ghost predicate SameTeam(before: Tables, after: Tables, t: TeamId) {
    && before.roles == after.roles
    && (forall m :: InTeam(before, m, t) <==> InTeam(after, m, t))
    && (forall m :: InTeam(before, m, t) ==> before.memberships[m] == after.memberships[m])
    && (forall p: (MembershipId, RoleId) :: InTeam(before, p.0, t) ==>
          (p in before.assignments <==> p in after.assignments))
    && (forall m :: InTeam(before, m, t) ==>
         (before.memberships[m].user in before.erased <==> before.memberships[m].user in after.erased))
  }

  lemma FrozenMembershipRows(before: Tables, after: Tables, t: TeamId, m: MembershipId)
    requires SameTeam(before, after, t) && InTeam(before, m, t)
    ensures MembershipRows(before, m) == MembershipRows(after, m)
  {
  }

  lemma FrozenUserRows(before: Tables, after: Tables, t: TeamId, u: UserId)
    requires SameTeam(before, after, t)
    ensures UserRows(before, t, u) == UserRows(after, t, u)
  {
  }

  lemma FrozenOthers(before: Tables, after: Tables, t: TeamId, m: MembershipId)
    requires SameTeam(before, after, t)
    ensures OtherSettingsWriter(before, t, m) <==> OtherSettingsWriter(after, t, m)
  {
  }

  lemma FrozenWriter(before: Tables, after: Tables, t: TeamId, m: MembershipId)
    requires SameTeam(before, after, t) && WellFormed(before) && WellFormed(after)
    ensures IsSettingsWriter(before, m, t) <==> IsSettingsWriter(after, m, t)
  {
  }

  lemma FrozenSoleAdmin(before: Tables, after: Tables, u: UserId)
    requires forall t :: t in TeamsOf(before, u) ==> SameTeam(before, after, t)
    requires forall m :: m in after.memberships && after.memberships[m].user == u ==>
      m in before.memberships && before.memberships[m] == after.memberships[m]
    requires WellFormed(before) && WellFormed(after) && before.roles == after.roles
    requires !SoleAdminSomewhere(before, u)
    ensures !SoleAdminSomewhere(after, u)
  {
    forall p | p in after.assignments && after.memberships[p.0].user == u && GrantsSettingsWrite(after, p.1)
      ensures OtherUserGrants(after, after.memberships[p.0].team, u)
    {
      var t := after.memberships[p.0].team;
      assert t in TeamsOf(before, u) && InTeam(before, p.0, t);
      assert p in before.assignments;
      var q :| q in before.assignments && InTeam(before, q.0, t) && before.memberships[q.0].user != u
        && GrantsSettingsWrite(before, q.1) && before.memberships[q.0].user !in before.erased;
      assert q in after.assignments && InTeam(after, q.0, t);
    }
  }

  // ----- Guarantee: what a commit may touch -----

  /** Memberships only disappear, roles are fixed, and teams outside `locked` keep everything the checks read. */
  ghost predicate Guarantee(before: Tables, after: Tables, locked: set<TeamId>) {
    && before.roles == after.roles
    && (forall m :: m in after.memberships ==> m in before.memberships && before.memberships[m] == after.memberships[m])
    && (forall t :: t !in locked ==> SameTeam(before, after, t))
  }

  lemma ReplaceRolesGuarantee(db: Tables, m: MembershipId, t: TeamId, ids: set<RoleId>, locked: set<TeamId>)
    requires MembershipFound(db, m, t) && t in locked
    ensures Guarantee(db, ReplaceRoles(db, m, ids), locked)
  {
  }

  lemma DropMembershipGuarantee(db: Tables, m: MembershipId, t: TeamId, locked: set<TeamId>)
    requires InTeam(db, m, t) && t in locked
    ensures Guarantee(db, DropMembership(db, m), locked)
  {
  }

  lemma MarkErasedGuarantee(db: Tables, u: UserId, locked: set<TeamId>)
    requires forall m :: m in db.memberships && db.memberships[m].user == u ==> db.memberships[m].team in locked
    ensures Guarantee(db, MarkErased(db, u), locked)
  {
  }

  lemma CommitGuarantee(db: Tables, txn: Txn)
    requires WellFormed(db) && TxnOk(db, txn) && txn.phase == Committing
    ensures Guarantee(db, Write(db, txn.req), txn.locked) && WellFormed(Write(db, txn.req))
  {
    assert Todo(txn) == [];
    match txn.req {
      case SetRoles(m, t, ids, _) =>
        ReplaceRolesKeepsWellFormed(db, m, t, ids);
        ReplaceRolesGuarantee(db, m, t, ids, txn.locked);
      case RemoveMember(m, t, _) =>
        if InTeam(db, m, t) {
          DropMembershipGuarantee(db, m, t, txn.locked);
        }
      case EraseUser(u) => MarkErasedGuarantee(db, u, txn.locked);
      case TeamWrite(_) =>
    }
  }

  /** The verdicts of SetRoles' queries read only the frozen part. */
  lemma FrozenSetRoles(before: Tables, after: Tables, req: Request)
    requires req.SetRoles? && SameTeam(before, after, req.team) && InTeam(before, req.m, req.team)
    ensures NoEscalation(before, req.team, req.caller, req.m, req.ids)
       <==> NoEscalation(after, req.team, req.caller, req.m, req.ids)
    ensures RoleSetHasSettingsWrite(before, req.team, req.ids) <==> RoleSetHasSettingsWrite(after, req.team, req.ids)
    ensures Valid(before, req) <==> Valid(after, req)
  {
    FrozenUserRows(before, after, req.team, req.caller);
    FrozenMembershipRows(before, after, req.team, req.m);
    assert RoleSetRows(before, req.team, req.ids) == RoleSetRows(after, req.team, req.ids);
  }

  lemma SetRolesStable(before: Tables, after: Tables, req: Request, phase: Phase)
    requires req.SetRoles? && SameTeam(before, after, req.team)
    requires SetRolesEstablished(before, req, phase)
    ensures SetRolesEstablished(after, req, phase)
  {
    if InTeam(before, req.m, req.team) {
      FrozenSetRoles(before, after, req);
      FrozenUserRows(before, after, req.team, req.caller);
      FrozenMembershipRows(before, after, req.team, req.m);
      FrozenOthers(before, after, req.team, req.m);
    }
  }

  lemma RemoveMemberStable(before: Tables, after: Tables, req: Request, phase: Phase)
    requires req.RemoveMember? && SameTeam(before, after, req.team) && WellFormed(before) && WellFormed(after)
    requires RemoveMemberEstablished(before, req, phase)
    ensures RemoveMemberEstablished(after, req, phase)
  {
    FrozenUserRows(before, after, req.team, req.caller);
    FrozenWriter(before, after, req.team, req.m);
    FrozenOthers(before, after, req.team, req.m);
  }

  lemma EstablishedStable(before: Tables, after: Tables, locked: set<TeamId>, txn: Txn)
    requires Guarantee(before, after, locked) && WellFormed(before) && WellFormed(after)
    requires txn.locked !! locked && TxnOk(before, txn)
    ensures Established(after, txn.req, txn.phase)
  {
    if txn.phase.Acquiring? || txn.phase.Finished? {
      return;
    }
    match txn.req {
      case SetRoles(_, _, _, _) => SetRolesStable(before, after, txn.req, txn.phase);
      case RemoveMember(_, _, _) => RemoveMemberStable(before, after, txn.req, txn.phase);
      case EraseUser(u) =>
        if txn.phase == Committing {
          forall t | t in TeamsOf(before, u) ensures SameTeam(before, after, t) {
            var m :| m in before.memberships && before.memberships[m].user == u && before.memberships[m].team == t;
            assert t in txn.locked;
          }
          FrozenSoleAdmin(before, after, u);
        }
      case TeamWrite(_) =>
    }
  }

  lemma TxnStable(before: Tables, after: Tables, locked: set<TeamId>, txn: Txn)
    requires Guarantee(before, after, locked) && WellFormed(before) && WellFormed(after)
    requires txn.locked !! locked && TxnOk(before, txn)
    ensures TxnOk(after, txn)
  {
    EstablishedStable(before, after, locked, txn);
  }

  // ----- Every step keeps the invariant -----

  lemma TxnIsOk(s: State, id: TxnId)
    requires Inv(s) && id in s.txns
    ensures TxnOk(s.db, s.txns[id])
  {
  }

  lemma ReleaseKeepsLocks(s: State, id: TxnId, outcome: Option<Outcome>)
    requires LocksAgree(s) && id in s.txns
    ensures LocksAgree(Release(s, id, outcome))
  {
  }

  lemma FinishedTxnOk(before: Tables, after: Tables, txn: Txn, outcome: Option<Outcome>)
    requires TxnOk(before, txn)
    ensures TxnOk(after, Txn(txn.req, {}, Finished(outcome)))
  {
  }

  lemma CommitKeepsInv(s: State, id: TxnId)
    requires Inv(s) && Active(s, id) && s.txns[id].phase == Committing
    ensures Inv(Apply(s, Step(id)))
  {
    var txn, after := s.txns[id], Apply(s, Step(id));
    CommitGuarantee(s.db, txn);
    ReleaseKeepsLocks(s, id, after.txns[id].phase.outcome);
    assert LocksAgree(after);
    forall j | j in after.txns ensures TxnOk(after.db, after.txns[j]) {
      if j != id {
        assert s.txns[j].locked !! txn.locked by {
          assert forall t :: t in s.txns[j].locked ==> s.locks[t] == j;
          assert forall t :: t in txn.locked ==> s.locks[t] == id;
        }
        TxnStable(s.db, after.db, txn.locked, s.txns[j]);
      } else {
        FinishedTxnOk(s.db, after.db, txn, after.txns[id].phase.outcome);
      }
    }
  }

  lemma ReleaseKeepsInv(s: State, id: TxnId, outcome: Option<Outcome>)
    requires Inv(s) && id in s.txns
    ensures Inv(Release(s, id, outcome))
  {
    ReleaseKeepsLocks(s, id, outcome);
    FinishedTxnOk(s.db, s.db, s.txns[id], outcome);
  }

  /** Moving the next team from todo to locked keeps the locks ascending. */
  lemma AcquiredAscends(txn: Txn)
    requires LocksAscend(txn) && txn.phase.Acquiring?
    ensures LocksAscend(Txn(txn.req, txn.locked + {txn.phase.todo[0]}, AfterLocks(txn.req, txn.phase.todo[1..])))
  {
    var t, rest := txn.phase.todo[0], txn.phase.todo[1..];
    forall h, w | h in txn.locked + {t} && w in rest ensures h < w {
      var k :| 0 <= k < |rest| && rest[k] == w;
      assert Todo(txn)[k + 1] == w && w in Todo(txn);
      assert Todo(txn)[0] < Todo(txn)[k + 1];
    }
  }

  lemma AcquiredTxnOk(db: Tables, txn: Txn)
    requires TxnOk(db, txn) && txn.phase.Acquiring?
    ensures TxnOk(db, Txn(txn.req, txn.locked + {txn.phase.todo[0]}, AfterLocks(txn.req, txn.phase.todo[1..])))
  {
    AcquiredAscends(txn);
    var t, rest := txn.phase.todo[0], txn.phase.todo[1..];
    assert Todo(txn) == [t] + rest;
    assert forall w :: w in Todo(txn) ==> w == t || w in rest;
  }

  lemma AcquireKeepsInv(s: State, id: TxnId)
    requires Inv(s) && Enabled(s, Step(id)) && s.txns[id].phase.Acquiring?
    ensures Inv(Apply(s, Step(id)))
  {
    AcquiredTxnOk(s.db, s.txns[id]);
    assert LocksAgree(Apply(s, Step(id)));
  }

  lemma CheckedTxnOk(db: Tables, txn: Txn)
    requires TxnOk(db, txn) && !txn.phase.Acquiring? && txn.phase != Committing && !txn.phase.Finished?
    ensures var next := CheckResult(db, txn.req, txn.phase);
      !next.Finished? ==> TxnOk(db, txn.(phase := next))
  {
  }

  lemma PhaseChangeKeepsLocks(s: State, id: TxnId, next: Phase)
    requires LocksAgree(s) && id in s.txns
    ensures LocksAgree(s.(txns := s.txns[id := s.txns[id].(phase := next)]))
  {
  }

  lemma PhaseChangeKeepsInv(s: State, id: TxnId, next: Phase)
    requires Inv(s) && id in s.txns && TxnOk(s.db, s.txns[id].(phase := next))
    ensures Inv(s.(txns := s.txns[id := s.txns[id].(phase := next)]))
  {
    var after := s.(txns := s.txns[id := s.txns[id].(phase := next)]);
    PhaseChangeKeepsLocks(s, id, next);
    forall j | j in after.txns ensures TxnOk(after.db, after.txns[j]) {
      assert j != id ==> TxnOk(s.db, s.txns[j]);
    }
  }

  lemma CheckKeepsInv(s: State, id: TxnId)
    requires Inv(s) && Active(s, id)
    requires !s.txns[id].phase.Acquiring? && s.txns[id].phase != Committing
    ensures Inv(Apply(s, Step(id)))
  {
    var next := CheckResult(s.db, s.txns[id].req, s.txns[id].phase);
    if next.Finished? {
      ReleaseKeepsInv(s, id, next.outcome);
      assert Apply(s, Step(id)) == Release(s, id, next.outcome);
    } else {
      CheckedTxnOk(s.db, s.txns[id]);
      PhaseChangeKeepsInv(s, id, next);
      assert Apply(s, Step(id)) == s.(txns := s.txns[id := s.txns[id].(phase := next)]);
    }
  }

  lemma BegunTxnOk(s: State, id: TxnId, req: Request, plan: seq<TeamId>)
    requires Enabled(s, Begin(id, req, plan))
    ensures TxnOk(s.db, Txn(req, {}, AfterLocks(req, plan)))
  {
    assert Todo(Txn(req, {}, AfterLocks(req, plan))) == plan;
  }

  lemma BeginKeepsInv(s: State, id: TxnId, req: Request, plan: seq<TeamId>)
    requires Inv(s) && Enabled(s, Begin(id, req, plan))
    ensures Inv(Apply(s, Begin(id, req, plan)))
  {
    BegunTxnOk(s, id, req, plan);
  }

  lemma StepKeepsInv(s: State, a: Action)
    requires Inv(s) && Enabled(s, a)
    ensures Inv(Apply(s, a))
  {
    match a {
      case Begin(id, req, plan) => BeginKeepsInv(s, id, req, plan);
      case Rollback(id) => ReleaseKeepsInv(s, id, None);
      case Step(id) =>
        if s.txns[id].phase.Acquiring? {
          AcquireKeepsInv(s, id);
        } else if s.txns[id].phase == Committing {
          CommitKeepsInv(s, id);
        } else {
          CheckKeepsInv(s, id);
        }
    }
  }

  /** The invariant holds from a quiet start: no transaction in flight and tables in order. */
  lemma InitialStatesSatisfyInv(s: State)
    requires Initial(s)
    ensures Inv(s)
  {
  }
}
