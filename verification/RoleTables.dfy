/**
  The tables behind team roles, the guards that read them, and the writes they
  protect: members.Repository's SetRoles and RemoveMember, and auth's EraseUser.
  Everything here is a function of committed tables, so that the sequential
  repository below and the interleaved protocol share one definition.
 */
module RoleTables {
  import opened Permissions

  type UserId = int
  type MembershipId = int
  type RoleId = int

  datatype Membership = Membership(team: TeamId, user: UserId)
  datatype Role = Role(team: TeamId, perms: Perms)

  /** erased holds the users whose deleted_at is set; their memberships and role rows stay behind. */
  datatype Tables = Tables(memberships: map<MembershipId, Membership>, roles: map<RoleId, Role>,
                           assignments: set<(MembershipId, RoleId)>, erased: set<UserId>)

  predicate InTeam(db: Tables, m: MembershipId, t: TeamId) {
    m in db.memberships && db.memberships[m].team == t
  }

  ghost predicate RolesStayInTeam(db: Tables) {
    forall p <- db.assignments ::
      p.0 in db.memberships && p.1 in db.roles ==> db.roles[p.1].team == db.memberships[p.0].team
  }

  /** Foreign keys, one membership per team and user, and no role assigned outside its own team. */
  ghost predicate WellFormed(db: Tables) {
    && (forall p <- db.assignments :: p.0 in db.memberships && p.1 in db.roles)
    && (forall m, n | m in db.memberships && n in db.memberships && db.memberships[m] == db.memberships[n] :: m == n)
    && RolesStayInTeam(db)
  }

  predicate GrantsSettingsWrite(db: Tables, r: RoleId) {
    r in db.roles && db.roles[r].perms.settings == Write
  }

  // ----- Permission queries: the set of rows each SELECT returns -----

  /** getMembershipEffectivePermissionsQ: the membership's roles that belong to its own team. */
  function MembershipRows(db: Tables, m: MembershipId): set<Perms> {
    set p | p in db.assignments && p.0 == m && m in db.memberships && p.1 in db.roles
            && db.roles[p.1].team == db.memberships[m].team :: db.roles[p.1].perms
  }

  /** getEffectivePermissionsByUserQ: the user's roles in one team. */
  function UserRows(db: Tables, t: TeamId, u: UserId): set<Perms> {
    set p | p in db.assignments && InTeam(db, p.0, t) && db.memberships[p.0].user == u
            && p.1 in db.roles && db.roles[p.1].team == t :: db.roles[p.1].perms
  }

  /** roleSetEffectivePermissions: the given roles, restricted to the team. */
  function RoleSetRows(db: Tables, t: TeamId, ids: set<RoleId>): set<Perms> {
    set r | r in ids && r in db.roles && db.roles[r].team == t :: db.roles[r].perms
  }

  // ----- SetRoles' checks -----

  predicate MembershipFound(db: Tables, m: MembershipId, t: TeamId) {
    InTeam(db, m, t)
  }

  predicate RolesBelong(db: Tables, t: TeamId, ids: set<RoleId>) {
    forall r <- ids :: r in db.roles && db.roles[r].team == t
  }

  predicate WithinCeilings(own: Perms, before: Perms, granted: Perms) {
    && Rank(granted.events) <= Rank(FoldMax(own.events, before.events))
    && Rank(granted.members) <= Rank(FoldMax(own.members, before.members))
    && Rank(granted.finances) <= Rank(FoldMax(own.finances, before.finances))
    && Rank(granted.news) <= Rank(FoldMax(own.news, before.news))
    && Rank(granted.polls) <= Rank(FoldMax(own.polls, before.polls))
    && Rank(granted.settings) <= Rank(FoldMax(own.settings, before.settings))
    && Rank(granted.stats) <= Rank(FoldMax(own.stats, before.stats))
  }

  predicate NoEscalation(db: Tables, t: TeamId, caller: UserId, m: MembershipId, ids: set<RoleId>) {
    var own := Effective(UserRows(db, t, caller));
    var before := Effective(MembershipRows(db, m));
    WithinCeilings(own, before, Effective(RoleSetRows(db, t, ids)))
  }

  predicate RoleSetHasSettingsWrite(db: Tables, t: TeamId, ids: set<RoleId>) {
    exists r <- ids :: r in db.roles && db.roles[r].team == t && GrantsSettingsWrite(db, r)
  }

  predicate HoldsHere(db: Tables, p: (MembershipId, RoleId), t: TeamId) {
    && InTeam(db, p.0, t)
    && GrantsSettingsWrite(db, p.1) && db.roles[p.1].team == t
    && db.memberships[p.0].user !in db.erased
  }

  /**
    teamHasOtherSettingsWriteMember: some other membership, of a user not erased, holds a team role with
    settings:write.
   */
  predicate OtherSettingsWriter(db: Tables, t: TeamId, excluded: MembershipId) {
    exists p <- db.assignments :: p.0 != excluded && HoldsHere(db, p, t)
  }

  predicate AdminGuard(db: Tables, t: TeamId, m: MembershipId, ids: set<RoleId>) {
    RoleSetHasSettingsWrite(db, t, ids) || OtherSettingsWriter(db, t, m)
  }

  // ----- RemoveMember's checks -----

  predicate IsSettingsWriter(db: Tables, m: MembershipId, t: TeamId) {
    exists p <- db.assignments :: p.0 == m && p.1 in db.roles && db.roles[p.1].team == t && GrantsSettingsWrite(db, p.1)
  }

  predicate CallerMayRemoveAdmin(db: Tables, t: TeamId, caller: UserId) {
    Effective(UserRows(db, t, caller)).settings == Write
  }

  predicate OtherUserGrants(db: Tables, t: TeamId, u: UserId) {
    exists q <- db.assignments ::
      && InTeam(db, q.0, t) && db.memberships[q.0].user != u
      && GrantsSettingsWrite(db, q.1) && db.memberships[q.0].user !in db.erased
  }

  // ----- EraseUser's check: note that neither side compares the role's team -----

  predicate SoleAdminSomewhere(db: Tables, u: UserId) {
    exists p <- db.assignments ::
      && p.0 in db.memberships && db.memberships[p.0].user == u && GrantsSettingsWrite(db, p.1)
      && !OtherUserGrants(db, db.memberships[p.0].team, u)
  }

  // ----- The writes -----

  function ReplaceRoles(db: Tables, m: MembershipId, ids: set<RoleId>): Tables {
    db.(assignments := (set p | p in db.assignments && p.0 != m) + (set r | r in ids :: (m, r)))
  }

  function DropMembership(db: Tables, m: MembershipId): Tables {
    db.(memberships := db.memberships - {m}, assignments := set p | p in db.assignments && p.0 != m)
  }

  function MarkErased(db: Tables, u: UserId): Tables {
    db.(erased := db.erased + {u})
  }

  // ----- What each request answers, and what it leaves behind -----

  datatype Outcome = Done | NotFound | RoleNotInTeam | InsufficientPermission | LastSettingsAdmin
                   | CannotRemoveSettingsAdmin | SoleSettingsAdmin

  function SetRolesVerdict(db: Tables, m: MembershipId, t: TeamId, ids: set<RoleId>, caller: UserId): Outcome {
    if !MembershipFound(db, m, t) then NotFound
    else if !RolesBelong(db, t, ids) then RoleNotInTeam
    else if !NoEscalation(db, t, caller, m, ids) then InsufficientPermission
    else if !AdminGuard(db, t, m, ids) then LastSettingsAdmin
    else Done
  }

  function RemoveMemberVerdict(db: Tables, m: MembershipId, t: TeamId, caller: UserId): Outcome {
    if IsSettingsWriter(db, m, t) && !CallerMayRemoveAdmin(db, t, caller) then CannotRemoveSettingsAdmin
    else if IsSettingsWriter(db, m, t) && !OtherSettingsWriter(db, t, m) then LastSettingsAdmin
    else if !InTeam(db, m, t) then NotFound
    else Done
  }

  function EraseUserVerdict(db: Tables, u: UserId): Outcome {
    if SoleAdminSomewhere(db, u) then SoleSettingsAdmin else Done
  }

  // ----- What the guards are for -----

  /** Some user who can still sign in holds settings:write in the team, through a role of that team. */
  ghost predicate HasAdmin(db: Tables, t: TeamId) {
    exists p <- db.assignments :: HoldsHere(db, p, t)
  }

  /** No membership of the team reaches above rank k for the module. */
  ghost predicate Ceiling(db: Tables, t: TeamId, mod: Module, k: nat) {
    forall m :: InTeam(db, m, t) ==> Rank(Highest(MembershipRows(db, m), mod)) <= k
  }

  // ----- Each guarded write keeps the invariant, the admin and the ceiling -----

  lemma ReplaceRolesKeepsWellFormed(db: Tables, m: MembershipId, t: TeamId, ids: set<RoleId>)
    requires WellFormed(db) && MembershipFound(db, m, t) && RolesBelong(db, t, ids)
    ensures WellFormed(ReplaceRoles(db, m, ids))
  {
  }

  lemma ReplaceRolesKeepsAdmin(db: Tables, m: MembershipId, t: TeamId, ids: set<RoleId>, team: TeamId)
    requires WellFormed(db) && MembershipFound(db, m, t) && RolesBelong(db, t, ids)
    requires AdminGuard(db, t, m, ids)
    requires HasAdmin(db, team)
    ensures HasAdmin(ReplaceRoles(db, m, ids), team)
  {
    var after := ReplaceRoles(db, m, ids);
    var p :| p in db.assignments && HoldsHere(db, p, team);
    if p.0 != m {
      assert p in after.assignments && HoldsHere(after, p, team);
    } else if RoleSetHasSettingsWrite(db, t, ids) {
      var r :| r in ids && r in db.roles && db.roles[r].team == t && GrantsSettingsWrite(db, r);
      assert (m, r) in after.assignments && HoldsHere(after, (m, r), team);
    } else {
      var q :| q in db.assignments && q.0 != m && HoldsHere(db, q, t);
      assert q in after.assignments && HoldsHere(after, q, team);
    }
  }

  lemma DropMembershipKeepsAdmin(db: Tables, m: MembershipId, t: TeamId, team: TeamId)
    requires WellFormed(db) && InTeam(db, m, t)
    requires IsSettingsWriter(db, m, t) ==> OtherSettingsWriter(db, t, m)
    requires HasAdmin(db, team)
    ensures HasAdmin(DropMembership(db, m), team)
  {
    var after := DropMembership(db, m);
    var p :| p in db.assignments && HoldsHere(db, p, team);
    if p.0 != m {
      assert p in after.assignments && HoldsHere(after, p, team);
    } else {
      assert IsSettingsWriter(db, m, t);
      var q :| q in db.assignments && q.0 != m && HoldsHere(db, q, t);
      assert q in after.assignments && HoldsHere(after, q, team);
    }
  }

  /** Some other user who can sign in holds settings:write in the team through a role of the team. */
  predicate OtherAdmin(db: Tables, t: TeamId, u: UserId) {
    exists p <- db.assignments :: HoldsHere(db, p, t) && db.memberships[p.0].user != u
  }

  /** Some other user who can sign in holds settings:write in the team, but through a role of another team. */
  predicate OtherForeignGrant(db: Tables, t: TeamId, u: UserId) {
    exists q <- db.assignments ::
      && InTeam(db, q.0, t) && db.memberships[q.0].user != u && db.memberships[q.0].user !in db.erased
      && GrantsSettingsWrite(db, q.1) && db.roles[q.1].team != t
  }

  /**
    Where the guard lets the erasure through, the team is left without an admin exactly when
    another user's grant from outside the team is all that the guard counted.
   */
  lemma ErasureLosesAdminExactly(db: Tables, u: UserId, t: TeamId)
    requires HasAdmin(db, t) && !SoleAdminSomewhere(db, u)
    ensures !HasAdmin(MarkErased(db, u), t) <==> OtherForeignGrant(db, t, u) && !OtherAdmin(db, t, u)
  {
    var after := MarkErased(db, u);
    if OtherAdmin(db, t, u) {
      var p :| p in db.assignments && HoldsHere(db, p, t) && db.memberships[p.0].user != u;
      assert HoldsHere(after, p, t);
    } else {
      var p :| p in db.assignments && HoldsHere(db, p, t);
      assert OtherUserGrants(db, t, u);
    }
  }

  /**
    With roles kept in their teams, the guard refuses exactly the erasures that would cost some team its last
    admin.
   */
  lemma EraseGuardIsExact(db: Tables, u: UserId)
    requires WellFormed(db) && u !in db.erased
    ensures SoleAdminSomewhere(db, u) <==> exists t :: HasAdmin(db, t) && !HasAdmin(MarkErased(db, u), t)
  {
    if SoleAdminSomewhere(db, u) {
      var p :| && p in db.assignments && p.0 in db.memberships && db.memberships[p.0].user == u
               && GrantsSettingsWrite(db, p.1) && !OtherUserGrants(db, db.memberships[p.0].team, u);
      var t: TeamId := db.memberships[p.0].team;
      assert HoldsHere(db, p, t);
      assert HasAdmin(db, t) && !HasAdmin(MarkErased(db, u), t);
    } else {
      forall t | HasAdmin(db, t) ensures HasAdmin(MarkErased(db, u), t) {
        ErasureLosesAdminExactly(db, u, t);
      }
    }
  }

  lemma MarkErasedKeepsAdmin(db: Tables, u: UserId, team: TeamId)
    requires WellFormed(db) && !SoleAdminSomewhere(db, u)
    requires HasAdmin(db, team)
    ensures HasAdmin(MarkErased(db, u), team)
  {
    ErasureLosesAdminExactly(db, u, team);
  }

  /**
    Tables that meet the condition: user 1 is the only admin of team 1, and user 2's membership
    there carries an admin role of team 2.
   */
  lemma EraseGuardNeedsRolesInTeam()
    ensures exists db, u, t ::
      !RolesStayInTeam(db) && !SoleAdminSomewhere(db, u) && HasAdmin(db, t) && !HasAdmin(MarkErased(db, u), t)
  {
    var admin := NO_ACCESS.(settings := Write);
    var db := Tables(map[10 := Membership(1, 1), 20 := Membership(1, 2)],
                     map[100 := Role(1, admin), 200 := Role(2, admin)],
                     {(10, 100), (20, 200)}, {});
    assert (20, 200) in db.assignments && (10, 100) in db.assignments;
    assert HoldsHere(db, (10, 100), 1);
    assert OtherUserGrants(db, 1, 1);
    ErasureLosesAdminExactly(db, 1, 1);
    assert !RolesStayInTeam(db) && !SoleAdminSomewhere(db, 1) && HasAdmin(db, 1) && !HasAdmin(MarkErased(db, 1), 1);
  }

  lemma UserRowsUnderCeiling(db: Tables, t: TeamId, mod: Module, k: nat, u: UserId)
    requires Ceiling(db, t, mod, k)
    ensures Rank(Highest(UserRows(db, t, u), mod)) <= k
  {
  }

  lemma NoEscalationAt(db: Tables, t: TeamId, caller: UserId, m: MembershipId, ids: set<RoleId>, mod: Module)
    requires NoEscalation(db, t, caller, m, ids)
    ensures Rank(Highest(RoleSetRows(db, t, ids), mod))
         <= Rank(FoldMax(Highest(UserRows(db, t, caller), mod), Highest(MembershipRows(db, m), mod)))
  {
  }

  lemma ReplacedRows(db: Tables, m: MembershipId, t: TeamId, ids: set<RoleId>)
    requires MembershipFound(db, m, t)
    ensures MembershipRows(ReplaceRoles(db, m, ids), m) == RoleSetRows(db, t, ids)
    ensures forall n | n != m :: MembershipRows(ReplaceRoles(db, m, ids), n) == MembershipRows(db, n)
  {
  }

  lemma ReplaceRolesKeepsCeiling(db: Tables, m: MembershipId, t: TeamId, ids: set<RoleId>, caller: UserId,
                                 team: TeamId, mod: Module, k: nat)
    requires MembershipFound(db, m, t) && NoEscalation(db, t, caller, m, ids)
    requires Ceiling(db, team, mod, k)
    ensures Ceiling(ReplaceRoles(db, m, ids), team, mod, k)
  {
    ReplacedRows(db, m, t, ids);
    var after := ReplaceRoles(db, m, ids);
    forall n | InTeam(after, n, team) ensures Rank(Highest(MembershipRows(after, n), mod)) <= k {
      assert InTeam(db, n, team);
      if n == m {
        UserRowsUnderCeiling(db, team, mod, k, caller);
        NoEscalationAt(db, t, caller, m, ids, mod);
      }
    }
  }

  lemma DropMembershipKeepsCeiling(db: Tables, m: MembershipId, team: TeamId, mod: Module, k: nat)
    requires Ceiling(db, team, mod, k)
    ensures Ceiling(DropMembership(db, m), team, mod, k)
  {
    var after := DropMembership(db, m);
    forall n | InTeam(after, n, team) ensures Rank(Highest(MembershipRows(after, n), mod)) <= k {
      assert InTeam(db, n, team);
      forall p: (MembershipId, RoleId) | p.0 == n ensures p in after.assignments <==> p in db.assignments {}
      assert MembershipRows(after, n) == MembershipRows(db, n);
    }
  }
}
