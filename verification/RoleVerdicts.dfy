/**
  What each request on team roles answers, said of the rows themselves: which memberships,
  roles and users make SetRoles, RemoveMember and EraseUser refuse, and that the last-admin
  guards refuse exactly what would leave a team without one.
 */
module RoleVerdicts {
  import opened Permissions
  import opened RoleTables

  // ----- Levels -----

  lemma LevelsAreOrdered(text: string)
    ensures Rank(Nothing) == Rank(Other(text)) < Rank(Read) < Rank(Write)
    ensures forall level: Level :: Rank(level) <= Rank(Write)
  {
  }

  lemma HighestIsAttained(rows: set<Perms>, mod: Module)
    ensures Rank(Highest(rows, mod)) == 0 || exists p :: p in rows && Rank(p.At(mod)) == Rank(Highest(rows, mod))
  {
  }

  /** Above none, and above every row. */
  predicate AboveAll(level: Level, rows: set<Perms>, mod: Module) {
    Rank(level) > 0 && forall p :: p in rows ==> Rank(p.At(mod)) < Rank(level)
  }

  lemma BelowHighest(level: Level, rows: set<Perms>, mod: Module)
    ensures Rank(level) > Rank(Highest(rows, mod)) <==> AboveAll(level, rows, mod)
  {
    HighestIsAttained(rows, mod);
    RankBounds(rows, mod, Rank(Highest(rows, mod)));
  }

  // ----- SetRoles -----

  /**
    The assignment counts for the caller or for the membership whose roles are set: a team role on a membership of
    the team.
   */
  predicate Counts(db: Tables, p: (MembershipId, RoleId), t: TeamId, caller: UserId, m: MembershipId) {
    && p.0 in db.memberships && db.memberships[p.0].team == t
    && (db.memberships[p.0].user == caller || p.0 == m)
    && p.1 in db.roles && db.roles[p.1].team == t
  }

  /** The role grants more in the module than any role the caller has, and any the membership had. */
  predicate Outranks(db: Tables, r: RoleId, mod: Module, t: TeamId, caller: UserId, m: MembershipId)
    requires r in db.roles
  {
    && Rank(db.roles[r].perms.At(mod)) > 0
    && forall p <- db.assignments ::
         Counts(db, p, t, caller, m) ==> Rank(db.roles[p.1].perms.At(mod)) < Rank(db.roles[r].perms.At(mod))
  }

  predicate Escalates(db: Tables, t: TeamId, caller: UserId, m: MembershipId, ids: set<RoleId>) {
    exists r, mod :: r in ids && r in db.roles && Outranks(db, r, mod, t, caller, m)
  }

  lemma OutranksOnRows(db: Tables, r: RoleId, mod: Module, t: TeamId, caller: UserId, m: MembershipId)
    requires r in db.roles && MembershipFound(db, m, t)
    ensures Outranks(db, r, mod, t, caller, m)
       <==> AboveAll(db.roles[r].perms.At(mod), UserRows(db, t, caller) + MembershipRows(db, m), mod)
  {
    var rows := UserRows(db, t, caller) + MembershipRows(db, m);
    forall p | p in db.assignments && Counts(db, p, t, caller, m) ensures db.roles[p.1].perms in rows {
    }
    if Outranks(db, r, mod, t, caller, m) {
      forall q | q in rows ensures Rank(q.At(mod)) < Rank(db.roles[r].perms.At(mod)) {
        var p :| p in db.assignments && Counts(db, p, t, caller, m) && db.roles[p.1].perms == q;
      }
    }
  }

  lemma AboveBoth(level: Level, own: set<Perms>, before: set<Perms>, mod: Module)
    ensures AboveAll(level, own + before, mod) <==> AboveAll(level, own, mod) && AboveAll(level, before, mod)
  {
  }

  lemma FoldMaxBelow(level: Level, a: Level, b: Level)
    ensures Rank(level) > Rank(FoldMax(a, b)) <==> Rank(level) > Rank(a) && Rank(level) > Rank(b)
  {
  }

  lemma CeilingAt(db: Tables, r: RoleId, mod: Module, t: TeamId, caller: UserId, m: MembershipId)
    requires r in db.roles && MembershipFound(db, m, t)
    ensures Outranks(db, r, mod, t, caller, m) <==>
      Rank(db.roles[r].perms.At(mod))
      > Rank(FoldMax(Effective(UserRows(db, t, caller)).At(mod), Effective(MembershipRows(db, m)).At(mod)))
  {
    var level, own, before := db.roles[r].perms.At(mod), UserRows(db, t, caller), MembershipRows(db, m);
    OutranksOnRows(db, r, mod, t, caller, m);
    BelowHighest(level, own, mod);
    BelowHighest(level, before, mod);
    EffectiveAt(own, mod);
    EffectiveAt(before, mod);
    AboveBoth(level, own, before, mod);
    FoldMaxBelow(level, Effective(own).At(mod), Effective(before).At(mod));
  }

  predicate UnderCeiling(own: Perms, before: Perms, granted: Perms, mod: Module) {
    Rank(granted.At(mod)) <= Rank(FoldMax(own.At(mod), before.At(mod)))
  }

  lemma WithinCeilingsAt(own: Perms, before: Perms, granted: Perms)
    ensures WithinCeilings(own, before, granted) <==> forall mod: Module :: UnderCeiling(own, before, granted, mod)
  {
    if forall mod: Module :: UnderCeiling(own, before, granted, mod) {
      assert UnderCeiling(own, before, granted, Events) && UnderCeiling(own, before, granted, Members);
      assert UnderCeiling(own, before, granted, Finances) && UnderCeiling(own, before, granted, News);
      assert UnderCeiling(own, before, granted, Polls) && UnderCeiling(own, before, granted, Settings);
      assert UnderCeiling(own, before, granted, Stats);
    }
  }

  lemma RoleSetBound(db: Tables, t: TeamId, ids: set<RoleId>, mod: Module, k: nat)
    requires RolesBelong(db, t, ids)
    ensures Rank(Highest(RoleSetRows(db, t, ids), mod)) <= k
       <==> forall r :: r in ids ==> Rank(db.roles[r].perms.At(mod)) <= k
  {
    var rows := RoleSetRows(db, t, ids);
    RankBounds(rows, mod, k);
    forall r | r in ids ensures db.roles[r].perms in rows {
    }
  }

  /** Module by module the grant is no more than the caller's level or the membership's earlier one. */
  lemma CeilingIsEither(own: Perms, before: Perms, granted: Perms)
    ensures WithinCeilings(own, before, granted) <==> forall mod: Module ::
      Rank(granted.At(mod)) <= Rank(own.At(mod)) || Rank(granted.At(mod)) <= Rank(before.At(mod))
  {
    WithinCeilingsAt(own, before, granted);
    forall mod: Module
      ensures UnderCeiling(own, before, granted, mod)
         <==> Rank(granted.At(mod)) <= Rank(own.At(mod)) || Rank(granted.At(mod)) <= Rank(before.At(mod))
    {
    }
  }

  predicate NoneOutranks(db: Tables, t: TeamId, caller: UserId, m: MembershipId, ids: set<RoleId>, mod: Module) {
    forall r :: r in ids && r in db.roles ==> !Outranks(db, r, mod, t, caller, m)
  }

  /** Module by module: what is granted stays under the ceiling exactly when no requested role outranks it. */
  lemma EscalationAt(db: Tables, t: TeamId, caller: UserId, m: MembershipId, ids: set<RoleId>, mod: Module)
    requires MembershipFound(db, m, t) && RolesBelong(db, t, ids)
    ensures UnderCeiling(Effective(UserRows(db, t, caller)), Effective(MembershipRows(db, m)),
                         Effective(RoleSetRows(db, t, ids)), mod)
       <==> NoneOutranks(db, t, caller, m, ids, mod)
  {
    var k := Rank(FoldMax(Effective(UserRows(db, t, caller)).At(mod), Effective(MembershipRows(db, m)).At(mod)));
    EffectiveAt(RoleSetRows(db, t, ids), mod);
    RoleSetBound(db, t, ids, mod, k);
    forall r | r in ids ensures Outranks(db, r, mod, t, caller, m) <==> Rank(db.roles[r].perms.At(mod)) > k {
      CeilingAt(db, r, mod, t, caller, m);
    }
  }

  lemma EscalatesSomewhere(db: Tables, t: TeamId, caller: UserId, m: MembershipId, ids: set<RoleId>)
    ensures Escalates(db, t, caller, m, ids) <==> exists mod: Module :: !NoneOutranks(db, t, caller, m, ids, mod)
  {
    if r, mod :| r in ids && r in db.roles && Outranks(db, r, mod, t, caller, m) {
      assert !NoneOutranks(db, t, caller, m, ids, mod);
    }
  }

  /** The escalation check fails exactly when some requested role outranks all that counts. */
  lemma EscalationIsExact(db: Tables, t: TeamId, caller: UserId, m: MembershipId, ids: set<RoleId>)
    requires MembershipFound(db, m, t) && RolesBelong(db, t, ids)
    ensures NoEscalation(db, t, caller, m, ids) <==> !Escalates(db, t, caller, m, ids)
  {
    var own, before := Effective(UserRows(db, t, caller)), Effective(MembershipRows(db, m));
    var granted := Effective(RoleSetRows(db, t, ids));
    WithinCeilingsAt(own, before, granted);
    forall mod: Module
      ensures UnderCeiling(own, before, granted, mod) <==> NoneOutranks(db, t, caller, m, ids, mod)
    {
      EscalationAt(db, t, caller, m, ids, mod);
    }
    EscalatesSomewhere(db, t, caller, m, ids);
  }

  /** Some role of the request grants settings:write. */
  predicate GrantsAdmin(db: Tables, ids: set<RoleId>) {
    exists r <- ids :: r in db.roles && db.roles[r].perms.settings == Write
  }

  /** Some other membership, of a user not erased, has a role of the team with settings:write. */
  predicate OtherAdminMembership(db: Tables, t: TeamId, m: MembershipId) {
    exists p <- db.assignments ::
      && p.0 != m && p.0 in db.memberships && db.memberships[p.0].team == t && db.memberships[p.0].user !in db.erased
      && p.1 in db.roles && db.roles[p.1].team == t && db.roles[p.1].perms.settings == Write
  }

  predicate Found(db: Tables, m: MembershipId, t: TeamId) {
    m in db.memberships && db.memberships[m].team == t
  }

  predicate AllOfTeam(db: Tables, t: TeamId, ids: set<RoleId>) {
    forall r <- ids :: r in db.roles && db.roles[r].team == t
  }

  lemma OtherAdminIsExact(db: Tables, t: TeamId, m: MembershipId)
    ensures OtherSettingsWriter(db, t, m) <==> OtherAdminMembership(db, t, m)
  {
  }

  lemma GrantIsExact(db: Tables, t: TeamId, ids: set<RoleId>)
    requires RolesBelong(db, t, ids)
    ensures RoleSetHasSettingsWrite(db, t, ids) <==> GrantsAdmin(db, ids)
  {
  }

  /** Every answer of SetRoles, and exactly when it is given. */
  lemma SetRolesAnswers(db: Tables, m: MembershipId, t: TeamId, ids: set<RoleId>, caller: UserId)
    ensures var answer := SetRolesVerdict(db, m, t, ids, caller);
      && (answer == NotFound <==> !Found(db, m, t))
      && (answer == RoleNotInTeam <==> Found(db, m, t) && !AllOfTeam(db, t, ids))
      && (answer == InsufficientPermission <==>
            Found(db, m, t) && AllOfTeam(db, t, ids) && Escalates(db, t, caller, m, ids))
      && (answer == LastSettingsAdmin <==>
            && Found(db, m, t) && AllOfTeam(db, t, ids) && !Escalates(db, t, caller, m, ids)
            && !GrantsAdmin(db, ids) && !OtherAdminMembership(db, t, m))
      && answer in {Done, NotFound, RoleNotInTeam, InsufficientPermission, LastSettingsAdmin}
  {
    if Found(db, m, t) && AllOfTeam(db, t, ids) {
      EscalationIsExact(db, t, caller, m, ids);
      GrantIsExact(db, t, ids);
      OtherAdminIsExact(db, t, m);
    }
  }

  /** Sending a membership its own roles again is never refused as an escalation, whoever sends them. */
  lemma OwnRolesNeverEscalate(db: Tables, m: MembershipId, t: TeamId, ids: set<RoleId>, caller: UserId)
    requires forall r :: r in ids ==> (m, r) in db.assignments
    ensures SetRolesVerdict(db, m, t, ids, caller) != InsufficientPermission
  {
    SetRolesAnswers(db, m, t, ids, caller);
    if Found(db, m, t) && AllOfTeam(db, t, ids) {
      forall r, mod | r in ids && r in db.roles ensures !Outranks(db, r, mod, t, caller, m) {
        assert (m, r) in db.assignments && Counts(db, (m, r), t, caller, m);
      }
    }
  }

  /**
    The last-admin guard of SetRoles refuses exactly what would leave the team without an admin, for a user not
    erased.
   */
  lemma SetRolesGuardIsExact(db: Tables, m: MembershipId, t: TeamId, ids: set<RoleId>)
    requires Found(db, m, t) && AllOfTeam(db, t, ids) && db.memberships[m].user !in db.erased
    ensures AdminGuard(db, t, m, ids) <==> HasAdmin(ReplaceRoles(db, m, ids), t)
  {
    var after := ReplaceRoles(db, m, ids);
    if RoleSetHasSettingsWrite(db, t, ids) {
      var r :| r in ids && r in db.roles && db.roles[r].team == t && GrantsSettingsWrite(db, r);
      assert (m, r) in after.assignments && HoldsHere(after, (m, r), t);
    } else if OtherSettingsWriter(db, t, m) {
      var p :| p in db.assignments && p.0 != m && HoldsHere(db, p, t);
      assert p in after.assignments && HoldsHere(after, p, t);
    } else {
      forall p | p in after.assignments ensures !HoldsHere(after, p, t) {
        assert p.0 == m ==> p.1 in ids;
      }
    }
  }

  // ----- RemoveMember -----

  predicate HoldsAdminRole(db: Tables, m: MembershipId, t: TeamId) {
    exists p <- db.assignments ::
      p.0 == m && p.1 in db.roles && db.roles[p.1].team == t && db.roles[p.1].perms.settings == Write
  }

  /** The caller has settings:write in the team. */
  predicate IsAdmin(db: Tables, t: TeamId, caller: UserId) {
    exists p <- db.assignments ::
      && p.0 in db.memberships && db.memberships[p.0].team == t && db.memberships[p.0].user == caller
      && p.1 in db.roles && db.roles[p.1].team == t && db.roles[p.1].perms.settings == Write
  }

  lemma CallerCheckIsExact(db: Tables, t: TeamId, caller: UserId)
    ensures CallerMayRemoveAdmin(db, t, caller) <==> IsAdmin(db, t, caller)
  {
    var rows := UserRows(db, t, caller);
    if IsAdmin(db, t, caller) {
      var p :| && p in db.assignments && p.0 in db.memberships && db.memberships[p.0].team == t
               && db.memberships[p.0].user == caller && p.1 in db.roles && db.roles[p.1].team == t
               && db.roles[p.1].perms.settings == Write;
      assert db.roles[p.1].perms in rows && db.roles[p.1].perms.At(Settings) == Write;
    }
    if CallerMayRemoveAdmin(db, t, caller) {
      var row :| row in rows && row.At(Settings) == Write;
    }
  }

  /** Every answer of RemoveMember, and exactly when it is given. */
  lemma RemoveMemberAnswers(db: Tables, m: MembershipId, t: TeamId, caller: UserId)
    ensures var answer := RemoveMemberVerdict(db, m, t, caller);
      var admin := HoldsAdminRole(db, m, t);
      && (answer == CannotRemoveSettingsAdmin <==> admin && !IsAdmin(db, t, caller))
      && (answer == LastSettingsAdmin <==> admin && IsAdmin(db, t, caller) && !OtherAdminMembership(db, t, m))
      && (answer == NotFound <==>
            !Found(db, m, t) && (admin ==> IsAdmin(db, t, caller) && OtherAdminMembership(db, t, m)))
      && answer in {Done, CannotRemoveSettingsAdmin, LastSettingsAdmin, NotFound}
  {
    CallerCheckIsExact(db, t, caller);
    assert IsSettingsWriter(db, m, t) <==> HoldsAdminRole(db, m, t);
    OtherAdminIsExact(db, t, m);
  }

  /** Its last-admin guard refuses exactly what would leave the team without an admin. */
  lemma RemoveMemberGuardIsExact(db: Tables, m: MembershipId, t: TeamId)
    ensures OtherSettingsWriter(db, t, m) <==> HasAdmin(DropMembership(db, m), t)
  {
    var after := DropMembership(db, m);
    if OtherSettingsWriter(db, t, m) {
      var p :| p in db.assignments && p.0 != m && HoldsHere(db, p, t);
      assert p in after.assignments && HoldsHere(after, p, t);
    }
    if HasAdmin(after, t) {
      var p :| p in after.assignments && HoldsHere(after, p, t);
      assert p in db.assignments && p.0 != m && HoldsHere(db, p, t);
    }
  }

  // ----- EraseUser -----

  /** A grant of settings:write on a membership of another user of the team; the role's own team is not looked at. */
  predicate SomeoneElseGranted(db: Tables, t: TeamId, u: UserId) {
    exists q <- db.assignments ::
      && q.0 in db.memberships && db.memberships[q.0].team == t
      && db.memberships[q.0].user != u && db.memberships[q.0].user !in db.erased
      && q.1 in db.roles && db.roles[q.1].perms.settings == Write
  }

  /** Exactly when EraseUser refuses. */
  lemma EraseUserAnswers(db: Tables, u: UserId)
    ensures EraseUserVerdict(db, u) in {Done, SoleSettingsAdmin}
    ensures EraseUserVerdict(db, u) == SoleSettingsAdmin <==> exists p <- db.assignments ::
      && p.0 in db.memberships && db.memberships[p.0].user == u
      && p.1 in db.roles && db.roles[p.1].perms.settings == Write
      && !SomeoneElseGranted(db, db.memberships[p.0].team, u)
  {
    forall t ensures OtherUserGrants(db, t, u) <==> SomeoneElseGranted(db, t, u) {
    }
  }
}
