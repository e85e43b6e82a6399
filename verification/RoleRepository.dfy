/**
  SetRoles, RemoveMember and EraseUser as the repositories run them when no other
  transaction is active: rows are scanned in whatever order the database returns
  them, and the tables are updated in place. Each method is tied to the verdict
  and the write that RoleTables defines.
 */
module RoleRepository {
  import opened Permissions
  import opened RoleTables
  import opened RoleVerdicts

  function Elements(ids: seq<RoleId>): (s: set<RoleId>) {
    set r | r in ids
  }

  ghost predicate Distinct(ids: seq<RoleId>) {
    forall i, j :: 0 <= i < j < |ids| ==> ids[i] != ids[j]
  }

  lemma {:induction false} DistinctCardinality(ids: seq<RoleId>)
    requires Distinct(ids)
    ensures |Elements(ids)| == |ids|
  {
    if ids == [] {
    } else {
      var init, last := ids[..|ids| - 1], ids[|ids| - 1];
      DistinctCardinality(init);
      assert ids == init + [last];
      assert Elements(ids) == Elements(init) + {last};
      assert last !in init;
    }
  }

  lemma SubsetOfSameSize(a: set<RoleId>, b: set<RoleId>)
    requires a <= b && |a| == |b|
    ensures a == b
  {
    assert a + (b - a) == b;
    assert |b - a| == 0;
    assert b - a == {};
  }

  /** Counting the matching roles against the deduplicated list decides whether every role belongs to the team. */
  lemma RoleCountDecides(db: Tables, t: TeamId, ids: seq<RoleId>, found: set<RoleId>)
    requires Distinct(ids)
    requires found == set r | r in ids && r in db.roles && db.roles[r].team == t
    ensures |found| == |ids| <==> RolesBelong(db, t, Elements(ids))
  {
    DistinctCardinality(ids);
    assert found <= Elements(ids);
    if |found| == |ids| {
      SubsetOfSameSize(found, Elements(ids));
    }
    assert RolesBelong(db, t, Elements(ids)) ==> found == Elements(ids);
  }

  method DedupeStrings(ids: seq<RoleId>) returns (out: seq<RoleId>)
    ensures Distinct(out) && Elements(out) == Elements(ids)
  {
    var seen := {};
    out := [];
    for i := 0 to |ids|
      invariant seen == Elements(ids[..i]) == Elements(out)
      invariant Distinct(out)
    {
      assert ids[..i + 1] == ids[..i] + [ids[i]];
      assert Elements(ids[..i + 1]) == Elements(ids[..i]) + {ids[i]};
      if ids[i] !in seen {
        assert Elements(out + [ids[i]]) == Elements(out) + {ids[i]};
        assert forall j :: 0 <= j < |out| ==> out[j] in Elements(out);
        out := out + [ids[i]];
        seen := seen + {ids[i]};
      }
    }
    assert ids[..|ids|] == ids;
  }

  /** A result set, in an order the caller cannot rely on. */
  method ScanRows(rows: set<Perms>) returns (out: seq<Perms>)
    ensures RowSet(out) == rows
  {
    out := [];
    var rest := rows;
    while rest != {}
      invariant rest <= rows && RowSet(out) == rows - rest
      decreases |rest|
    {
      var p :| p in rest;
      assert RowSet(out + [p]) == RowSet(out) + {p} by {
        assert forall q :: q in out + [p] <==> q in out || q == p;
      }
      out := out + [p];
      rest := rest - {p};
    }
  }

  /** The scan-and-fold shared by the three permission queries. */
  method FoldRows(rows: set<Perms>) returns (eff: Perms)
    ensures eff == Effective(rows)
  {
    var scanned := ScanRows(rows);
    eff := NO_ACCESS;
    for i := 0 to |scanned|
      invariant eff == Fold(scanned[..i])
    {
      assert scanned[..i + 1][..i] == scanned[..i];
      eff := FoldPermissions(eff, scanned[i]);
    }
    assert scanned[..|scanned|] == scanned;
    FoldIsEffective(scanned, rows);
  }

  /** Module by module, in one loop over two parallel slices. */
  method CompareToCeilings(own: Perms, before: Perms, new_: Perms) returns (ok: bool)
    ensures ok == WithinCeilings(own, before, new_)
    ensures ok <==> forall mod: Module ::
      Rank(new_.At(mod)) <= Rank(own.At(mod)) || Rank(new_.At(mod)) <= Rank(before.At(mod))
  {
    CeilingIsEither(own, before, new_);
    var ceilings := [FoldMax(own.events, before.events), FoldMax(own.members, before.members),
                     FoldMax(own.finances, before.finances), FoldMax(own.news, before.news),
                     FoldMax(own.polls, before.polls), FoldMax(own.settings, before.settings),
                     FoldMax(own.stats, before.stats)];
    var granted := [new_.events, new_.members, new_.finances, new_.news, new_.polls, new_.settings, new_.stats];
    for i := 0 to |granted|
      invariant forall j :: 0 <= j < i ==> Rank(granted[j]) <= Rank(ceilings[j])
    {
      if Rank(granted[i]) > Rank(ceilings[i]) {
        assert i == 0 || i == 1 || i == 2 || i == 3 || i == 4 || i == 5 || i == 6;
        return false;
      }
    }
    assert Rank(granted[0]) <= Rank(ceilings[0]) && Rank(granted[1]) <= Rank(ceilings[1]);
    assert Rank(granted[2]) <= Rank(ceilings[2]) && Rank(granted[3]) <= Rank(ceilings[3]);
    assert Rank(granted[4]) <= Rank(ceilings[4]) && Rank(granted[5]) <= Rank(ceilings[5]);
    assert Rank(granted[6]) <= Rank(ceilings[6]);
    return true;
  }

  lemma SoleAdminTeams(db: Tables, u: UserId, teams: set<TeamId>)
    requires teams == set p | p in db.assignments && p.0 in db.memberships && db.memberships[p.0].user == u
      && GrantsSettingsWrite(db, p.1) && !OtherUserGrants(db, db.memberships[p.0].team, u)
      :: db.memberships[p.0].team
    ensures teams != {} <==> SoleAdminSomewhere(db, u)
  {
    forall p <- db.assignments | p.0 in db.memberships && db.memberships[p.0].user == u
      && GrantsSettingsWrite(db, p.1) && !OtherUserGrants(db, db.memberships[p.0].team, u)
      ensures db.memberships[p.0].team in teams
    {}
    assert forall t :: t in teams ==> SoleAdminSomewhere(db, u);
  }

  lemma SameElements(a: seq<RoleId>, b: seq<RoleId>)
    requires Elements(a) == Elements(b)
    ensures forall r :: r in a <==> r in b
  {
    assert forall r :: r in a <==> r in Elements(a);
    assert forall r :: r in b <==> r in Elements(b);
  }

  class Repository {
    var memberships: map<MembershipId, Membership>
    var roles: map<RoleId, Role>
    var assignments: set<(MembershipId, RoleId)>
    var erased: set<UserId>

    function View(): Tables
      reads this
    {
      Tables(memberships, roles, assignments, erased)
    }

    method ValidateSetRolesInputs(m: MembershipId, t: TeamId, ids: seq<RoleId>) returns (err: Outcome)
      requires Distinct(ids)
      ensures err == if !MembershipFound(View(), m, t) then NotFound
                     else if !RolesBelong(View(), t, Elements(ids)) then RoleNotInTeam else Done
    {
      if !InTeam(View(), m, t) {
        return NotFound;
      }
      if |ids| > 0 {
        var found := set r | r in ids && r in roles && roles[r].team == t;
        RoleCountDecides(View(), t, ids, found);
        if |found| != |ids| {
          return RoleNotInTeam;
        }
      }
      return Done;
    }

    method EnforceNoPermissionEscalation(t: TeamId, caller: UserId, m: MembershipId, ids: set<RoleId>)
      returns (ok: bool)
      ensures ok == NoEscalation(View(), t, caller, m, ids)
      ensures Found(View(), m, t) && AllOfTeam(View(), t, ids) ==> (ok <==> !Escalates(View(), t, caller, m, ids))
    {
      var own := FoldRows(UserRows(View(), t, caller));
      var before := FoldRows(MembershipRows(View(), m));
      var new_ := FoldRows(RoleSetRows(View(), t, ids));
      ok := CompareToCeilings(own, before, new_);
      if Found(View(), m, t) && AllOfTeam(View(), t, ids) {
        EscalationIsExact(View(), t, caller, m, ids);
      }
    }

    method EnforceSettingsAdminGuard(t: TeamId, m: MembershipId, ids: set<RoleId>) returns (ok: bool)
      ensures ok == AdminGuard(View(), t, m, ids)
    {
      if RoleSetHasSettingsWrite(View(), t, ids) {
        return true;
      }
      ok := OtherSettingsWriter(View(), t, m);
    }

    /** The DELETE followed by the batch INSERT. */
    method WriteRoles(m: MembershipId, ids: seq<RoleId>)
      modifies this`assignments
      ensures View() == ReplaceRoles(old(View()), m, Elements(ids))
      ensures forall n, r :: (n, r) in assignments <==> (if n == m then r in ids else (n, r) in old(assignments))
    {
      assignments := set p | p in assignments && p.0 != m;
      if |ids| > 0 {
        assignments := assignments + set r | r in Elements(ids) :: (m, r);
      } else {
        assert (set r | r in Elements(ids) :: (m, r)) == {};
      }
    }

    method SetRoles(m: MembershipId, t: TeamId, roleIds: seq<RoleId>, caller: UserId) returns (err: Outcome)
      modifies this`assignments
      ensures err == SetRolesVerdict(old(View()), m, t, Elements(roleIds), caller)
      ensures View() == if err == Done then ReplaceRoles(old(View()), m, Elements(roleIds)) else old(View())
      ensures err == InsufficientPermission <==>
        && Found(old(View()), m, t) && AllOfTeam(old(View()), t, Elements(roleIds))
        && Escalates(old(View()), t, caller, m, Elements(roleIds))
      ensures err == Done ==>
        forall n, r :: (n, r) in assignments <==> (if n == m then r in roleIds else (n, r) in old(assignments))
      ensures err != Done ==> assignments == old(assignments)
    {
      var ids := DedupeStrings(roleIds);
      SetRolesAnswers(View(), m, t, Elements(roleIds), caller);
      err := ValidateSetRolesInputs(m, t, ids);
      if err != Done {
        return;
      }
      var ok := EnforceNoPermissionEscalation(t, caller, m, Elements(ids));
      if !ok {
        return InsufficientPermission;
      }
      var guarded := EnforceSettingsAdminGuard(t, m, Elements(ids));
      if !guarded {
        return LastSettingsAdmin;
      }
      WriteRoles(m, ids);
      SameElements(ids, roleIds);
    }

    method RemoveMember(m: MembershipId, t: TeamId, caller: UserId) returns (err: Outcome)
      modifies this`memberships, this`assignments
      ensures err == RemoveMemberVerdict(old(View()), m, t, caller)
      ensures View() == if err == Done then DropMembership(old(View()), m) else old(View())
      ensures err == Done ==> memberships == old(memberships) - {m}
      ensures err == Done ==> forall n, r :: (n, r) in assignments <==> n != m && (n, r) in old(assignments)
    {
      if IsSettingsWriter(View(), m, t) {
        var own := FoldRows(UserRows(View(), t, caller));
        if own.settings != Write {
          return CannotRemoveSettingsAdmin;
        }
        if !OtherSettingsWriter(View(), t, m) {
          return LastSettingsAdmin;
        }
      }
      if !InTeam(View(), m, t) {
        return NotFound;
      }
      memberships := memberships - {m};
      assignments := set p | p in assignments && p.0 != m;
      return Done;
    }

    method EraseUser(u: UserId) returns (err: Outcome)
      modifies this`erased
      ensures err == EraseUserVerdict(old(View()), u)
      ensures View() == if err == Done then MarkErased(old(View()), u) else old(View())
      ensures err == Done ==> erased == old(erased) + {u}
    {
      var soleAdminTeams := set p | p in assignments && p.0 in memberships && memberships[p.0].user == u
        && GrantsSettingsWrite(View(), p.1) && !OtherUserGrants(View(), memberships[p.0].team, u)
        :: memberships[p.0].team;
      SoleAdminTeams(View(), u, soleAdminTeams);
      if soleAdminTeams != {} {
        return SoleSettingsAdmin;
      }
      erased := erased + {u};
      return Done;
    }
  }
}
