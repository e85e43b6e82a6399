/**
  What holds over every run of the role protocol: no team loses its last settings admin, nobody
  rises above what a team already grants, and some transaction can always go on.
 */
module RoleRuns {
  import opened Wrappers
  import opened Permissions
  import opened RoleTables
  import opened RoleProtocol
  import opened Sets

  // ----- Safety over whole runs -----

  lemma StepKeepsAdmin(s: State, a: Action, team: TeamId)
    requires Inv(s) && Enabled(s, a) && HasAdmin(s.db, team)
    ensures HasAdmin(Apply(s, a).db, team)
  {
    if a.Step? && s.txns[a.id].phase == Committing {
      var txn := s.txns[a.id];
      match txn.req {
        case SetRoles(m, t, ids, _) => ReplaceRolesKeepsAdmin(s.db, m, t, ids, team);
        case RemoveMember(m, t, _) =>
          if InTeam(s.db, m, t) {
            DropMembershipKeepsAdmin(s.db, m, t, team);
          }
        case EraseUser(u) => MarkErasedKeepsAdmin(s.db, u, team);
        case TeamWrite(_) =>
      }
    } else {
      assert Apply(s, a).db == s.db;
    }
  }

  lemma StepKeepsCeiling(s: State, a: Action, team: TeamId, mod: Module, k: nat)
    requires Inv(s) && Enabled(s, a) && Ceiling(s.db, team, mod, k)
    ensures Ceiling(Apply(s, a).db, team, mod, k)
  {
    if a.Step? && s.txns[a.id].phase == Committing {
      var txn := s.txns[a.id];
      match txn.req {
        case SetRoles(m, t, ids, caller) => ReplaceRolesKeepsCeiling(s.db, m, t, ids, caller, team, mod, k);
        case RemoveMember(m, t, _) =>
          if InTeam(s.db, m, t) {
            DropMembershipKeepsCeiling(s.db, m, team, mod, k);
          }
        case EraseUser(u) =>
          assert forall n :: MembershipRows(MarkErased(s.db, u), n) == MembershipRows(s.db, n);
        case TeamWrite(_) =>
      }
    } else {
      assert Apply(s, a).db == s.db;
    }
  }

  lemma {:induction false} RunKeepsInv(s: State, run: seq<Action>)
    requires Inv(s) && Legal(s, run)
    ensures Inv(Exec(s, run))
    decreases |run|
  {
    if run != [] {
      StepKeepsInv(s, run[0]);
      RunKeepsInv(Apply(s, run[0]), run[1..]);
    }
  }

  /** Whatever transactions interleave, a team that has a settings admin who can sign in still has one afterwards. */
  lemma {:induction false} AdminSurvivesEveryRun(s: State, run: seq<Action>, team: TeamId)
    requires Inv(s) && Legal(s, run) && HasAdmin(s.db, team)
    ensures HasAdmin(Exec(s, run).db, team)
    decreases |run|
  {
    if run != [] {
      StepKeepsInv(s, run[0]);
      StepKeepsAdmin(s, run[0], team);
      AdminSurvivesEveryRun(Apply(s, run[0]), run[1..], team);
    }
  }

  /** The highest level any membership of a team holds for a module never rises, whoever calls what. */
  lemma {:induction false} CeilingNeverRises(s: State, run: seq<Action>, team: TeamId, mod: Module, k: nat)
    requires Inv(s) && Legal(s, run) && Ceiling(s.db, team, mod, k)
    ensures Ceiling(Exec(s, run).db, team, mod, k)
    decreases |run|
  {
    if run != [] {
      StepKeepsInv(s, run[0]);
      StepKeepsCeiling(s, run[0], team, mod, k);
      CeilingNeverRises(Apply(s, run[0]), run[1..], team, mod, k);
    }
  }

  // ----- Deadlock freedom -----

  ghost predicate WaitsFor(s: State, i: TxnId, j: TxnId) {
    && Active(s, i) && s.txns[i].phase.Acquiring? && s.txns[i].phase.todo != []
    && s.txns[i].phase.todo[0] in s.locks && s.locks[s.txns[i].phase.todo[0]] == j
  }

  /** Along a waits-for edge the wanted team strictly rises. */
  lemma WaitingRises(s: State, i: TxnId, j: TxnId)
    requires Inv(s) && WaitsFor(s, i, j) && j in s.txns && s.txns[j].phase.Acquiring?
    ensures s.txns[j].phase.todo != [] && s.txns[i].phase.todo[0] < s.txns[j].phase.todo[0]
  {
    assert s.txns[j].phase.todo[0] in Todo(s.txns[j]);
  }

  lemma {:induction false} WaitingRisesAlong(s: State, chain: seq<TxnId>)
    requires Inv(s) && |chain| >= 1
    requires forall k :: 0 <= k < |chain| - 1 ==> WaitsFor(s, chain[k], chain[k + 1])
    requires chain[|chain| - 1] in s.txns && s.txns[chain[|chain| - 1]].phase.Acquiring?
    ensures chain[0] in s.txns && s.txns[chain[0]].phase.Acquiring? && s.txns[chain[0]].phase.todo != []
    ensures s.txns[chain[|chain| - 1]].phase.todo != []
    ensures |chain| > 1 ==> s.txns[chain[0]].phase.todo[0] < s.txns[chain[|chain| - 1]].phase.todo[0]
  {
    TxnIsOk(s, chain[|chain| - 1]);
    if |chain| > 1 {
      var init := chain[..|chain| - 1];
      var i, j := chain[|chain| - 2], chain[|chain| - 1];
      assert WaitsFor(s, i, j);
      WaitingRises(s, i, j);
      WaitingRisesAlong(s, init);
    }
  }

  lemma NoWaitCycle(s: State, cycle: seq<TxnId>)
    requires Inv(s) && |cycle| >= 1
    ensures !((forall k :: 0 <= k < |cycle| - 1 ==> WaitsFor(s, cycle[k], cycle[k + 1]))
              && WaitsFor(s, cycle[|cycle| - 1], cycle[0]))
  {
    var last := cycle[|cycle| - 1];
    if (forall k :: 0 <= k < |cycle| - 1 ==> WaitsFor(s, cycle[k], cycle[k + 1])) && WaitsFor(s, last, cycle[0]) {
      WaitingRisesAlong(s, cycle);
      WaitingRises(s, cycle[|cycle| - 1], cycle[0]);
    }
  }

  /** Among the blocked transactions, one wants a team no other blocked transaction wants to exceed. */
  lemma {:induction false} TopmostWaiter(s: State, ids: set<TxnId>) returns (top: TxnId)
    requires ids != {}
    requires forall i :: i in ids ==> i in s.txns && s.txns[i].phase.Acquiring? && s.txns[i].phase.todo != []
    ensures top in ids && forall i :: i in ids ==> s.txns[i].phase.todo[0] <= s.txns[top].phase.todo[0]
    decreases |ids|
  {
    top := Pick(ids);
    if ids != {top} {
      var other := TopmostWaiter(s, ids - {top});
      if s.txns[top].phase.todo[0] < s.txns[other].phase.todo[0] {
        top := other;
      }
    }
  }

  /** In every reachable state, if some transaction is unfinished then one of them can take its next step. */
  lemma SomeTransactionCanStep(s: State)
    requires Inv(s) && exists id :: Active(s, id)
    ensures exists id :: Active(s, id) && Enabled(s, Step(id))
  {
    var blocked := set id | id in s.txns && Active(s, id) && !Enabled(s, Step(id));
    if blocked == {} {
      var id :| Active(s, id);
      assert id !in blocked;
    } else {
      var top := TopmostWaiter(s, blocked);
      var holder := s.locks[s.txns[top].phase.todo[0]];
      assert WaitsFor(s, top, holder);
      assert holder in s.txns && Active(s, holder);
      if holder in blocked {
        WaitingRises(s, top, holder);
      }
      assert Enabled(s, Step(holder));
    }
  }
}
