/**
  The finance repository and service as they run when nothing interleaves: methods that
  update the tables statement by statement. Each does to the books what the steps of
  Ledger do when they are taken back to back.
 */
module FinanceRepository {
  import opened Wrappers
  import opened Ledger
  import opened LedgerMoney

  datatype Error =
    | LinksMultipleTargets
    | ContributionRequiresIncome
    | ContributionNotInTeam
    | AssignmentRequiresIncome
    | AssignmentNotInTeam
    | CannotChangeTypeOfLinked
    | UserNotInTeam(user: UserId)
    | PenaltyNotInTeam
    | NotFound
    | CheckViolation

  /** The one call of a run in which nothing interleaves. */
  const CALL: CallId := 0

  // ----- The interleaved steps taken back to back -----

  function CreateAlone(b: Books, tx: Transaction, id: Id): Books
    requires id !in b.issued
  {
    var started := Apply(State(b, map[]), StartCreate(CALL, tx));
    if CALL !in started.calls then started.books
    else
      var checked := if Linked(tx) then Apply(started, CheckTarget(CALL)) else started;
      if CALL !in checked.calls then checked.books else Apply(checked, Insert(CALL, id)).books
  }

  function UpdateAlone(b: Books, id: Id, team: TeamId, patch: TxPatch): Books {
    var started := Apply(State(b, map[]), StartUpdate(CALL, id, team, patch));
    var checked := if patch.kind == Some(Expense) then Apply(started, CheckLinks(CALL)) else started;
    if CALL !in checked.calls then checked.books else Apply(checked, Write(CALL)).books
  }

  function AssignAlone(b: Books, id: Id, team: TeamId, user: UserId, penalty: Id, members: set<UserId>): Books
    requires id !in b.issued
  {
    var read := Apply(Apply(State(b, map[]), StartAssign(CALL, team, user, penalty)), ReadPenalty(CALL));
    if CALL !in read.calls then read.books else Apply(read, InsertAssignment(CALL, id, members)).books
  }

  predicate AllMembers(users: seq<UserId>, members: set<UserId>) {
    forall u <- users :: u in members
  }

  /** The first user in the list who is not a member. */
  predicate FirstOutsider(users: seq<UserId>, members: set<UserId>, user: UserId) {
    user !in members && exists i :: 0 <= i < |users| && users[i] == user && AllMembers(users[..i], members)
  }

  lemma PrefixStep(ids: seq<Id>, users: seq<UserId>, i: nat)
    requires |ids| == |users| && i < |ids|
    ensures ids[..i + 1][..i] == ids[..i] && users[..i + 1][..i] == users[..i]
    ensures IdSet(ids[..i + 1]) == IdSet(ids[..i]) + {ids[i]}
  {
  }

  lemma NobodyOutside(users: seq<UserId>, members: set<UserId>)
    requires forall j :: 0 <= j < |users| ==> users[j] in members
    ensures forall u <- users :: u in members
  {
  }

  class Repository {
    var txs: map<Id, Transaction>
    var contributions: map<Id, Contribution>
    var assignments: map<Id, Assignment>
    var penalties: map<Id, Penalty>
    var issued: set<Id>

    function View(): Books
      reads this
    {
      Books(txs, contributions, assignments, penalties, issued)
    }

    /** Accepts exactly the transactions that keep the books sound. */
    method CreateTransaction(tx: Transaction, id: Id) returns (err: Option<Error>)
      requires id !in issued
      modifies this`txs, this`issued
      ensures err == None <==> TxOk(old(View()), tx)
      ensures err == None ==> txs == old(txs)[id := tx] && issued == old(issued) + {id}
      ensures err != None ==> View() == old(View())
      ensures View() == CreateAlone(old(View()), tx, id)
      ensures err == Some(LinksMultipleTargets) <==> tx.contribution.Some? && tx.assignment.Some?
      ensures err == None && id !in old(txs) ==> Moved(old(View()), None, Some(tx), View())
    {
      if tx.contribution.Some? && tx.assignment.Some? {
        return Some(LinksMultipleTargets);
      }
      if tx.contribution.Some? {
        if tx.kind != Income {
          return Some(ContributionRequiresIncome);
        }
        var c: Id := tx.contribution.value;
        if !(c in contributions && contributions[c].team == tx.team) {
          return Some(ContributionNotInTeam);
        }
      }
      if tx.assignment.Some? {
        if tx.kind != Income {
          return Some(AssignmentRequiresIncome);
        }
        var a: Id := tx.assignment.value;
        if !(a in assignments && assignments[a].team == tx.team) {
          return Some(AssignmentNotInTeam);
        }
      }
      if !RowAccepted(View(), tx) {
        return Some(CheckViolation);
      }
      txs, issued := txs[id := tx], issued + {id};
      if id !in old(txs) {
        AddingMoves(old(View()), View(), id);
      }
      return None;
    }

    method UpdateTransaction(id: Id, team: TeamId, patch: TxPatch) returns (err: Option<Error>)
      modifies this`txs
      ensures View() == UpdateAlone(old(View()), id, team, patch)
      ensures err != None ==> View() == old(View())
      ensures err == None ==> id in old(txs) && old(txs)[id].team == team && 0 < patch.amount.GetOr(1) <= MAX_AMOUNT
      ensures err == None ==> var tx := old(txs)[id];
        txs == old(txs)[id := Transaction(tx.team, if patch.kind.Some? then patch.kind.value else tx.kind,
                                          if patch.amount.Some? then patch.amount.value else tx.amount,
                                          tx.contribution, tx.assignment)]
      ensures err == None ==> Moved(old(View()), Some(old(txs)[id]), Some(txs[id]), View())
      ensures err == Some(NotFound) <==> !(id in old(txs) && old(txs)[id].team == team)
      ensures err == Some(CannotChangeTypeOfLinked)
         <==> patch.kind == Some(Expense) && TxOf(old(View()), id, team) && Linked(old(txs)[id])
    {
      if patch.kind == Some(Expense) {
        if !TxOf(View(), id, team) {
          return Some(NotFound);
        }
        if Linked(txs[id]) {
          return Some(CannotChangeTypeOfLinked);
        }
      }
      if !TxOf(View(), id, team) {
        return Some(NotFound);
      }
      if !AmountAccepted(patch.amount.GetOr(1)) {
        return Some(CheckViolation);
      }
      txs := txs[id := Patched(txs[id], patch)];
      ChangingMoves(old(View()), View(), id);
      return None;
    }

    /** One insert per user in one transaction: the first user who is not a member rolls all of them back. */
    method InsertContributions(ids: seq<Id>, team: TeamId, amount: int, users: seq<UserId>, members: set<UserId>)
      returns (err: Option<Error>)
      requires StatementEnabled(View(), CreateContributions(ids, team, amount, users, members))
      modifies this`contributions, this`issued
      ensures View() == Execute(old(View()), CreateContributions(ids, team, amount, users, members))
      ensures err == None <==> users == [] || (AmountAccepted(amount) && forall u <- users :: u in members)
      ensures err == None ==> forall i :: 0 <= i < |ids| ==>
        ids[i] in contributions && contributions[ids[i]] == Contribution(team, users[i], amount, false)
      ensures err == None ==> contributions.Keys == old(contributions).Keys + IdSet(ids)
      ensures err != None ==> View() == old(View())
      ensures err.Some? && err.value.UserNotInTeam? ==> FirstOutsider(users, members, err.value.user)
      ensures err.Some? && !err.value.UserNotInTeam? ==> err == Some(CheckViolation) && users[0] in members
    {
      var saved, savedIds := contributions, issued;
      var i := 0;
      while i < |users|
        invariant 0 <= i <= |users|
        invariant contributions == AddContributions(saved, ids[..i], users[..i], team, amount)
        invariant issued == savedIds + IdSet(ids[..i])
        invariant i > 0 ==> AmountAccepted(amount)
        invariant forall j :: 0 <= j < i ==> users[j] in members
        invariant forall j :: 0 <= j < i ==>
          ids[j] in contributions && contributions[ids[j]] == Contribution(team, users[j], amount, false)
      {
        if users[i] !in members || !AmountAccepted(amount) {
          contributions, issued := saved, savedIds;
          return Some(if users[i] !in members then UserNotInTeam(users[i]) else CheckViolation);
        }
        PrefixStep(ids, users, i);
        contributions := contributions[ids[i] := Contribution(team, users[i], amount, false)];
        issued := issued + {ids[i]};
        i := i + 1;
      }
      assert ids[..i] == ids && users[..i] == users;
      NobodyOutside(users, members);
      ContributionsAdded(saved, ids, users, team, amount);
      return None;
    }

    method DeleteTransaction(id: Id, team: TeamId) returns (err: Option<Error>)
      modifies this`txs
      ensures View() == Execute(old(View()), Ledger.DeleteTransaction(id, team))
      ensures err == None <==> id in old(txs) && old(txs)[id].team == team
      ensures err == None ==> txs == old(txs) - {id} && Moved(old(View()), Some(old(txs)[id]), None, View())
    {
      if !TxOf(View(), id, team) {
        return Some(NotFound);
      }
      txs := txs - {id};
      RemovingMoves(old(View()), View(), id);
      return None;
    }

    /** An edit of what is due touches no payment: every paid amount stays what it was. */
    method UpdateContribution(id: Id, team: TeamId, newAmount: Option<int>, archived: Option<bool>)
      returns (err: Option<Error>)
      modifies this`contributions
      ensures View() == Execute(old(View()), Ledger.UpdateContribution(id, team, newAmount, archived))
      ensures err == None <==>
        id in old(contributions) && old(contributions)[id].team == team && AmountAccepted(newAmount.GetOr(1))
      ensures err == None ==> var c := old(contributions)[id];
        contributions == old(contributions)[id := Contribution(c.team, c.user,
                                              if newAmount.Some? then newAmount.value else c.amount,
                                              if archived.Some? then archived.value else c.archived)]
      ensures forall c :: PaidContribution(View(), c) == PaidContribution(old(View()), c)
    {
      if !(id in contributions && contributions[id].team == team) {
        return Some(NotFound);
      }
      if !AmountAccepted(newAmount.GetOr(1)) {
        return Some(CheckViolation);
      }
      var c := contributions[id];
      var patched := c.(amount := newAmount.GetOr(c.amount), archived := archived.GetOr(c.archived));
      contributions := contributions[id := patched];
      forall x ensures PaidContribution(View(), x) == PaidContribution(old(View()), x) {
        SamePaidContribution(View(), old(View()), x);
      }
      return None;
    }

    /**
      Only the definition changes, and a patch of the label alone not even its amount; every assignment keeps its
      snapshot.
     */
    method UpdatePenalty(id: Id, team: TeamId, newAmount: Option<int>) returns (err: Option<Error>)
      modifies this`penalties
      ensures View() == Execute(old(View()), Ledger.UpdatePenalty(id, team, newAmount))
      ensures err == None <==>
        id in old(penalties) && old(penalties)[id].team == team && AmountAccepted(newAmount.GetOr(1))
      ensures newAmount == None ==> penalties == old(penalties)
      ensures err == None && newAmount.Some? ==> penalties == old(penalties)[id := Penalty(team, newAmount.value)]
    {
      if !(id in penalties && penalties[id].team == team) {
        return Some(NotFound);
      }
      if !AmountAccepted(newAmount.GetOr(1)) {
        return Some(CheckViolation);
      }
      penalties := penalties[id := Penalty(team, newAmount.GetOr(penalties[id].amount))];
      return None;
    }

    method DeleteContribution(id: Id, team: TeamId) returns (err: Option<Error>)
      modifies this`contributions, this`txs
      ensures View() == Execute(old(View()), Ledger.DeleteContribution(id, team))
      ensures err == None <==> id in old(contributions) && old(contributions)[id].team == team
      ensures err == None ==> contributions == old(contributions) - {id} && txs.Keys == old(txs).Keys
      ensures err == None ==> forall t :: t in txs ==> var tx := old(txs)[t];
        txs[t] == Transaction(tx.team, tx.kind, tx.amount,
                              if tx.contribution == Some(id) then None else tx.contribution, tx.assignment)
    {
      if !(id in contributions && contributions[id].team == team) {
        return Some(NotFound);
      }
      txs := UnlinkContribution(txs, id);
      contributions := contributions - {id};
      return None;
    }

    /** The penalty is read first, so that a deleted one is reported by the foreign key and not as a NULL amount. */
    method CreateAssignment(id: Id, team: TeamId, user: UserId, penalty: Id, members: set<UserId>)
      returns (err: Option<Error>)
      requires id !in issued
      modifies this`assignments, this`issued
      ensures View() == AssignAlone(old(View()), id, team, user, penalty, members)
      ensures err == None ==>
        && penalty in penalties && penalties[penalty].team == team && user in members
        && assignments == old(assignments)[id := Assignment(team, user, Some(penalty), Some(penalties[penalty].amount))]
      ensures err != None ==> View() == old(View())
      ensures err == None <==> penalty in penalties && penalties[penalty].team == team && user in members
      ensures err == Some(PenaltyNotInTeam) <==> !(penalty in penalties && penalties[penalty].team == team)
    {
      if !(penalty in penalties && penalties[penalty].team == team) {
        return Some(PenaltyNotInTeam);
      }
      var amount := penalties[penalty].amount;
      if user !in members {
        return Some(NotFound);
      }
      assignments := assignments[id := Assignment(team, user, Some(penalty), Some(amount))];
      issued := issued + {id};
      return None;
    }

    method DeletePenalty(id: Id, team: TeamId) returns (err: Option<Error>)
      modifies this`penalties, this`assignments
      ensures View() == Execute(old(View()), Ledger.DeletePenalty(id, team))
      ensures err == None <==> id in old(penalties) && old(penalties)[id].team == team
      ensures assignments.Keys == old(assignments).Keys
      ensures err == None ==> penalties == old(penalties) - {id} && forall a :: a in assignments ==>
        assignments[a].penalty == if old(assignments)[a].penalty == Some(id) then None else old(assignments)[a].penalty
      ensures forall a :: a in assignments ==> SameDebt(assignments[a], old(assignments)[a])
    {
      if !(id in penalties && penalties[id].team == team) {
        return Some(NotFound);
      }
      assignments := map a | a in assignments ::
        if assignments[a].penalty == Some(id) then assignments[a].(penalty := None) else assignments[a];
      penalties := penalties - {id};
      return None;
    }

    method DeleteAssignment(id: Id, team: TeamId) returns (err: Option<Error>)
      modifies this`assignments, this`txs
      ensures View() == Execute(old(View()), Ledger.DeleteAssignment(id, team))
      ensures err == None <==> id in old(assignments) && old(assignments)[id].team == team
      ensures err == None ==> assignments == old(assignments) - {id} && txs.Keys == old(txs).Keys
      ensures err == None ==> forall t :: t in txs ==> var tx := old(txs)[t];
        txs[t] == Transaction(tx.team, tx.kind, tx.amount, tx.contribution,
                              if tx.assignment == Some(id) then None else tx.assignment)
    {
      if !(id in assignments && assignments[id].team == team) {
        return Some(NotFound);
      }
      txs := UnlinkAssignment(txs, id);
      assignments := assignments - {id};
      return None;
    }
  }
}
