/**
  What adding, changing and removing one transaction does to the money figures, in the
  transaction's own fields: a team's income and expense and the live paid amounts move by
  exactly what the transaction books.
 */
module LedgerMoney {
  import opened Wrappers
  import opened Sums
  import opened Ledger

  /** What the transaction adds to the team's income or expense. */
  function BookedBy(tx: Transaction, kind: Kind, team: TeamId): int {
    if tx.kind == kind && tx.team == team then tx.amount else 0
  }

  function Towards(tx: Transaction, c: Id): int {
    if tx.kind == Income && tx.contribution == Some(c) then tx.amount else 0
  }

  function TowardsPenalty(tx: Transaction, a: Id): int {
    if tx.kind == Income && tx.assignment == Some(a) then tx.amount else 0
  }

  function Booked(tx: Option<Transaction>, kind: Kind, team: TeamId): int {
    if tx.Some? then BookedBy(tx.value, kind, team) else 0
  }

  function Paying(tx: Option<Transaction>, c: Id): int {
    if tx.Some? then Towards(tx.value, c) else 0
  }

  function PayingPenalty(tx: Option<Transaction>, a: Id): int {
    if tx.Some? then TowardsPenalty(tx.value, a) else 0
  }

  ghost predicate IncomeMoved(b: Books, gone: Option<Transaction>, come: Option<Transaction>, after: Books, t: TeamId) {
    TeamIncome(after, t) == TeamIncome(b, t) - Booked(gone, Income, t) + Booked(come, Income, t)
  }

  ghost predicate ExpenseMoved(b: Books, gone: Option<Transaction>, come: Option<Transaction>, after: Books,
                               t: TeamId) {
    TeamExpense(after, t) == TeamExpense(b, t) - Booked(gone, Expense, t) + Booked(come, Expense, t)
  }

  ghost predicate PaidMoved(b: Books, gone: Option<Transaction>, come: Option<Transaction>, after: Books, x: Id) {
    && PaidContribution(after, x) == PaidContribution(b, x) - Paying(gone, x) + Paying(come, x)
    && PaidAssignment(after, x) == PaidAssignment(b, x) - PayingPenalty(gone, x) + PayingPenalty(come, x)
  }

  /** Every figure has lost what `gone` booked and gained what `come` books. */
  ghost predicate Moved(before: Books, gone: Option<Transaction>, come: Option<Transaction>, after: Books) {
    && (forall t :: IncomeMoved(before, gone, come, after, t) && ExpenseMoved(before, gone, come, after, t))
    && (forall x :: PaidMoved(before, gone, come, after, x))
  }

  // ----- One figure at a time -----

  lemma IncomeChanges(b: Books, after: Books, id: Id, team: TeamId)
    requires id in b.txs && id in after.txs && after.txs == b.txs[id := after.txs[id]]
    ensures TeamIncome(after, team)
         == TeamIncome(b, team) - BookedBy(b.txs[id], Income, team) + BookedBy(after.txs[id], Income, team)
  {
    assert after.txs.Keys == b.txs.Keys;
    SumOneChange(b.txs.Keys, AsIncome(b, team), AsIncome(after, team), id);
  }

  lemma ExpenseChanges(b: Books, after: Books, id: Id, team: TeamId)
    requires id in b.txs && id in after.txs && after.txs == b.txs[id := after.txs[id]]
    ensures TeamExpense(after, team)
         == TeamExpense(b, team) - BookedBy(b.txs[id], Expense, team) + BookedBy(after.txs[id], Expense, team)
  {
    assert after.txs.Keys == b.txs.Keys;
    SumOneChange(b.txs.Keys, AsExpense(b, team), AsExpense(after, team), id);
  }

  lemma ContributionChanges(b: Books, after: Books, id: Id, c: Id)
    requires id in b.txs && id in after.txs && after.txs == b.txs[id := after.txs[id]]
    ensures PaidContribution(after, c) == PaidContribution(b, c) - Towards(b.txs[id], c) + Towards(after.txs[id], c)
  {
    assert after.txs.Keys == b.txs.Keys;
    SumOneChange(b.txs.Keys, ToContribution(b, c), ToContribution(after, c), id);
  }

  lemma PenaltyChanges(b: Books, after: Books, id: Id, a: Id)
    requires id in b.txs && id in after.txs && after.txs == b.txs[id := after.txs[id]]
    ensures PaidAssignment(after, a)
         == PaidAssignment(b, a) - TowardsPenalty(b.txs[id], a) + TowardsPenalty(after.txs[id], a)
  {
    assert after.txs.Keys == b.txs.Keys;
    SumOneChange(b.txs.Keys, ToAssignment(b, a), ToAssignment(after, a), id);
  }

  lemma IncomeGrows(b: Books, after: Books, id: Id, team: TeamId)
    requires id !in b.txs && id in after.txs && after.txs == b.txs[id := after.txs[id]]
    ensures TeamIncome(after, team) == TeamIncome(b, team) + BookedBy(after.txs[id], Income, team)
  {
    assert after.txs.Keys == b.txs.Keys + {id};
    SumOneMore(b.txs.Keys, AsIncome(b, team), AsIncome(after, team), id);
  }

  lemma ExpenseGrows(b: Books, after: Books, id: Id, team: TeamId)
    requires id !in b.txs && id in after.txs && after.txs == b.txs[id := after.txs[id]]
    ensures TeamExpense(after, team) == TeamExpense(b, team) + BookedBy(after.txs[id], Expense, team)
  {
    assert after.txs.Keys == b.txs.Keys + {id};
    SumOneMore(b.txs.Keys, AsExpense(b, team), AsExpense(after, team), id);
  }

  lemma ContributionGrows(b: Books, after: Books, id: Id, c: Id)
    requires id !in b.txs && id in after.txs && after.txs == b.txs[id := after.txs[id]]
    ensures PaidContribution(after, c) == PaidContribution(b, c) + Towards(after.txs[id], c)
  {
    assert after.txs.Keys == b.txs.Keys + {id};
    SumOneMore(b.txs.Keys, ToContribution(b, c), ToContribution(after, c), id);
  }

  lemma PenaltyGrows(b: Books, after: Books, id: Id, a: Id)
    requires id !in b.txs && id in after.txs && after.txs == b.txs[id := after.txs[id]]
    ensures PaidAssignment(after, a) == PaidAssignment(b, a) + TowardsPenalty(after.txs[id], a)
  {
    assert after.txs.Keys == b.txs.Keys + {id};
    SumOneMore(b.txs.Keys, ToAssignment(b, a), ToAssignment(after, a), id);
  }

  // ----- All figures -----

  lemma ChangingMoves(b: Books, after: Books, id: Id)
    requires id in b.txs && id in after.txs && after.txs == b.txs[id := after.txs[id]]
    ensures Moved(b, Some(b.txs[id]), Some(after.txs[id]), after)
  {
    var gone, come := Some(b.txs[id]), Some(after.txs[id]);
    forall t ensures IncomeMoved(b, gone, come, after, t) {
      IncomeChanges(b, after, id, t);
    }
    forall t ensures ExpenseMoved(b, gone, come, after, t) {
      ExpenseChanges(b, after, id, t);
    }
    forall x ensures PaidMoved(b, gone, come, after, x) {
      ContributionChanges(b, after, id, x);
      PenaltyChanges(b, after, id, x);
    }
  }

  lemma AddingMoves(b: Books, after: Books, id: Id)
    requires id !in b.txs && id in after.txs && after.txs == b.txs[id := after.txs[id]]
    ensures Moved(b, None, Some(after.txs[id]), after)
  {
    var come := Some(after.txs[id]);
    forall t ensures IncomeMoved(b, None, come, after, t) {
      IncomeGrows(b, after, id, t);
    }
    forall t ensures ExpenseMoved(b, None, come, after, t) {
      ExpenseGrows(b, after, id, t);
    }
    forall x ensures PaidMoved(b, None, come, after, x) {
      ContributionGrows(b, after, id, x);
      PenaltyGrows(b, after, id, x);
    }
  }

  lemma RemovingMoves(b: Books, after: Books, id: Id)
    requires id in b.txs && after.txs == b.txs - {id}
    ensures Moved(b, Some(b.txs[id]), None, after)
  {
    assert b.txs == after.txs[id := b.txs[id]];
    AddingMoves(after, b, id);
    var come := Some(b.txs[id]);
    forall t ensures IncomeMoved(b, come, None, after, t) && ExpenseMoved(b, come, None, after, t) {
      assert IncomeMoved(after, None, come, b, t) && ExpenseMoved(after, None, come, b, t);
    }
    forall x ensures PaidMoved(b, come, None, after, x) {
      assert PaidMoved(after, None, come, b, x);
    }
  }

  function If(condition: bool, n: int): int {
    if condition then n else 0
  }

  /** The new amount is all that changes, and the transaction is income. */
  ghost predicate AmountRaised(b: Books, id: Id, newAmount: int, after: Books) {
    id in b.txs && b.txs[id].kind == Income && after.txs == b.txs[id := b.txs[id].(amount := newAmount)]
  }

  lemma RaisedPaid(b: Books, id: Id, newAmount: int, after: Books, x: Id)
    requires AmountRaised(b, id, newAmount, after)
    requires PaidMoved(b, Some(b.txs[id]), Some(after.txs[id]), after, x)
    ensures var tx, rise := b.txs[id], newAmount - b.txs[id].amount;
      && PaidContribution(after, x) == PaidContribution(b, x) + If(tx.contribution == Some(x), rise)
      && PaidAssignment(after, x) == PaidAssignment(b, x) + If(tx.assignment == Some(x), rise)
  {
  }

  lemma RaisedTotals(b: Books, id: Id, newAmount: int, after: Books, t: TeamId)
    requires AmountRaised(b, id, newAmount, after)
    requires IncomeMoved(b, Some(b.txs[id]), Some(after.txs[id]), after, t)
    requires ExpenseMoved(b, Some(b.txs[id]), Some(after.txs[id]), after, t)
    ensures TeamIncome(after, t) == TeamIncome(b, t) + If(t == b.txs[id].team, newAmount - b.txs[id].amount)
    ensures TeamExpense(after, t) == TeamExpense(b, t)
  {
  }

  /**
    A new amount on an income transaction and nothing else: its team's income and the paid amount of
    its one target rise by exactly the difference, and no other figure moves, whatever team t, contribution c
    and assignment a it belongs to.
   */
  lemma AmountAloneMoves(b: Books, id: Id, newAmount: int, after: Books, t: TeamId, c: Id, a: Id)
    requires AmountRaised(b, id, newAmount, after)
    ensures var tx, rise := b.txs[id], newAmount - b.txs[id].amount;
      && TeamIncome(after, t) == TeamIncome(b, t) + If(t == tx.team, rise)
      && TeamExpense(after, t) == TeamExpense(b, t)
      && PaidContribution(after, c) == PaidContribution(b, c) + If(tx.contribution == Some(c), rise)
      && PaidAssignment(after, a) == PaidAssignment(b, a) + If(tx.assignment == Some(a), rise)
  {
    ChangingMoves(b, after, id);
    RaisedTotals(b, id, newAmount, after, t);
    RaisedPaid(b, id, newAmount, after, c);
    RaisedPaid(b, id, newAmount, after, a);
  }
}
