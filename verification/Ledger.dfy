/**
  The finance tables and the operations on them as interleaved calls. Creating and
  updating a transaction are not atomic: the service checks with one statement and
  writes with a later one, and other calls may run in between or the call may die.
  Everything else is a single statement. Ids are UUIDs: `issued` holds every id ever
  handed out, so that none is used twice.
 */
module Ledger {
  import opened Wrappers
  import opened Sums

  type Id = int
  type TeamId = int
  type UserId = int
  type CallId = int

  datatype Kind = Income | Expense

  datatype Transaction = Transaction(team: TeamId, kind: Kind, amount: int,
                                     contribution: Option<Id>, assignment: Option<Id>)
  datatype Contribution = Contribution(team: TeamId, user: UserId, amount: int, archived: bool)
  datatype Penalty = Penalty(team: TeamId, amount: int)

  /** amount is a snapshot of the penalty's; the column is nullable. */
  datatype Assignment = Assignment(team: TeamId, user: UserId, penalty: Option<Id>, amount: Option<int>)

  datatype Books = Books(txs: map<Id, Transaction>, contributions: map<Id, Contribution>,
                         assignments: map<Id, Assignment>, penalties: map<Id, Penalty>, issued: set<Id>)

  /** Amounts are cents, bounded by a CHECK on every table but penalty_assignments. */
  const MAX_AMOUNT := 100000000

  predicate AmountAccepted(amount: int) {
    0 < amount <= MAX_AMOUNT
  }

  datatype TxPatch = TxPatch(kind: Option<Kind>, amount: Option<int>)

  /** A call between its statements. `checked` says that the guarding read has been done and passed. */
  datatype Call =
    | Creating(tx: Transaction, checked: bool)
    | Updating(id: Id, team: TeamId, patch: TxPatch, checked: bool)
    | Assigning(team: TeamId, user: UserId, penalty: Id, snapshot: Option<int>)

  datatype State = State(books: Books, calls: map<CallId, Call>)

  datatype Action =
    | StartCreate(call: CallId, tx: Transaction)
    | CheckTarget(call: CallId)
    | Insert(call: CallId, newId: Id)
    | StartUpdate(call: CallId, id: Id, team: TeamId, patch: TxPatch)
    | CheckLinks(call: CallId)
    | Write(call: CallId)
    | StartAssign(call: CallId, team: TeamId, user: UserId, penalty: Id)
    | ReadPenalty(call: CallId)
    | InsertAssignment(call: CallId, newId: Id, members: set<UserId>)
    | Die(call: CallId)
    | Edit(op: SingleStatement)

  datatype SingleStatement =
    | DeleteTransaction(id: Id, team: TeamId)
    | CreateContributions(ids: seq<Id>, team: TeamId, amount: int, users: seq<UserId>, members: set<UserId>)
    | UpdateContribution(id: Id, team: TeamId, newAmount: Option<int>, archived: Option<bool>)
    | DeleteContribution(id: Id, team: TeamId)
    | CreatePenalty(id: Id, team: TeamId, amount: int)
    | UpdatePenalty(id: Id, team: TeamId, newAmount: Option<int>)
    | DeletePenalty(id: Id, team: TeamId)
    | DeleteAssignment(id: Id, team: TeamId)

  // ----- Statements -----

  predicate Linked(tx: Transaction) {
    tx.contribution.Some? || tx.assignment.Some?
  }

  /** The checks CreateTransaction makes on the request alone: at most one link, and a link only on income. */
  predicate RequestOk(tx: Transaction) {
    !(tx.contribution.Some? && tx.assignment.Some?) && (Linked(tx) ==> tx.kind == Income)
  }

  /** ContributionBelongsToTeam / PenaltyAssignmentBelongsToTeam. */
  predicate TargetBelongs(b: Books, tx: Transaction) {
    && (tx.contribution.Some? ==>
          && tx.contribution.value in b.contributions
          && b.contributions[tx.contribution.value].team == tx.team)
    && (tx.assignment.Some? ==>
          && tx.assignment.value in b.assignments
          && b.assignments[tx.assignment.value].team == tx.team)
  }

  /** The foreign keys and the CHECK on a transaction row. */
  predicate RowAccepted(b: Books, tx: Transaction) {
    && AmountAccepted(tx.amount)
    && (tx.contribution.Some? ==> tx.contribution.value in b.contributions)
    && (tx.assignment.Some? ==> tx.assignment.value in b.assignments)
  }

  predicate TxOf(b: Books, id: Id, team: TeamId) {
    id in b.txs && b.txs[id].team == team
  }

  function Patched(tx: Transaction, p: TxPatch): Transaction {
    tx.(kind := p.kind.GetOr(tx.kind), amount := p.amount.GetOr(tx.amount))
  }

  /** ON DELETE SET NULL. */
  function UnlinkContribution(txs: map<Id, Transaction>, c: Id): map<Id, Transaction> {
    map t | t in txs :: if txs[t].contribution == Some(c) then txs[t].(contribution := None) else txs[t]
  }

  function UnlinkAssignment(txs: map<Id, Transaction>, a: Id): map<Id, Transaction> {
    map t | t in txs :: if txs[t].assignment == Some(a) then txs[t].(assignment := None) else txs[t]
  }

  /** One row per user, all or none. */
  function AddContributions(contributions: map<Id, Contribution>, ids: seq<Id>, users: seq<UserId>, team: TeamId,
                            amount: int)
    : map<Id, Contribution>
    requires |ids| == |users|
  {
    if ids == [] then contributions
    else
      var n := |ids| - 1;
      var before := AddContributions(contributions, ids[..n], users[..n], team, amount);
      before[ids[n] := Contribution(team, users[n], amount, false)]
  }

  predicate Distinct(ids: seq<Id>) {
    forall i, j :: 0 <= i < j < |ids| ==> ids[i] != ids[j]
  }

  function IdSet(ids: seq<Id>): set<Id> {
    set id | id in ids
  }

  function WithContributions(b: Books, ids: seq<Id>, users: seq<UserId>, team: TeamId, amount: int): Books
    requires |ids| == |users|
  {
    b.(contributions := AddContributions(b.contributions, ids, users, team, amount), issued := b.issued + IdSet(ids))
  }

  predicate StatementEnabled(b: Books, op: SingleStatement) {
    match op
    case CreateContributions(ids, _, _, users, _) =>
      |ids| == |users| && Distinct(ids) && forall id <- ids :: id !in b.issued
    case CreatePenalty(id, _, _) => id !in b.issued
    case _ => true
  }

  function Execute(b: Books, op: SingleStatement): Books
    requires StatementEnabled(b, op)
  {
    match op
    case DeleteTransaction(id, team) => if TxOf(b, id, team) then b.(txs := b.txs - {id}) else b
    case CreateContributions(ids, team, amount, users, members) =>
      if AmountAccepted(amount) && forall u <- users :: u in members
      then WithContributions(b, ids, users, team, amount)
      else b
    case UpdateContribution(id, team, amount, archived) =>
      if id in b.contributions && b.contributions[id].team == team && AmountAccepted(amount.GetOr(1)) then
        var c := b.contributions[id];
        var patched := c.(amount := amount.GetOr(c.amount), archived := archived.GetOr(c.archived));
        b.(contributions := b.contributions[id := patched])
      else b
    case DeleteContribution(id, team) =>
      if id in b.contributions && b.contributions[id].team == team
      then b.(contributions := b.contributions - {id}, txs := UnlinkContribution(b.txs, id))
      else b
    case CreatePenalty(id, team, amount) =>
      if AmountAccepted(amount)
      then b.(penalties := b.penalties[id := Penalty(team, amount)], issued := b.issued + {id}) else b
    case UpdatePenalty(id, team, newAmount) =>
      if id in b.penalties && b.penalties[id].team == team && AmountAccepted(newAmount.GetOr(1))
      then b.(penalties := b.penalties[id := Penalty(team, newAmount.GetOr(b.penalties[id].amount))]) else b
    case DeletePenalty(id, team) =>
      if id in b.penalties && b.penalties[id].team == team then
        b.(penalties := b.penalties - {id},
           assignments := map a | a in b.assignments ::
             if b.assignments[a].penalty == Some(id) then b.assignments[a].(penalty := None) else b.assignments[a])
      else b
    case DeleteAssignment(id, team) =>
      if id in b.assignments && b.assignments[id].team == team
      then b.(assignments := b.assignments - {id}, txs := UnlinkAssignment(b.txs, id))
      else b
  }

  // ----- Interleaved steps -----

  predicate Enabled(s: State, a: Action) {
    match a
    case StartCreate(c, _) => c !in s.calls
    case StartUpdate(c, _, _, _) => c !in s.calls
    case CheckTarget(c) => c in s.calls && s.calls[c].Creating? && !s.calls[c].checked
    case Insert(c, id) =>
      c in s.calls && s.calls[c].Creating? && (Linked(s.calls[c].tx) ==> s.calls[c].checked) && id !in s.books.issued
    case CheckLinks(c) => c in s.calls && s.calls[c].Updating? && !s.calls[c].checked
    case Write(c) =>
      c in s.calls && s.calls[c].Updating? && (s.calls[c].patch.kind == Some(Expense) ==> s.calls[c].checked)
    case StartAssign(c, _, _, _) => c !in s.calls
    case ReadPenalty(c) => c in s.calls && s.calls[c].Assigning? && s.calls[c].snapshot.None?
    case InsertAssignment(c, id, _) =>
      c in s.calls && s.calls[c].Assigning? && s.calls[c].snapshot.Some? && id !in s.books.issued
    case Die(c) => c in s.calls
    case Edit(op) => StatementEnabled(s.books, op)
  }

  /** The amount was read by an earlier statement of the same transaction. */
  function NewAssignment(call: Call): Assignment
    requires call.Assigning?
  {
    Assignment(call.team, call.user, Some(call.penalty), call.snapshot)
  }

  function Gone(s: State, c: CallId): State {
    s.(calls := s.calls - {c})
  }

  function Apply(s: State, a: Action): State
    requires Enabled(s, a)
  {
    match a
    case StartCreate(c, tx) => if RequestOk(tx) then s.(calls := s.calls[c := Creating(tx, false)]) else s
    case CheckTarget(c) =>
      if TargetBelongs(s.books, s.calls[c].tx) then s.(calls := s.calls[c := Creating(s.calls[c].tx, true)])
      else Gone(s, c)
    case Insert(c, id) =>
      var tx := s.calls[c].tx;
      if RowAccepted(s.books, tx)
      then Gone(s, c).(books := s.books.(txs := s.books.txs[id := tx], issued := s.books.issued + {id}))
      else Gone(s, c)
    case StartUpdate(c, id, team, patch) => s.(calls := s.calls[c := Updating(id, team, patch, false)])
    case CheckLinks(c) =>
      var call := s.calls[c];
      if TxOf(s.books, call.id, call.team) && !Linked(s.books.txs[call.id])
      then s.(calls := s.calls[c := Updating(call.id, call.team, call.patch, true)]) else Gone(s, c)
    case Write(c) =>
      var call := s.calls[c];
      if TxOf(s.books, call.id, call.team) && AmountAccepted(call.patch.amount.GetOr(1))
      then Gone(s, c).(books := s.books.(txs := s.books.txs[call.id := Patched(s.books.txs[call.id], call.patch)]))
      else Gone(s, c)
    case StartAssign(c, team, user, penalty) => s.(calls := s.calls[c := Assigning(team, user, penalty, None)])
    case ReadPenalty(c) =>
      var call := s.calls[c];
      if call.penalty in s.books.penalties && s.books.penalties[call.penalty].team == call.team
      then
        var snapshot := Some(s.books.penalties[call.penalty].amount);
        s.(calls := s.calls[c := Assigning(call.team, call.user, call.penalty, snapshot)])
      else Gone(s, c)
    case InsertAssignment(c, id, members) =>
      var call := s.calls[c];
      if call.penalty in s.books.penalties && call.user in members
      then
        var assignments := s.books.assignments[id := NewAssignment(call)];
        Gone(s, c).(books := s.books.(assignments := assignments, issued := s.books.issued + {id}))
      else Gone(s, c)
    case Die(c) => Gone(s, c)
    case Edit(op) => s.(books := Execute(s.books, op))
  }

  predicate Legal(s: State, run: seq<Action>)
    decreases |run|
  {
    run == [] || (Enabled(s, run[0]) && Legal(Apply(s, run[0]), run[1..]))
  }

  function Exec(s: State, run: seq<Action>): State
    requires Legal(s, run)
    decreases |run|
  {
    if run == [] then s else Exec(Apply(s, run[0]), run[1..])
  }

  // ----- The invariant -----

  /** A transaction links at most one target, and what is linked is income of the target's own team. */
  ghost predicate TxOk(b: Books, tx: Transaction) {
    RequestOk(tx) && TargetBelongs(b, tx) && AmountAccepted(tx.amount)
  }

  /** A penalty an assignment still refers to is of its own team; DeletePenalty sets the reference to NULL. */
  ghost predicate AssignmentOk(b: Books, a: Assignment) {
    && (a.amount.Some? ==> AmountAccepted(a.amount.value))
    && (a.penalty.Some? ==> a.penalty.value in b.penalties && b.penalties[a.penalty.value].team == a.team)
  }

  ghost predicate BooksOk(b: Books) {
    && (forall t :: t in b.txs ==> TxOk(b, b.txs[t]) && t in b.issued)
    && (forall c :: c in b.contributions ==> AmountAccepted(b.contributions[c].amount) && c in b.issued)
    && (forall a :: a in b.assignments ==> AssignmentOk(b, b.assignments[a]) && a in b.issued)
    && (forall p :: p in b.penalties ==> AmountAccepted(b.penalties[p].amount) && p in b.issued)
  }

  /** The target is of the transaction's team, or is gone for good. */
  ghost predicate TargetStands(b: Books, tx: Transaction) {
    && (tx.contribution.Some? ==>
          && tx.contribution.value in b.issued
          && (tx.contribution.value in b.contributions ==> b.contributions[tx.contribution.value].team == tx.team))
    && (tx.assignment.Some? ==>
          && tx.assignment.value in b.issued
          && (tx.assignment.value in b.assignments ==> b.assignments[tx.assignment.value].team == tx.team))
  }

  /** What a call's check established still holds: targets keep their team, and links are never added after creation. */
  ghost predicate CallOk(b: Books, call: Call) {
    match call
    case Creating(tx, checked) => RequestOk(tx) && (checked ==> TargetStands(b, tx))
    case Updating(id, _, patch, checked) => checked ==> id in b.issued && (id in b.txs ==> !Linked(b.txs[id]))
    case Assigning(team, _, penalty, snapshot) => snapshot.Some? ==>
      && AmountAccepted(snapshot.value) && penalty in b.issued
      && (penalty in b.penalties ==> b.penalties[penalty].team == team)
  }

  ghost predicate Inv(s: State) {
    BooksOk(s.books) && forall c :: c in s.calls ==> CallOk(s.books, s.calls[c])
  }

  /** All of an assignment but its reference to the penalty's definition. */
  predicate SameDebt(a: Assignment, b: Assignment) {
    a.team == b.team && a.user == b.user && a.amount == b.amount
  }

  /** What any step may do to the books while a call is between its check and its write. */
  ghost predicate Evolves(before: Books, after: Books) {
    && before.issued <= after.issued
    && (forall c :: c in after.contributions && c in before.issued ==>
          c in before.contributions && after.contributions[c].team == before.contributions[c].team)
    && (forall a :: a in after.assignments && a in before.issued ==>
          a in before.assignments && SameDebt(after.assignments[a], before.assignments[a]))
    && (forall p :: p in after.penalties && p in before.issued ==>
          p in before.penalties && after.penalties[p].team == before.penalties[p].team)
    && (forall t :: t in after.txs && t in before.issued ==>
          t in before.txs && (Linked(after.txs[t]) ==> Linked(before.txs[t])))
  }

  lemma EvolvesAt(before: Books, after: Books, x: Id)
    requires Evolves(before, after) && x in before.issued
    ensures x in after.issued
    ensures x in after.contributions ==>
      x in before.contributions && after.contributions[x].team == before.contributions[x].team
    ensures x in after.assignments ==> x in before.assignments && SameDebt(after.assignments[x], before.assignments[x])
    ensures x in after.penalties ==> x in before.penalties && after.penalties[x].team == before.penalties[x].team
  {
  }

  lemma CallSurvives(before: Books, after: Books, call: Call)
    requires Evolves(before, after) && CallOk(before, call)
    ensures CallOk(after, call)
  {
    if call.Creating? && call.checked {
      if call.tx.contribution.Some? {
        EvolvesAt(before, after, call.tx.contribution.value);
      }
      if call.tx.assignment.Some? {
        EvolvesAt(before, after, call.tx.assignment.value);
      }
    }
    if call.Assigning? && call.snapshot.Some? {
      EvolvesAt(before, after, call.penalty);
    }
  }

  lemma Issued(b: Books, x: Id)
    requires BooksOk(b) && (x in b.contributions || x in b.assignments)
    ensures x in b.issued
  {
  }

  lemma BelongingStands(b: Books, tx: Transaction)
    requires BooksOk(b) && TargetBelongs(b, tx)
    ensures TargetStands(b, tx)
  {
    if tx.contribution.Some? {
      Issued(b, tx.contribution.value);
    }
    if tx.assignment.Some? {
      Issued(b, tx.assignment.value);
    }
  }

  /** New or edited targets of unchanged teams leave every transaction sound. */
  lemma TxSurvives(b: Books, after: Books, tx: Transaction)
    requires TxOk(b, tx)
    requires forall c :: c in b.contributions ==>
      c in after.contributions && after.contributions[c].team == b.contributions[c].team
    requires forall a :: a in b.assignments ==>
      a in after.assignments && after.assignments[a].team == b.assignments[a].team
    ensures TxOk(after, tx)
  {
    if tx.contribution.Some? {
      var c: Id := tx.contribution.value;
      assert c in b.contributions;
    }
    if tx.assignment.Some? {
      var a: Id := tx.assignment.value;
      assert a in b.assignments;
    }
  }

  lemma {:induction false} ContributionsAdded(cs: map<Id, Contribution>, ids: seq<Id>, users: seq<UserId>,
                                              team: TeamId, amount: int)
    requires |ids| == |users|
    ensures var all := AddContributions(cs, ids, users, team, amount);
      && all.Keys == cs.Keys + IdSet(ids)
      && (forall c :: c in cs && c !in ids ==> all[c] == cs[c])
      && (forall c :: c in ids ==> all[c].team == team && all[c].amount == amount)
  {
    if ids != [] {
      var n := |ids| - 1;
      ContributionsAdded(cs, ids[..n], users[..n], team, amount);
      assert ids == ids[..n] + [ids[n]];
    }
  }

  lemma NewContributionsKeepBooks(b: Books, ids: seq<Id>, users: seq<UserId>, team: TeamId, amount: int)
    requires BooksOk(b) && AmountAccepted(amount) && |ids| == |users| && forall id <- ids :: id !in b.issued
    ensures var after := WithContributions(b, ids, users, team, amount);
      BooksOk(after) && Evolves(b, after)
  {
    var after := WithContributions(b, ids, users, team, amount);
    ContributionsAdded(b.contributions, ids, users, team, amount);
    forall c | c in b.contributions ensures c in after.contributions && after.contributions[c] == b.contributions[c] {
      assert c in b.issued;
    }
    forall t | t in after.txs ensures TxOk(after, after.txs[t]) {
      TxSurvives(b, after, b.txs[t]);
    }
  }

  lemma DeletePenaltyKeepsBooks(b: Books, op: SingleStatement)
    requires BooksOk(b) && StatementEnabled(b, op) && op.DeletePenalty?
    ensures BooksOk(Execute(b, op)) && Evolves(b, Execute(b, op))
  {
  }

  lemma PenaltyKeepsBooks(b: Books, id: Id, p: Penalty)
    requires BooksOk(b) && AmountAccepted(p.amount)
    requires id in b.penalties ==> b.penalties[id].team == p.team
    requires id in b.issued ==> id in b.penalties
    ensures var after := b.(penalties := b.penalties[id := p], issued := b.issued + {id});
      BooksOk(after) && Evolves(b, after)
  {
  }

  lemma UpdatePenaltyKeepsBooks(b: Books, id: Id, team: TeamId, newAmount: Option<int>)
    requires BooksOk(b)
    ensures var after := Execute(b, UpdatePenalty(id, team, newAmount)); BooksOk(after) && Evolves(b, after)
  {
    if id in b.penalties && b.penalties[id].team == team && AmountAccepted(newAmount.GetOr(1)) {
      PenaltyKeepsBooks(b, id, Penalty(team, newAmount.GetOr(b.penalties[id].amount)));
      assert b.issued + {id} == b.issued;
    }
  }

  lemma UpdateContributionKeepsBooks(b: Books, op: SingleStatement)
    requires BooksOk(b) && op.UpdateContribution?
    ensures BooksOk(Execute(b, op)) && Evolves(b, Execute(b, op))
  {
  }

  lemma UnlinkingContributionKeepsBooks(b: Books, id: Id)
    requires BooksOk(b)
    ensures var after := b.(contributions := b.contributions - {id}, txs := UnlinkContribution(b.txs, id));
      BooksOk(after) && Evolves(b, after)
  {
  }

  lemma UnlinkingAssignmentKeepsBooks(b: Books, id: Id)
    requires BooksOk(b)
    ensures var after := b.(assignments := b.assignments - {id}, txs := UnlinkAssignment(b.txs, id));
      BooksOk(after) && Evolves(b, after)
  {
  }

  lemma StatementKeepsBooks(b: Books, op: SingleStatement)
    requires BooksOk(b) && StatementEnabled(b, op)
    ensures BooksOk(Execute(b, op)) && Evolves(b, Execute(b, op))
  {
    match op {
      case CreateContributions(ids, team, amount, users, members) =>
        if AmountAccepted(amount) && forall u <- users :: u in members {
          NewContributionsKeepBooks(b, ids, users, team, amount);
        }
      case DeleteContribution(id, team) => UnlinkingContributionKeepsBooks(b, id);
      case DeleteAssignment(id, team) => UnlinkingAssignmentKeepsBooks(b, id);
      case DeletePenalty(_, _) => DeletePenaltyKeepsBooks(b, op);
      case CreatePenalty(id, team, amount) =>
        if AmountAccepted(amount) {
          PenaltyKeepsBooks(b, id, Penalty(team, amount));
        }
      case UpdatePenalty(id, team, newAmount) => UpdatePenaltyKeepsBooks(b, id, team, newAmount);
      case UpdateContribution(_, _, _, _) => UpdateContributionKeepsBooks(b, op);
      case DeleteTransaction(_, _) =>
    }
  }

  lemma InsertKeepsBooks(b: Books, tx: Transaction, id: Id)
    requires BooksOk(b) && RowAccepted(b, tx) && RequestOk(tx) && id !in b.issued
    requires Linked(tx) ==> TargetStands(b, tx)
    ensures var after := b.(txs := b.txs[id := tx], issued := b.issued + {id});
      BooksOk(after) && Evolves(b, after)
  {
  }

  lemma PatchKeepsBooks(b: Books, id: Id, patch: TxPatch)
    requires BooksOk(b) && id in b.txs && AmountAccepted(patch.amount.GetOr(1))
    requires patch.kind == Some(Expense) ==> !Linked(b.txs[id])
    ensures var after := b.(txs := b.txs[id := Patched(b.txs[id], patch)]);
      BooksOk(after) && Evolves(b, after)
  {
  }

  lemma AssignKeepsBooks(b: Books, a: Assignment, id: Id)
    requires BooksOk(b) && AssignmentOk(b, a) && id !in b.issued
    ensures var after := b.(assignments := b.assignments[id := a], issued := b.issued + {id});
      BooksOk(after) && Evolves(b, after)
  {
  }

  lemma StepKeepsBooks(s: State, a: Action)
    requires Inv(s) && Enabled(s, a)
    ensures BooksOk(Apply(s, a).books) && Evolves(s.books, Apply(s, a).books)
  {
    match a {
      case Edit(op) => StatementKeepsBooks(s.books, op);
      case Insert(c, id) =>
        if RowAccepted(s.books, s.calls[c].tx) {
          InsertKeepsBooks(s.books, s.calls[c].tx, id);
        }
      case Write(c) =>
        var call := s.calls[c];
        assert CallOk(s.books, call);
        if TxOf(s.books, call.id, call.team) && AmountAccepted(call.patch.amount.GetOr(1)) {
          PatchKeepsBooks(s.books, call.id, call.patch);
        }
      case InsertAssignment(c, id, members) =>
        var call := s.calls[c];
        assert CallOk(s.books, call);
        if call.penalty in s.books.penalties && call.user in members {
          AssignKeepsBooks(s.books, NewAssignment(call), id);
        }
      case _ =>
    }
  }

  lemma StepKeepsInv(s: State, a: Action)
    requires Inv(s) && Enabled(s, a)
    ensures Inv(Apply(s, a))
  {
    StepKeepsBooks(s, a);
    var after := Apply(s, a);
    if a.CheckTarget? && TargetBelongs(s.books, s.calls[a.call].tx) {
      BelongingStands(s.books, s.calls[a.call].tx);
    }
    forall c | c in after.calls ensures CallOk(after.books, after.calls[c]) {
      if c in s.calls && after.calls[c] == s.calls[c] {
        CallSurvives(s.books, after.books, s.calls[c]);
      }
    }
  }

  lemma {:induction false} RunKeepsInv(s: State, run: seq<Action>)
    requires Inv(s) && Legal(s, run)
    ensures Inv(Exec(s, run))
    decreases |run|
  {
    if run != [] {
      StepKeepsInv(s, run[0]);
      RunKeepsInv(Apply(s, run[0]), run[1..]);
    }
  }

  /**
    Whatever calls interleave or die, every transaction links at most one target, and every linked
    one is income of the team its target belongs to.
   */
  lemma LinksStaySound(s: State, run: seq<Action>, t: Id)
    requires BooksOk(s.books) && s.calls == map[] && Legal(s, run) && t in Exec(s, run).books.txs
    ensures var b := Exec(s, run).books; var tx := b.txs[t];
      && !(tx.contribution.Some? && tx.assignment.Some?)
      && (tx.contribution.Some? ==>
            && tx.kind == Income && tx.contribution.value in b.contributions
            && b.contributions[tx.contribution.value].team == tx.team)
      && (tx.assignment.Some? ==>
            && tx.kind == Income && tx.assignment.value in b.assignments
            && b.assignments[tx.assignment.value].team == tx.team)
  {
    RunKeepsInv(s, run);
    assert TxOk(Exec(s, run).books, Exec(s, run).books.txs[t]);
  }

  lemma EvolvesTransitively(a: Books, b: Books, c: Books)
    requires Evolves(a, b) && Evolves(b, c)
    ensures Evolves(a, c)
  {
  }

  /**
    What a member owes was fixed when the penalty was assigned: no later edit or deletion of
    the penalty changes it, and a deleted assignment, contribution or transaction never returns.
   */
  lemma {:induction false} SnapshotsSurviveEveryRun(s: State, run: seq<Action>)
    requires Inv(s) && Legal(s, run)
    ensures Evolves(s.books, Exec(s, run).books)
    decreases |run|
  {
    if run != [] {
      var next := Apply(s, run[0]);
      StepKeepsInv(s, run[0]);
      SnapshotsSurviveEveryRun(next, run[1..]);
      StepKeepsBooks(s, run[0]);
      EvolvesTransitively(s.books, next.books, Exec(next, run[1..]).books);
    }
  }

  // ----- Sums -----

  function PaysContribution(b: Books, t: Id, c: Id): int {
    if t in b.txs && b.txs[t].kind == Income && b.txs[t].contribution == Some(c) then b.txs[t].amount else 0
  }

  function PaysAssignment(b: Books, t: Id, a: Id): int {
    if t in b.txs && b.txs[t].kind == Income && b.txs[t].assignment == Some(a) then b.txs[t].amount else 0
  }

  function IncomeOf(b: Books, t: Id, team: TeamId): int {
    if t in b.txs && b.txs[t].kind == Income && b.txs[t].team == team then b.txs[t].amount else 0
  }

  function ExpenseOf(b: Books, t: Id, team: TeamId): int {
    if t in b.txs && b.txs[t].kind == Expense && b.txs[t].team == team then b.txs[t].amount else 0
  }

  function UnlinkedIncomeOf(b: Books, t: Id, team: TeamId): int {
    if t in b.txs && !Linked(b.txs[t]) then IncomeOf(b, t, team) else 0
  }

  // The summands as functions of the transaction.

  function ToContribution(b: Books, c: Id): Id -> int {
    t => PaysContribution(b, t, c)
  }

  function ToAssignment(b: Books, a: Id): Id -> int {
    t => PaysAssignment(b, t, a)
  }

  function AsIncome(b: Books, team: TeamId): Id -> int {
    t => IncomeOf(b, t, team)
  }

  function AsExpense(b: Books, team: TeamId): Id -> int {
    t => ExpenseOf(b, t, team)
  }

  function AsUnlinked(b: Books, team: TeamId): Id -> int {
    t => UnlinkedIncomeOf(b, t, team)
  }

  /** The live sums: never stored, always summed over the linked income. */
  ghost function PaidContribution(b: Books, c: Id): int {
    Sum(b.txs.Keys, ToContribution(b, c))
  }

  ghost function PaidAssignment(b: Books, a: Id): int {
    Sum(b.txs.Keys, ToAssignment(b, a))
  }

  ghost function TeamIncome(b: Books, team: TeamId): int {
    Sum(b.txs.Keys, AsIncome(b, team))
  }

  ghost function TeamExpense(b: Books, team: TeamId): int {
    Sum(b.txs.Keys, AsExpense(b, team))
  }

  ghost function UnlinkedIncome(b: Books, team: TeamId): int {
    Sum(b.txs.Keys, AsUnlinked(b, team))
  }

  function ContributionsOf(b: Books, team: TeamId): set<Id> {
    set c | c in b.contributions && b.contributions[c].team == team
  }

  function AssignmentsOf(b: Books, team: TeamId): set<Id> {
    set a | a in b.assignments && b.assignments[a].team == team
  }

  ghost function AsPaidContribution(b: Books): Id -> int {
    c => PaidContribution(b, c)
  }

  ghost function AsPaidAssignment(b: Books): Id -> int {
    a => PaidAssignment(b, a)
  }

  function FromTxToContribution(b: Books, t: Id): Id -> int {
    c => PaysContribution(b, t, c)
  }

  function FromTxToAssignment(b: Books, t: Id): Id -> int {
    a => PaysAssignment(b, t, a)
  }

  ghost function AllPaidContributions(b: Books, team: TeamId): int {
    Sum(ContributionsOf(b, team), AsPaidContribution(b))
  }

  ghost function AllPaidAssignments(b: Books, team: TeamId): int {
    Sum(AssignmentsOf(b, team), AsPaidAssignment(b))
  }

  /** What one transaction pays on all of the team's contributions, and on all of its penalty assignments. */
  ghost function OnContributions(b: Books, team: TeamId): Id -> int {
    t => Sum(ContributionsOf(b, team), FromTxToContribution(b, t))
  }

  ghost function OnAssignments(b: Books, team: TeamId): Id -> int {
    t => Sum(AssignmentsOf(b, team), FromTxToAssignment(b, t))
  }

  lemma PaidOnContributions(b: Books, team: TeamId, t: Id)
    requires BooksOk(b) && t in b.txs
    ensures OnContributions(b, team)(t) == if b.txs[t].contribution.Some? then IncomeOf(b, t, team) else 0
  {
    var tx, cs := b.txs[t], ContributionsOf(b, team);
    assert TxOk(b, tx);
    if tx.contribution.Some? {
      var c: Id := tx.contribution.value;
      SumAt(cs, FromTxToContribution(b, t), c);
      assert c in cs <==> tx.team == team;
    } else {
      SumZero(cs, FromTxToContribution(b, t));
    }
  }

  lemma PaidOnAssignments(b: Books, team: TeamId, t: Id)
    requires BooksOk(b) && t in b.txs
    ensures OnAssignments(b, team)(t) == if b.txs[t].assignment.Some? then IncomeOf(b, t, team) else 0
  {
    var tx, as_ := b.txs[t], AssignmentsOf(b, team);
    assert TxOk(b, tx);
    if tx.assignment.Some? {
      var a: Id := tx.assignment.value;
      SumAt(as_, FromTxToAssignment(b, t), a);
      assert a in as_ <==> tx.team == team;
    } else {
      SumZero(as_, FromTxToAssignment(b, t));
    }
  }

  /**
    One income transaction of the team is either unlinked or pays exactly one of the team's contributions or
    assignments.
   */
  lemma OneTransactionIsConserved(b: Books, team: TeamId, t: Id)
    requires BooksOk(b) && t in b.txs
    ensures IncomeOf(b, t, team)
         == OnContributions(b, team)(t) + OnAssignments(b, team)(t) + UnlinkedIncomeOf(b, t, team)
  {
    PaidOnContributions(b, team, t);
    PaidOnAssignments(b, team, t);
    assert TxOk(b, b.txs[t]);
  }

  // The payments as two tables: one row per target and one column per transaction, and the other way round.

  function ContributionRows(b: Books): Id -> Id -> int {
    c => ToContribution(b, c)
  }

  function ContributionColumns(b: Books): Id -> Id -> int {
    t => FromTxToContribution(b, t)
  }

  function AssignmentRows(b: Books): Id -> Id -> int {
    a => ToAssignment(b, a)
  }

  function AssignmentColumns(b: Books): Id -> Id -> int {
    t => FromTxToAssignment(b, t)
  }

  /** The same payments counted per transaction and per target. */
  lemma PaidPerContribution(b: Books, team: TeamId)
    ensures AllPaidContributions(b, team) == Sum(b.txs.Keys, OnContributions(b, team))
  {
    SumSwap(ContributionsOf(b, team), b.txs.Keys, ContributionRows(b), ContributionColumns(b),
            AsPaidContribution(b), OnContributions(b, team));
  }

  lemma PaidPerAssignment(b: Books, team: TeamId)
    ensures AllPaidAssignments(b, team) == Sum(b.txs.Keys, OnAssignments(b, team))
  {
    SumSwap(AssignmentsOf(b, team), b.txs.Keys, AssignmentRows(b), AssignmentColumns(b),
            AsPaidAssignment(b), OnAssignments(b, team));
  }

  /** Conservation: a team's income is what was paid on its contributions and penalties plus its unlinked income. */
  lemma IncomeIsConserved(b: Books, team: TeamId)
    requires BooksOk(b)
    ensures TeamIncome(b, team) == AllPaidContributions(b, team) + AllPaidAssignments(b, team) + UnlinkedIncome(b, team)
  {
    var keys := b.txs.Keys;
    var linked: Id -> int := t => OnContributions(b, team)(t) + OnAssignments(b, team)(t);
    forall t | t in keys ensures AsIncome(b, team)(t) == linked(t) + AsUnlinked(b, team)(t) {
      OneTransactionIsConserved(b, team, t);
    }
    SumPlus(keys, linked, AsUnlinked(b, team), AsIncome(b, team));
    SumPlus(keys, OnContributions(b, team), OnAssignments(b, team), linked);
    PaidPerContribution(b, team);
    PaidPerAssignment(b, team);
  }

  /** Two books that agree on what a transaction books agree on the balance. */
  ghost predicate SameMoney(a: Books, b: Books) {
    a.txs.Keys == b.txs.Keys && forall t :: t in b.txs ==>
      a.txs[t].team == b.txs[t].team && a.txs[t].kind == b.txs[t].kind && a.txs[t].amount == b.txs[t].amount
  }

  lemma SameMoneySameBalance(a: Books, b: Books, team: TeamId)
    requires SameMoney(a, b)
    ensures TeamIncome(a, team) == TeamIncome(b, team) && TeamExpense(a, team) == TeamExpense(b, team)
  {
    SumSame(b.txs.Keys, AsIncome(a, team), AsIncome(b, team));
    SumSame(b.txs.Keys, AsExpense(a, team), AsExpense(b, team));
  }

  lemma SamePaidContribution(a: Books, b: Books, c: Id)
    requires SameMoney(a, b) && forall t :: t in b.txs ==>
      (a.txs[t].contribution == Some(c) <==> b.txs[t].contribution == Some(c))
    ensures PaidContribution(a, c) == PaidContribution(b, c)
  {
    SumSame(b.txs.Keys, ToContribution(a, c), ToContribution(b, c));
  }

  lemma SamePaidAssignment(b0: Books, b: Books, a: Id)
    requires SameMoney(b0, b) && forall t :: t in b.txs ==>
      (b0.txs[t].assignment == Some(a) <==> b.txs[t].assignment == Some(a))
    ensures PaidAssignment(b0, a) == PaidAssignment(b, a)
  {
    SumSame(b.txs.Keys, ToAssignment(b0, a), ToAssignment(b, a));
  }

  /**
    Deleting a contribution unlinks its payments but leaves income, expense and every other paid amount as they
    were.
   */
  lemma DeletingContributionKeepsBalance(b: Books, id: Id, owner: TeamId, team: TeamId)
    ensures var after := Execute(b, DeleteContribution(id, owner));
      && TeamIncome(after, team) == TeamIncome(b, team) && TeamExpense(after, team) == TeamExpense(b, team)
      && (forall c :: c != id ==> PaidContribution(after, c) == PaidContribution(b, c))
      && (forall a :: PaidAssignment(after, a) == PaidAssignment(b, a))
  {
    var after := Execute(b, DeleteContribution(id, owner));
    SameMoneySameBalance(after, b, team);
    forall c | c != id ensures PaidContribution(after, c) == PaidContribution(b, c) {
      SamePaidContribution(after, b, c);
    }
    forall a ensures PaidAssignment(after, a) == PaidAssignment(b, a) {
      SamePaidAssignment(after, b, a);
    }
  }

  lemma DeletingAssignmentKeepsBalance(b: Books, id: Id, owner: TeamId, team: TeamId)
    ensures var after := Execute(b, DeleteAssignment(id, owner));
      && TeamIncome(after, team) == TeamIncome(b, team) && TeamExpense(after, team) == TeamExpense(b, team)
      && (forall a :: a != id ==> PaidAssignment(after, a) == PaidAssignment(b, a))
      && (forall c :: PaidContribution(after, c) == PaidContribution(b, c))
  {
    var after := Execute(b, DeleteAssignment(id, owner));
    SameMoneySameBalance(after, b, team);
    forall a | a != id ensures PaidAssignment(after, a) == PaidAssignment(b, a) {
      SamePaidAssignment(after, b, a);
    }
    forall c ensures PaidContribution(after, c) == PaidContribution(b, c) {
      SamePaidContribution(after, b, c);
    }
  }

  /** Conservation holds after every run, whatever was interleaved. */
  lemma EveryRunConservesIncome(s: State, run: seq<Action>, team: TeamId)
    requires Inv(s) && Legal(s, run)
    ensures var b := Exec(s, run).books;
      TeamIncome(b, team) == AllPaidContributions(b, team) + AllPaidAssignments(b, team) + UnlinkedIncome(b, team)
  {
    RunKeepsInv(s, run);
    IncomeIsConserved(Exec(s, run).books, team);
  }
}
