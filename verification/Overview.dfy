/**
  The figures of the finance overview and of the data export, derived in several places from
  the same live sums: by the service per row, by SQL aggregates over all rows, and again by
  the export's own query.
 */
module Overview {
  import opened Wrappers
  import opened Sums
  import opened Ledger

  datatype Status = Open | Partial | Paid

  // ----- The derivations -----

  /** contributionStatus in the service. */
  function ContributionStatus(paid: int, amount: int): Status {
    if paid <= 0 then Open else if paid >= amount then Paid else Partial
  }

  /** The CASE of the export's query. */
  function ExportStatus(paid: int, amount: int): Status {
    if paid == 0 then Open else if paid >= amount then Paid else Partial
  }

  /** The WHERE clause of CountOpenContributions. */
  predicate CountedOpen(paid: int, amount: int, archived: bool) {
    !archived && paid < amount
  }

  /** assignmentPaid in the service. */
  predicate AssignmentPaid(paid: int, amount: Option<int>) {
    amount.Some? && paid >= amount.value
  }

  /** The WHERE clause of ListOpenPenaltiesByUser. */
  predicate ListedOpen(paid: int, amount: Option<int>) {
    amount.None? || paid < amount.value
  }

  function Max(a: int, b: int): int {
    if a >= b then a else b
  }

  /** GREATEST(amount - paid, 0); GREATEST skips a NULL argument, so a missing amount counts 0. */
  function OpenAmount(paid: int, amount: Option<int>): int {
    if amount.None? then 0 else Max(amount.value - paid, 0)
  }

  // ----- Where the derivations agree, and exactly where they would not -----

  /** The service and the export agree exactly when nothing negative was paid. */
  lemma ExportAgreesExactly(paid: int, amount: int)
    ensures ExportStatus(paid, amount) == ContributionStatus(paid, amount) <==> paid >= 0
  {
  }

  /** The open count and the service agree on an unarchived row exactly outside amount <= paid <= 0. */
  lemma CountAgreesExactly(paid: int, amount: int)
    ensures (CountedOpen(paid, amount, false) <==> ContributionStatus(paid, amount) != Paid) <==> !(amount <= paid <= 0)
  {
  }

  // ----- On the books -----

  lemma PaidIsNotNegative(b: Books, x: Id)
    requires BooksOk(b)
    ensures PaidContribution(b, x) >= 0 && PaidAssignment(b, x) >= 0
  {
    forall t | t in b.txs ensures ToContribution(b, x)(t) >= 0 && ToAssignment(b, x)(t) >= 0 {
      assert TxOk(b, b.txs[t]);
    }
    SumNonNegative(b.txs.Keys, ToContribution(b, x));
    SumNonNegative(b.txs.Keys, ToAssignment(b, x));
  }

  ghost function StatusOf(b: Books, c: Id): Status
    requires c in b.contributions
  {
    ContributionStatus(PaidContribution(b, c), b.contributions[c].amount)
  }

  /** The unarchived rows that the list shows as open or partial. */
  ghost function ShownOpen(b: Books, team: TeamId): set<Id> {
    set c | c in b.contributions && b.contributions[c].team == team &&
      !b.contributions[c].archived && StatusOf(b, c) != Paid
  }

  ghost function CountedContributions(b: Books, team: TeamId): set<Id> {
    set c | c in b.contributions && b.contributions[c].team == team &&
      CountedOpen(PaidContribution(b, c), b.contributions[c].amount, b.contributions[c].archived)
  }

  /**
    The header's open count is the number of unarchived rows shown as open or partial, and the export shows the
    same status.
   */
  lemma StatusesAgreeOnBooks(b: Books, team: TeamId)
    requires BooksOk(b)
    ensures CountedContributions(b, team) == ShownOpen(b, team)
    ensures forall c :: c in b.contributions ==>
      ExportStatus(PaidContribution(b, c), b.contributions[c].amount) == StatusOf(b, c)
  {
    forall c | c in b.contributions
      ensures ExportStatus(PaidContribution(b, c), b.contributions[c].amount) == StatusOf(b, c)
      ensures CountedOpen(PaidContribution(b, c), b.contributions[c].amount, false) <==> StatusOf(b, c) != Paid
    {
      PaidIsNotNegative(b, c);
    }
  }

  lemma StatusesAgreeInEveryRun(s: State, run: seq<Action>, team: TeamId)
    requires Inv(s) && Legal(s, run)
    ensures var b := Exec(s, run).books;
      && |CountedContributions(b, team)| == |ShownOpen(b, team)|
      && forall c :: c in b.contributions ==>
           ExportStatus(PaidContribution(b, c), b.contributions[c].amount) == StatusOf(b, c)
  {
    RunKeepsInv(s, run);
    StatusesAgreeOnBooks(Exec(s, run).books, team);
  }

  /** What the three labels mean: nothing paid, something but less than due, and at least what is due. */
  lemma StatusMeans(b: Books, c: Id)
    requires BooksOk(b) && c in b.contributions
    ensures StatusOf(b, c) == Open <==> PaidContribution(b, c) == 0
    ensures StatusOf(b, c) == Paid
       <==> 0 < PaidContribution(b, c) && b.contributions[c].amount <= PaidContribution(b, c)
    ensures StatusOf(b, c) == Partial <==> 0 < PaidContribution(b, c) < b.contributions[c].amount
  {
    PaidIsNotNegative(b, c);
  }

  /** The unarchived contributions of the team on which less was paid than is due. */
  ghost function Unsettled(b: Books, team: TeamId): set<Id> {
    set c | c in b.contributions && b.contributions[c].team == team && b.contributions[c].archived == false &&
      PaidContribution(b, c) < b.contributions[c].amount
  }

  lemma CountedAreUnsettled(b: Books, team: TeamId)
    ensures CountedContributions(b, team) == Unsettled(b, team)
  {
  }

  // ----- Open penalties -----

  ghost predicate IsListed(b: Books, a: Id)
    requires a in b.assignments
  {
    ListedOpen(PaidAssignment(b, a), b.assignments[a].amount)
  }

  ghost function OutstandingOf(b: Books, a: Id): int {
    if a in b.assignments then OpenAmount(PaidAssignment(b, a), b.assignments[a].amount) else 0
  }

  ghost function Outstanding(b: Books): Id -> int {
    a => OutstandingOf(b, a)
  }

  /** The rows the query groups, and the groups. */
  ghost function ListedAssignments(b: Books, team: TeamId, user: UserId): set<Id> {
    set a | a in AssignmentsOf(b, team) && b.assignments[a].user == user && IsListed(b, a)
  }

  ghost function ListedUsers(b: Books, team: TeamId): set<UserId> {
    set a | a in AssignmentsOf(b, team) && IsListed(b, a) :: b.assignments[a].user
  }

  ghost function UserTotalOf(b: Books, team: TeamId, user: UserId): int {
    Sum(ListedAssignments(b, team, user), Outstanding(b))
  }

  ghost function UserTotal(b: Books, team: TeamId): UserId -> int {
    u => UserTotalOf(b, team, u)
  }

  /** What is outstanding on an assignment: nothing once it is paid in full, and nothing if its amount is missing. */
  lemma OutstandingIs(b: Books, a: Id)
    requires a in b.assignments
    ensures var due, paid := b.assignments[a].amount, PaidAssignment(b, a);
      && (due.None? || due.value <= paid ==> Outstanding(b)(a) == 0)
      && (due.Some? && paid < due.value ==> Outstanding(b)(a) + paid == due.value)
  {
  }

  /** A member is listed exactly when one of their assignments is not shown as paid. */
  lemma ListedExactlyWhenUnpaid(b: Books, team: TeamId, user: UserId)
    ensures user in ListedUsers(b, team) <==>
      exists a :: && a in b.assignments && b.assignments[a].team == team && b.assignments[a].user == user
                  && !AssignmentPaid(PaidAssignment(b, a), b.assignments[a].amount)
    ensures user in ListedUsers(b, team) <==>
      exists a :: && a in b.assignments && b.assignments[a].team == team && b.assignments[a].user == user
                  && (b.assignments[a].amount.None? || PaidAssignment(b, a) < b.assignments[a].amount.value)
  {
  }

  // One table of open amounts: a row per listed member and a column per assignment.

  ghost function OwedBy(b: Books, user: UserId, a: Id): int {
    if a in b.assignments && b.assignments[a].user == user then OutstandingOf(b, a) else 0
  }

  ghost function MemberRow(b: Books, user: UserId): Id -> int {
    a => OwedBy(b, user, a)
  }

  ghost function AssignmentColumn(b: Books, a: Id): UserId -> int {
    u => OwedBy(b, u, a)
  }

  ghost function MemberRows(b: Books): UserId -> Id -> int {
    u => MemberRow(b, u)
  }

  ghost function AssignmentColumns(b: Books): Id -> UserId -> int {
    a => AssignmentColumn(b, a)
  }

  /** A group's total may as well be summed over all of the team's assignments. */
  lemma GroupIsItsRow(b: Books, team: TeamId, user: UserId)
    ensures UserTotalOf(b, team, user) == Sum(AssignmentsOf(b, team), MemberRow(b, user))
  {
    var listed := ListedAssignments(b, team, user);
    SumSame(listed, Outstanding(b), MemberRow(b, user));
    SumOutside(AssignmentsOf(b, team), listed, MemberRow(b, user));
  }

  lemma AssignmentIsInOneGroup(b: Books, team: TeamId, a: Id)
    requires a in AssignmentsOf(b, team)
    ensures OutstandingOf(b, a) == Sum(ListedUsers(b, team), AssignmentColumn(b, a))
  {
    var u: UserId := b.assignments[a].user;
    SumAt(ListedUsers(b, team), AssignmentColumn(b, a), u);
    assert IsListed(b, a) ==> u in ListedUsers(b, team);
  }

  /** The per-member totals together are what is outstanding over all of the team's assignments. */
  lemma GroupsAddUp(b: Books, team: TeamId)
    ensures Sum(ListedUsers(b, team), UserTotal(b, team)) == Sum(AssignmentsOf(b, team), Outstanding(b))
  {
    forall u | u in ListedUsers(b, team)
      ensures UserTotal(b, team)(u) == Sum(AssignmentsOf(b, team), MemberRows(b)(u))
    {
      GroupIsItsRow(b, team, u);
    }
    forall a | a in AssignmentsOf(b, team)
      ensures Outstanding(b)(a) == Sum(ListedUsers(b, team), AssignmentColumns(b)(a))
    {
      AssignmentIsInOneGroup(b, team, a);
    }
    SumSwap(ListedUsers(b, team), AssignmentsOf(b, team), MemberRows(b), AssignmentColumns(b),
            UserTotal(b, team), Outstanding(b));
  }

  // ----- GetOverview -----

  datatype OpenPenalty = OpenPenalty(user: UserId, total: int)

  datatype Figures = Figures(openPenalties: seq<OpenPenalty>, openPenaltySum: int,
                             income: int, expense: int, balance: int, contribOpen: nat)

  function UsersIn(rows: seq<OpenPenalty>): set<UserId> {
    set i | 0 <= i < |rows| :: rows[i].user
  }

  /** The rows of the grouped query: one per listed member, in any order, with that member's total. */
  ghost predicate IsOpenPenaltyList(b: Books, team: TeamId, rows: seq<OpenPenalty>) {
    && UsersIn(rows) == ListedUsers(b, team)
    && (forall i, j :: 0 <= i < j < |rows| ==> rows[i].user != rows[j].user)
    && forall i :: 0 <= i < |rows| ==> rows[i].total == UserTotalOf(b, team, rows[i].user)
  }

  /** One more row adds one more member to the sum. */
  lemma NextGroup(b: Books, team: TeamId, rows: seq<OpenPenalty>, i: nat)
    requires IsOpenPenaltyList(b, team, rows) && i < |rows|
    ensures Sum(UsersIn(rows[..i + 1]), UserTotal(b, team))
         == Sum(UsersIn(rows[..i]), UserTotal(b, team)) + rows[i].total
  {
    var u: UserId := rows[i].user;
    assert rows[..i + 1] == rows[..i] + [rows[i]];
    assert UsersIn(rows[..i + 1]) == UsersIn(rows[..i]) + {u};
    SumWithout(UsersIn(rows[..i + 1]), UserTotal(b, team), u);
    assert UsersIn(rows[..i + 1]) - {u} == UsersIn(rows[..i]);
  }

  /**
    The figures are read in one snapshot. The sum accumulated over the grouped rows is what is
    outstanding over every assignment of the team, the balance is the conserved income less the
    expense, and the open count is the number of rows shown as open.
   */
  method GetOverview(ghost b: Books, ghost team: TeamId, openByUser: seq<OpenPenalty>, income: int, expense: int,
                     contribOpen: nat)
    returns (o: Figures)
    requires IsOpenPenaltyList(b, team, openByUser)
    requires income == TeamIncome(b, team) && expense == TeamExpense(b, team)
    requires contribOpen == |CountedContributions(b, team)|
    ensures o.openPenalties == openByUser
    ensures o.openPenaltySum == Sum(AssignmentsOf(b, team), Outstanding(b))
    ensures o.income == TeamIncome(b, team) && o.expense == TeamExpense(b, team) && o.balance == o.income - o.expense
    ensures o.contribOpen == |Unsettled(b, team)|
    ensures BooksOk(b) ==>
      && o.income == AllPaidContributions(b, team) + AllPaidAssignments(b, team) + UnlinkedIncome(b, team)
      && o.contribOpen == |ShownOpen(b, team)|
  {
    var genOpen: seq<OpenPenalty> := [];
    var openPenaltySum := 0;
    for i := 0 to |openByUser|
      invariant genOpen == openByUser[..i]
      invariant openPenaltySum == Sum(UsersIn(openByUser[..i]), UserTotal(b, team))
    {
      NextGroup(b, team, openByUser, i);
      genOpen := genOpen + [openByUser[i]];
      openPenaltySum := openPenaltySum + openByUser[i].total;
    }
    assert openByUser[..|openByUser|] == openByUser;
    GroupsAddUp(b, team);
    CountedAreUnsettled(b, team);
    if BooksOk(b) {
      IncomeIsConserved(b, team);
      StatusesAgreeOnBooks(b, team);
    }
    o := Figures(genOpen, openPenaltySum, income, expense, income - expense, contribOpen);
  }

  // ----- The export -----

  /** An assignment with its live sum, as the export's query joins them. */
  datatype AssignmentRow = AssignmentRow(amount: Option<int>, title: Option<string>, paid: int)
  datatype ExportPenalty = ExportPenalty(amount: int, title: string, paid: bool)

  /** COALESCE(paid, 0) >= amount, which is NULL when the amount is. */
  function PaidColumn(row: AssignmentRow): Option<bool> {
    if row.amount.Some? then Some(row.paid >= row.amount.value) else None
  }

  /**
    Each row's flag is the one the service derives. The scanned fields are a plain string and
    a plain bool, so one NULL amount or label fails the whole export, at the first such row.
   */
  method ExportPenalties(rows: seq<AssignmentRow>) returns (r: Result<seq<ExportPenalty>, nat>)
    ensures r.Ok? <==> forall row <- rows :: row.amount.Some? && row.title.Some?
    ensures r.Ok? ==> |r.value| == |rows|
    ensures r.Ok? ==> forall i :: 0 <= i < |rows| ==>
      && rows[i].amount == Some(r.value[i].amount) && rows[i].title == Some(r.value[i].title)
      && r.value[i].paid == AssignmentPaid(rows[i].paid, rows[i].amount)
    ensures r.Err? ==> r.error < |rows| && (rows[r.error].amount.None? || rows[r.error].title.None?)
    ensures r.Err? ==> forall i :: 0 <= i < r.error ==> rows[i].amount.Some? && rows[i].title.Some?
  {
    var out: seq<ExportPenalty> := [];
    for i := 0 to |rows|
      invariant |out| == i
      invariant forall j :: 0 <= j < i ==>
        && rows[j].amount == Some(out[j].amount) && rows[j].title == Some(out[j].title)
        && out[j].paid == AssignmentPaid(rows[j].paid, rows[j].amount)
    {
      var row := rows[i];
      var paid := PaidColumn(row);
      if row.title.None? || row.amount.None? || paid.None? {
        return Err(i);
      }
      out := out + [ExportPenalty(row.amount.value, row.title.value, paid.value)];
    }
    return Ok(out);
  }
}
