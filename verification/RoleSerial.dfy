/**
  Every run of the role protocol is serial, outcomes included: it does what the repository
  methods would, called one at a time in the order in which the transactions ended.
 */
module RoleSerial {
  import opened Wrappers
  import opened RoleTables
  import opened RoleProtocol

  /** What the sequential repository methods answer when they run alone. */
  function Verdict(db: Tables, req: Request): Outcome {
    match req
    case SetRoles(m, t, ids, caller) => SetRolesVerdict(db, m, t, ids, caller)
    case RemoveMember(m, t, caller) => RemoveMemberVerdict(db, m, t, caller)
    case EraseUser(u) => EraseUserVerdict(db, u)
    case TeamWrite(_) => Done
  }

  /** What they do to the tables. */
  function Alone(db: Tables, req: Request): Tables {
    if Verdict(db, req) != Done then db
    else
      match req
      case SetRoles(m, _, ids, _) => ReplaceRoles(db, m, ids)
      case RemoveMember(m, _, _) => DropMembership(db, m)
      case EraseUser(u) => MarkErased(db, u)
      case TeamWrite(_) => db
  }

  datatype Report = Report(req: Request, outcome: Outcome)

  /** The step ends a transaction with an outcome. */
  ghost predicate Ends(s: State, a: Action)
    requires Enabled(s, a)
  {
    a.Step? && Apply(s, a).txns[a.id].phase.Finished? && Apply(s, a).txns[a.id].phase.outcome.Some?
  }

  /** The requests that end with an outcome, refused ones included, in the order they end. */
  ghost function Reports(s: State, run: seq<Action>): seq<Report>
    requires Legal(s, run)
    decreases |run|
  {
    if run == [] then []
    else
      var a, next := run[0], Apply(s, run[0]);
      (if Ends(s, a) then [Report(s.txns[a.id].req, next.txns[a.id].phase.outcome.value)] else [])
      + Reports(next, run[1..])
  }

  /** Running the requests one at a time by the repository methods gives these outcomes and ends in `last`. */
  predicate Serial(db: Tables, reports: seq<Report>, last: Tables)
    decreases |reports|
  {
    if reports == [] then db == last
    else
      && reports[0].outcome == Verdict(db, reports[0].req)
      && Serial(Alone(db, reports[0].req), reports[1..], last)
  }

  lemma EstablishedDecides(db: Tables, req: Request)
    requires Established(db, req, Committing)
    ensures RoleProtocol.Write(db, req) == Alone(db, req) && CommitOutcome(db, req) == Verdict(db, req)
  {
  }

  /** The transaction is about to run one of its queries. */
  predicate Checking(phase: Phase) {
    !phase.Acquiring? && !phase.Finished? && phase != Committing
  }

  /** If the query refuses, then with the error the sequential method would report now. */
  predicate RefusesRightly(db: Tables, req: Request, next: Phase) {
    next.Finished? ==> next.outcome == Some(Verdict(db, req)) && Verdict(db, req) != Done
  }

  lemma SetRolesRefusal(db: Tables, req: Request, phase: Phase)
    requires req.SetRoles? && SetRolesEstablished(db, req, phase) && Checking(phase)
    ensures RefusesRightly(db, req, CheckResult(db, req, phase))
  {
  }

  lemma RemoveMemberRefusal(db: Tables, req: Request, phase: Phase)
    requires req.RemoveMember? && RemoveMemberEstablished(db, req, phase) && Checking(phase)
    ensures RefusesRightly(db, req, CheckResult(db, req, phase))
  {
  }

  lemma RefusalIsTheVerdict(db: Tables, req: Request, phase: Phase)
    requires Established(db, req, phase) && Checking(phase)
    ensures RefusesRightly(db, req, CheckResult(db, req, phase))
  {
    match req
    case SetRoles(_, _, _, _) => SetRolesRefusal(db, req, phase);
    case RemoveMember(_, _, _) => RemoveMemberRefusal(db, req, phase);
    case _ =>
  }

  /** The checks were made earlier, query by query, yet they still decide as they would at the commit. */
  lemma CommitIsAtomic(s: State, id: TxnId)
    requires Inv(s) && Active(s, id) && s.txns[id].phase == Committing
    ensures Apply(s, Step(id)).db == Alone(s.db, s.txns[id].req)
    ensures Apply(s, Step(id)).txns[id].phase == Finished(Some(Verdict(s.db, s.txns[id].req)))
  {
    TxnIsOk(s, id);
    EstablishedDecides(s.db, s.txns[id].req);
  }

  /**
    Whenever a transaction ends with an outcome, it is the one the sequential method would give at that moment,
    tables included.
   */
  lemma EndIsTheVerdict(s: State, a: Action)
    requires Inv(s) && Enabled(s, a) && Ends(s, a)
    ensures var req := s.txns[a.id].req;
      Apply(s, a).txns[a.id].phase == Finished(Some(Verdict(s.db, req))) && Apply(s, a).db == Alone(s.db, req)
  {
    TxnIsOk(s, a.id);
    if s.txns[a.id].phase == Committing {
      CommitIsAtomic(s, a.id);
    } else if !s.txns[a.id].phase.Acquiring? {
      RefusalIsTheVerdict(s.db, s.txns[a.id].req, s.txns[a.id].phase);
    }
  }

  /** Every other step leaves the tables alone. */
  lemma OnlyEndsWrite(s: State, a: Action)
    requires Inv(s) && Enabled(s, a) && !Ends(s, a)
    ensures Apply(s, a).db == s.db
  {
  }

  lemma SerialStep(db: Tables, report: Report, more: seq<Report>, last: Tables)
    requires report.outcome == Verdict(db, report.req) && Serial(Alone(db, report.req), more, last)
    ensures Serial(db, [report] + more, last)
  {
    assert ([report] + more)[1..] == more;
  }

  /**
    The tables after any interleaving, and the outcome of every request that got one, are those
    of the requests run one at a time by the repository methods in the order they ended.
   */
  lemma {:induction false} RunIsSerial(s: State, run: seq<Action>)
    requires Inv(s) && Legal(s, run)
    ensures Serial(s.db, Reports(s, run), Exec(s, run).db)
    decreases |run|
  {
    if run != [] {
      var a, next := run[0], Apply(s, run[0]);
      StepKeepsInv(s, a);
      RunIsSerial(next, run[1..]);
      if Ends(s, a) {
        EndIsTheVerdict(s, a);
        var report := Report(s.txns[a.id].req, next.txns[a.id].phase.outcome.value);
        SerialStep(s.db, report, Reports(next, run[1..]), Exec(s, run).db);
      } else {
        OnlyEndsWrite(s, a);
        assert [] + Reports(next, run[1..]) == Reports(next, run[1..]);
      }
    }
  }
}
