/**
  Logging in through an external identity provider, as many logins at once: each is a chain
  of single statements on shared tables, may be interleaved with any other and with
  self-registrations, and may die between any two of its statements.
 */
module OidcLogin {
  import opened Wrappers

  type UserId = int
  type ProcId = int
  type Email = string
  type Hash = string

  /** The pair the provider guarantees to be stable. */
  datatype Key = Key(provider: string, subject: string)

  datatype User = User(email: Email, password: Option<Hash>, verified: bool, deleted: bool)

  /** `index` is the unique index on users.email; it covers soft-deleted rows too. Addresses are normalized. */
  datatype Accounts = Accounts(users: map<UserId, User>, index: map<Email, UserId>, links: map<Key, UserId>)

  /** What a login does next. */
  datatype Pc =
    | FindSubject
    | FindEmail
    | Provision
    | ReadConflict
    | Clear(user: UserId)
    | Mark(user: UserId)
    | Link(user: UserId)
    | Reload(user: UserId)
    | OpenSession(user: UserId)
    | LoggedIn(user: UserId)
    | AccountDeleted
    | Failed

  datatype Login = Login(key: Key, email: Email, pc: Pc)

  datatype Claims = Claims(subject: string, email: Email, emailVerified: bool)

  datatype State = State(accounts: Accounts, logins: map<ProcId, Login>)

  datatype Action =
    | Start(proc: ProcId, provider: string, claims: Claims)
    | Step(proc: ProcId, newId: UserId)
    | Crash(proc: ProcId)
    | Register(newId: UserId, email: Email, hash: Hash)

  // ----- Statements -----

  predicate Live(a: Accounts, u: UserId) {
    u in a.users && !a.users[u].deleted
  }

  function UserBySubject(a: Accounts, k: Key): Option<UserId> {
    if k in a.links && Live(a, a.links[k]) then Some(a.links[k]) else None
  }

  function UserByEmail(a: Accounts, e: Email): Option<UserId> {
    if e in a.index && Live(a, a.index[e]) then Some(a.index[e]) else None
  }

  /** INSERT ... ON CONFLICT (email) DO NOTHING. */
  function CreateUnverified(a: Accounts, id: UserId, e: Email, hash: Hash): Accounts {
    if e in a.index then a
    else a.(users := a.users[id := User(e, Some(hash), false, false)], index := a.index[e := id])
  }

  function ClearPassword(a: Accounts, u: UserId): Accounts {
    if Live(a, u) then a.(users := a.users[u := a.users[u].(password := None)]) else a
  }

  function MarkEmailVerified(a: Accounts, u: UserId): Accounts {
    if u in a.users then a.(users := a.users[u := a.users[u].(verified := true)]) else a
  }

  /** INSERT ... ON CONFLICT (provider, subject) DO NOTHING. */
  function LinkAccount(a: Accounts, u: UserId, k: Key): Accounts {
    if k in a.links then a else a.(links := a.links[k := u])
  }

  /** verifyAndLink on the snapshot just read: an unverified account first loses its password. */
  function Adoption(a: Accounts, u: UserId): Pc
    requires u in a.users
  {
    if a.users[u].verified then Link(u) else Clear(u)
  }

  predicate Running(pc: Pc) {
    !pc.LoggedIn? && !pc.AccountDeleted? && !pc.Failed?
  }

  predicate StepEnabled(a: Accounts, l: Login, newId: UserId) {
    Running(l.pc) && (l.pc.Provision? ==> newId !in a.users)
  }

  datatype Outcome = Outcome(accounts: Accounts, pc: Pc)

  function Next(a: Accounts, l: Login, newId: UserId): Outcome
    requires StepEnabled(a, l, newId)
  {
    match l.pc
    case FindSubject =>
      var found := UserBySubject(a, l.key);
      Outcome(a, if found.Some? then OpenSession(found.value) else FindEmail)
    case FindEmail =>
      var found := UserByEmail(a, l.email);
      Outcome(a, if found.Some? then Adoption(a, found.value) else Provision)
    case Provision =>
      if l.email in a.index then Outcome(a, ReadConflict)
      else Outcome(CreateUnverified(a, newId, l.email, ""), Clear(newId))
    case ReadConflict =>
      var found := UserByEmail(a, l.email);
      Outcome(a, if found.Some? then Adoption(a, found.value) else AccountDeleted)
    case Clear(u) => Outcome(ClearPassword(a, u), Mark(u))
    case Mark(u) => Outcome(MarkEmailVerified(a, u), Link(u))
    case Link(u) => if u in a.users then Outcome(LinkAccount(a, u, l.key), Reload(u)) else Outcome(a, Failed)
    case Reload(u) => Outcome(a, if Live(a, u) then OpenSession(u) else Failed)
    case OpenSession(u) => Outcome(a, LoggedIn(u))
  }

  // ----- Runs -----

  /** The claims LoginWithOIDC goes on with. */
  predicate ClaimsOk(c: Claims) {
    c.emailVerified && c.email != "" && c.subject != ""
  }

  predicate Enabled(s: State, act: Action) {
    match act
    case Start(p, _, _) => p !in s.logins
    case Step(p, id) => p in s.logins && StepEnabled(s.accounts, s.logins[p], id)
    case Crash(p) => p in s.logins
    case Register(id, _, _) => id !in s.accounts.users
  }

  function Apply(s: State, act: Action): State
    requires Enabled(s, act)
  {
    match act
    case Start(p, provider, c) =>
      if ClaimsOk(c) then s.(logins := s.logins[p := Login(Key(provider, c.subject), c.email, FindSubject)]) else s
    case Step(p, id) =>
      var next := Next(s.accounts, s.logins[p], id);
      State(next.accounts, s.logins[p := s.logins[p].(pc := next.pc)])
    case Crash(p) => s.(logins := s.logins - {p})
    case Register(id, e, hash) => s.(accounts := CreateUnverified(s.accounts, id, e, hash))
  }

  predicate Legal(s: State, run: seq<Action>)
    decreases |run|
  {
    run == [] || (Enabled(s, run[0]) && Legal(Apply(s, run[0]), run[1..]))
  }

  function Exec(s: State, run: seq<Action>): State
    requires Legal(s, run)
    decreases |run|
  {
    if run == [] then s else Exec(Apply(s, run[0]), run[1..])
  }

  // ----- The invariant -----

  predicate TablesOk(a: Accounts) {
    && (forall u :: u in a.users ==> a.users[u].email in a.index && a.index[a.users[u].email] == u)
    && (forall e :: e in a.index ==> a.index[e] in a.users && a.users[a.index[e]].email == e)
    && (forall k :: k in a.links ==> a.links[k] in a.users)
  }

  /** Nothing under way, and the tables meet their constraints. */
  predicate Initial(s: State) {
    TablesOk(s.accounts) && s.logins == map[]
  }

  /**
    Rows are added and never removed; an account keeps its address, a verified one stays verified, a link keeps
    its owner.
   */
  ghost predicate Evolves(a: Accounts, b: Accounts) {
    && (forall u :: u in a.users ==>
          && u in b.users && b.users[u].email == a.users[u].email && b.users[u].deleted == a.users[u].deleted
          && (a.users[u].verified ==> b.users[u].verified)
          && (a.users[u].password == None ==> b.users[u].password == None))
    && (forall u :: u in b.users && u !in a.users ==> !b.users[u].deleted)
    && (forall e :: e in a.index ==> e in b.index && b.index[e] == a.index[e])
    && (forall k :: k in a.links ==> k in b.links && b.links[k] == a.links[k])
  }

  predicate VerifiedIn(a: Accounts, u: UserId) {
    u in a.users && a.users[u].verified
  }

  /** `start` is how the tables were before any of the logins began. */
  ghost predicate PasswordsOk(start: Accounts, a: Accounts) {
    forall u :: u in a.users && a.users[u].verified ==>
      a.users[u].password == if VerifiedIn(start, u) then start.users[u].password else None
  }

  ghost predicate LoginOk(start: Accounts, a: Accounts, l: Login) {
    match l.pc
    case FindSubject => true
    case FindEmail => true
    case Provision => true
    case ReadConflict => l.email in a.index
    case AccountDeleted => l.email in a.index && !Live(a, a.index[l.email])
    case Failed => false
    case Clear(u) => Live(a, u) && !VerifiedIn(start, u)
    case Mark(u) => Live(a, u) && !VerifiedIn(start, u) && a.users[u].password == None
    case Link(u) => Live(a, u) && a.users[u].verified
    case Reload(u) => Live(a, u) && l.key in a.links
    case OpenSession(u) => Live(a, u) && l.key in a.links
    case LoggedIn(u) => Live(a, u) && l.key in a.links
  }

  ghost predicate Inv(start: Accounts, s: State) {
    && TablesOk(start) && TablesOk(s.accounts) && Evolves(start, s.accounts) && PasswordsOk(start, s.accounts)
    && forall p :: p in s.logins ==> LoginOk(start, s.accounts, s.logins[p])
  }

  lemma EvolvesTransitively(a: Accounts, b: Accounts, c: Accounts)
    requires Evolves(a, b) && Evolves(b, c)
    ensures Evolves(a, c)
  {
  }

  lemma OthersSurvive(start: Accounts, a: Accounts, b: Accounts, l: Login)
    requires TablesOk(a) && Evolves(a, b) && LoginOk(start, a, l)
    ensures LoginOk(start, b, l)
  {
  }

  lemma CreateKeepsTables(start: Accounts, a: Accounts, id: UserId, e: Email, hash: Hash)
    requires TablesOk(a) && Evolves(start, a) && PasswordsOk(start, a) && id !in a.users
    ensures var b := CreateUnverified(a, id, e, hash); TablesOk(b) && Evolves(a, b) && PasswordsOk(start, b)
    ensures e !in a.index ==> !VerifiedIn(start, id)
  {
  }

  lemma ClearKeepsTables(start: Accounts, a: Accounts, u: UserId)
    requires TablesOk(a) && Evolves(start, a) && PasswordsOk(start, a) && Live(a, u) && !VerifiedIn(start, u)
    ensures var b := ClearPassword(a, u);
      TablesOk(b) && Evolves(a, b) && PasswordsOk(start, b) && Live(b, u) && b.users[u].password == None
  {
  }

  lemma MarkKeepsTables(start: Accounts, a: Accounts, u: UserId)
    requires TablesOk(a) && Evolves(start, a) && PasswordsOk(start, a)
    requires Live(a, u) && !VerifiedIn(start, u) && a.users[u].password == None
    ensures var b := MarkEmailVerified(a, u);
      TablesOk(b) && Evolves(a, b) && PasswordsOk(start, b) && Live(b, u) && b.users[u].verified
  {
  }

  /** One statement of a login keeps the tables sound and leaves the login where its next statement expects it. */
  lemma NextKeepsTables(start: Accounts, a: Accounts, l: Login, id: UserId)
    requires TablesOk(a) && Evolves(start, a) && PasswordsOk(start, a) && LoginOk(start, a, l) && StepEnabled(a, l, id)
    ensures var next := Next(a, l, id);
      && TablesOk(next.accounts) && Evolves(a, next.accounts) && PasswordsOk(start, next.accounts)
      && LoginOk(start, next.accounts, l.(pc := next.pc))
  {
    match l.pc {
      case Provision => CreateKeepsTables(start, a, id, l.email, "");
      case Clear(u) => ClearKeepsTables(start, a, u);
      case Mark(u) => MarkKeepsTables(start, a, u);
      case _ =>
    }
  }

  lemma StepKeepsInv(start: Accounts, s: State, act: Action)
    requires Inv(start, s) && Enabled(s, act)
    ensures Inv(start, Apply(s, act)) && Evolves(s.accounts, Apply(s, act).accounts)
  {
    var a, after := s.accounts, Apply(s, act);
    if act.Step? {
      NextKeepsTables(start, a, s.logins[act.proc], act.newId);
    }
    if act.Register? {
      CreateKeepsTables(start, a, act.newId, act.email, act.hash);
    }
    EvolvesTransitively(start, a, after.accounts);
    forall p | p in after.logins && p in s.logins && after.logins[p] == s.logins[p]
      ensures LoginOk(start, after.accounts, after.logins[p])
    {
      OthersSurvive(start, a, after.accounts, s.logins[p]);
    }
  }

  lemma {:induction false} RunKeepsInv(start: Accounts, s: State, run: seq<Action>)
    requires Inv(start, s) && Legal(s, run)
    ensures Inv(start, Exec(s, run)) && Evolves(s.accounts, Exec(s, run).accounts)
    decreases |run|
  {
    if run != [] {
      var next := Apply(s, run[0]);
      StepKeepsInv(start, s, run[0]);
      RunKeepsInv(start, next, run[1..]);
      EvolvesTransitively(s.accounts, next.accounts, Exec(next, run[1..]).accounts);
    }
  }

  // ----- What holds in every run -----

  /** At most one account holds an address, whatever raced. */
  lemma OneAccountPerAddress(s: State, run: seq<Action>, u: UserId, v: UserId)
    requires Initial(s) && Legal(s, run)
    requires var a := Exec(s, run).accounts; u in a.users && v in a.users && a.users[u].email == a.users[v].email
    ensures u == v
  {
    RunKeepsInv(s.accounts, s, run);
  }

  /** A link is written once: from any point of any run on, it keeps its owner. */
  lemma LinksNeverMove(s: State, before: seq<Action>, after: seq<Action>, k: Key)
    requires Initial(s) && Legal(s, before) && Legal(Exec(s, before), after)
    requires k in Exec(s, before).accounts.links
    ensures var a := Exec(Exec(s, before), after).accounts;
      k in a.links && a.links[k] == Exec(s, before).accounts.links[k]
  {
    RunKeepsInv(s.accounts, s, before);
    RunKeepsInv(s.accounts, Exec(s, before), after);
  }

  /**
    No login ends in an unexpected error, and "this address belonged to a deleted account" is only ever said when
    it is so.
   */
  lemma DeletedReportIsHonest(s: State, run: seq<Action>, p: ProcId)
    requires Initial(s) && Legal(s, run) && p in Exec(s, run).logins
    ensures var l := Exec(s, run).logins[p];
      && !l.pc.Failed?
      && (l.pc.AccountDeleted? ==> l.email in s.accounts.index && !Live(s.accounts, s.accounts.index[l.email]))
  {
    RunKeepsInv(s.accounts, s, run);
    var a, l := Exec(s, run).accounts, Exec(s, run).logins[p];
    if l.pc.AccountDeleted? {
      assert a.users[a.index[l.email]].email == l.email;
    }
  }

  /**
    An account verified by one of these logins has lost whatever password it had while
    unverified; an account verified before keeps the password it had.
   */
  lemma PasswordsInEveryRun(s: State, run: seq<Action>, u: UserId)
    requires Initial(s) && Legal(s, run)
    requires VerifiedIn(Exec(s, run).accounts, u)
    ensures VerifiedIn(s.accounts, u) ==> Exec(s, run).accounts.users[u].password == s.accounts.users[u].password
    ensures !VerifiedIn(s.accounts, u) ==> Exec(s, run).accounts.users[u].password == None
  {
    RunKeepsInv(s.accounts, s, run);
  }

  // ----- Which accounts the logins of an identity can reach -----

  /** Every accepted login presents one of the addresses its identity has on offer. */
  predicate Presents(run: seq<Action>, offered: Key -> set<Email>) {
    forall i :: 0 <= i < |run| && run[i].Start? && ClaimsOk(run[i].claims) ==>
      run[i].claims.email in offered(Key(run[i].provider, run[i].claims.subject))
  }

  predicate Addressed(offered: Key -> set<Email>, k: Key, e: Email) {
    k.subject != "" && e != "" && e in offered(k)
  }

  /** The account linked before the run if it is live, else one that holds an address on offer. */
  predicate Rightful(start: Accounts, a: Accounts, offered: Key -> set<Email>, k: Key, u: UserId) {
    match UserBySubject(start, k)
    case Some(owner) => u == owner
    case None => u in a.users && Addressed(offered, k, a.users[u].email)
  }

  ghost predicate OfferedLogin(start: Accounts, a: Accounts, offered: Key -> set<Email>, l: Login) {
    Addressed(offered, l.key, l.email) &&
    match l.pc
    case FindSubject => true
    case FindEmail => UserBySubject(start, l.key).None?
    case Provision => UserBySubject(start, l.key).None?
    case ReadConflict => UserBySubject(start, l.key).None?
    case AccountDeleted => true
    case Failed => true
    case Clear(u) => Rightful(start, a, offered, l.key, u)
    case Mark(u) => Rightful(start, a, offered, l.key, u)
    case Link(u) => Rightful(start, a, offered, l.key, u)
    case Reload(u) => Rightful(start, a, offered, l.key, u)
    case OpenSession(u) => Rightful(start, a, offered, l.key, u)
    case LoggedIn(u) => Rightful(start, a, offered, l.key, u)
  }

  /** A link written during the run is to a live account of an address on offer. */
  ghost predicate OfferedLinks(start: Accounts, a: Accounts, offered: Key -> set<Email>) {
    forall k :: k in a.links && k !in start.links ==>
      Live(a, a.links[k]) && Addressed(offered, k, a.users[a.links[k]].email)
  }

  ghost predicate OfferedInv(start: Accounts, s: State, offered: Key -> set<Email>) {
    && Inv(start, s) && OfferedLinks(start, s.accounts, offered)
    && forall p :: p in s.logins ==> OfferedLogin(start, s.accounts, offered, s.logins[p])
  }

  /** A link found in use is the one from before the run, or one these logins wrote. */
  lemma FoundBySubject(start: Accounts, a: Accounts, offered: Key -> set<Email>, k: Key)
    requires TablesOk(start) && TablesOk(a) && Evolves(start, a) && OfferedLinks(start, a, offered)
    ensures match UserBySubject(a, k)
            case Some(u) => Rightful(start, a, offered, k, u)
            case None => UserBySubject(start, k).None?
  {
  }

  lemma OfferedNext(start: Accounts, a: Accounts, offered: Key -> set<Email>, l: Login, id: UserId)
    requires TablesOk(start) && TablesOk(a) && Evolves(start, a) && OfferedLinks(start, a, offered)
    requires LoginOk(start, a, l) && OfferedLogin(start, a, offered, l) && StepEnabled(a, l, id)
    ensures var next := Next(a, l, id);
      && OfferedLinks(start, next.accounts, offered)
      && OfferedLogin(start, next.accounts, offered, l.(pc := next.pc))
  {
    if l.pc.FindSubject? {
      FoundBySubject(start, a, offered, l.key);
    }
  }

  lemma OfferedOthers(start: Accounts, a: Accounts, b: Accounts, offered: Key -> set<Email>, l: Login)
    requires Evolves(a, b) && OfferedLogin(start, a, offered, l)
    ensures OfferedLogin(start, b, offered, l)
  {
  }

  lemma StepKeepsOffered(start: Accounts, s: State, offered: Key -> set<Email>, act: Action)
    requires OfferedInv(start, s, offered) && Enabled(s, act) && Presents([act], offered)
    ensures OfferedInv(start, Apply(s, act), offered)
  {
    assert [act][0] == act;
    var a, after := s.accounts, Apply(s, act);
    StepKeepsInv(start, s, act);
    if act.Step? {
      OfferedNext(start, a, offered, s.logins[act.proc], act.newId);
    }
    forall p | p in after.logins && p in s.logins && after.logins[p] == s.logins[p]
      ensures OfferedLogin(start, after.accounts, offered, after.logins[p])
    {
      OfferedOthers(start, a, after.accounts, offered, s.logins[p]);
    }
  }

  lemma {:induction false} RunKeepsOffered(start: Accounts, s: State, offered: Key -> set<Email>, run: seq<Action>)
    requires OfferedInv(start, s, offered) && Legal(s, run) && Presents(run, offered)
    ensures OfferedInv(start, Exec(s, run), offered)
    decreases |run|
  {
    if run != [] {
      assert [run[0]][0] == run[0];
      StepKeepsOffered(start, s, offered, run[0]);
      RunKeepsOffered(start, Apply(s, run[0]), offered, run[1..]);
    }
  }

  /** An address a login may present and get through with: no deleted account holds it. */
  predicate Usable(a: Accounts, e: Email) {
    e != "" && (e in a.index ==> Live(a, a.index[e]))
  }

  /**
    The accounts, named by their addresses, that logins of the identity can end with: the
    linked one if it is live, whatever they present, else those of the usable addresses on offer.
   */
  function Targets(a: Accounts, k: Key, addresses: set<Email>): set<Email> {
    if k.subject == "" || addresses <= {""} then {}
    else
      match UserBySubject(a, k)
      case Some(u) => {a.users[u].email}
      case None => set e | e in addresses && Usable(a, e)
  }

  /** No login ends anywhere else. */
  lemma OnlyTargetsAreReached(s: State, run: seq<Action>, offered: Key -> set<Email>, p: ProcId)
    requires Initial(s) && Legal(s, run) && Presents(run, offered)
    requires p in Exec(s, run).logins && Exec(s, run).logins[p].pc.LoggedIn?
    ensures var l, a := Exec(s, run).logins[p], Exec(s, run).accounts;
      && Live(a, l.pc.user) && a.users[l.pc.user].email in Targets(s.accounts, l.key, offered(l.key))
  {
    RunKeepsOffered(s.accounts, s, offered, run);
    var l, a := Exec(s, run).logins[p], Exec(s, run).accounts;
    assert l.email in offered(l.key) && l.email !in {""};
    assert a.index[a.users[l.pc.user].email] == l.pc.user;
  }

  /** A link written in the run is to a target, and every completed login leaves one. */
  lemma NewLinksAreTargets(s: State, run: seq<Action>, offered: Key -> set<Email>, p: ProcId)
    requires Initial(s) && Legal(s, run) && Presents(run, offered)
    requires p in Exec(s, run).logins && Exec(s, run).logins[p].pc.LoggedIn?
    requires Exec(s, run).logins[p].key !in s.accounts.links
    ensures var k, a := Exec(s, run).logins[p].key, Exec(s, run).accounts;
      && k in a.links && Live(a, a.links[k]) && a.users[a.links[k]].email in Targets(s.accounts, k, offered(k))
  {
    RunKeepsOffered(s.accounts, s, offered, run);
    var k, a := Exec(s, run).logins[p].key, Exec(s, run).accounts;
    assert a.users[a.links[k]].email in offered(k) && a.users[a.links[k]].email !in {""};
    assert a.index[a.users[a.links[k]].email] == a.links[k];
  }

  /** A login of the identity that has found the link, or will. */
  predicate OnCourse(l: Login, k: Key, u: UserId) {
    l.key == k ==> l.pc == FindSubject || l.pc == OpenSession(u) || l.pc == LoggedIn(u)
  }

  lemma {:induction false} StaysOnCourse(start: Accounts, s: State, run: seq<Action>, p: ProcId, k: Key, u: UserId)
    requires Inv(start, s) && Legal(s, run) && UserBySubject(s.accounts, k) == Some(u)
    requires p in s.logins ==> OnCourse(s.logins[p], k, u)
    ensures p in Exec(s, run).logins ==> OnCourse(Exec(s, run).logins[p], k, u)
    decreases |run|
  {
    if run != [] {
      StepKeepsInv(start, s, run[0]);
      StaysOnCourse(start, Apply(s, run[0]), run[1..], p, k, u);
    }
  }

  /**
    Once an identity is linked to a live account, every login that starts from then on gets a
    session for it, whatever addresses it presents and whatever else is under way.
   */
  lemma LinkedIdentityKeepsItsAccount(s: State, before: seq<Action>, after: seq<Action>, p: ProcId)
    requires Initial(s) && Legal(s, before) && Legal(Exec(s, before), after) && p !in Exec(s, before).logins
    requires var t := Exec(Exec(s, before), after);
      p in t.logins && t.logins[p].pc.LoggedIn? && UserBySubject(Exec(s, before).accounts, t.logins[p].key).Some?
    ensures var t := Exec(Exec(s, before), after);
      var k := t.logins[p].key;
      && Exec(s, before).accounts.links[k] == t.logins[p].pc.user
      && k in t.accounts.links && t.accounts.links[k] == t.logins[p].pc.user
  {
    var mid := Exec(s, before);
    var k := Exec(mid, after).logins[p].key;
    RunKeepsInv(s.accounts, s, before);
    RunKeepsInv(s.accounts, mid, after);
    StaysOnCourse(s.accounts, mid, after, p, k, mid.accounts.links[k]);
  }

  /**
    However logins race or die, two that complete get sessions for one account when their
    identities have no two different targets: one identity that always presents one address, say,
    or is linked, or two unlinked identities of the same address.
   */
  lemma SessionsAgree(s: State, run: seq<Action>, offered: Key -> set<Email>, p: ProcId, q: ProcId)
    requires Initial(s) && Legal(s, run) && Presents(run, offered)
    requires var ls := Exec(s, run).logins; p in ls && q in ls && ls[p].pc.LoggedIn? && ls[q].pc.LoggedIn?
    requires var j, k := Exec(s, run).logins[p].key, Exec(s, run).logins[q].key;
      forall d, e :: d in Targets(s.accounts, j, offered(j)) && e in Targets(s.accounts, k, offered(k)) ==> d == e
    ensures Exec(s, run).logins[p].pc.user == Exec(s, run).logins[q].pc.user
  {
    OnlyTargetsAreReached(s, run, offered, p);
    OnlyTargetsAreReached(s, run, offered, q);
    OneAccountPerAddress(s, run, Exec(s, run).logins[p].pc.user, Exec(s, run).logins[q].pc.user);
  }

  /**
    Where the identity has no two different targets, a completed login's account is the linked one
    exactly when the identity was not linked to a deleted account all along.
   */
  lemma SessionIsForTheLinkedAccount(s: State, run: seq<Action>, offered: Key -> set<Email>, p: ProcId)
    requires Initial(s) && Legal(s, run) && Presents(run, offered)
    requires p in Exec(s, run).logins && Exec(s, run).logins[p].pc.LoggedIn?
    requires var k := Exec(s, run).logins[p].key;
      forall d, e :: d in Targets(s.accounts, k, offered(k)) && e in Targets(s.accounts, k, offered(k)) ==> d == e
    ensures var k, a := Exec(s, run).logins[p].key, Exec(s, run).accounts;
      && k in a.links
      && (a.links[k] == Exec(s, run).logins[p].pc.user <==>
            !(k in s.accounts.links && !Live(s.accounts, s.accounts.links[k])))
  {
    var k, a := Exec(s, run).logins[p].key, Exec(s, run).accounts;
    RunKeepsInv(s.accounts, s, run);
    OnlyTargetsAreReached(s, run, offered, p);
    if k !in s.accounts.links {
      NewLinksAreTargets(s, run, offered, p);
      OneAccountPerAddress(s, run, a.links[k], Exec(s, run).logins[p].pc.user);
    } else if UserBySubject(s.accounts, k).Some? {
      LinkedIdentityKeepsItsAccount(s, [], run, p);
    }
  }
}
