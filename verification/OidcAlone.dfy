/**
  One external login with nothing interleaved: what it does to the accounts, that it always
  gets through after any crash, and the service and repository methods as they run.
 */
module OidcAlone {
  import opened Wrappers
  import opened OidcLogin

  function StepsLeft(pc: Pc): nat {
    match pc
    case FindSubject => 10
    case FindEmail => 9
    case Provision => 8
    case ReadConflict => 7
    case Clear(_) => 6
    case Mark(_) => 5
    case Link(_) => 4
    case Reload(_) => 3
    case OpenSession(_) => 2
    case _ => 0
  }

  /** The login's statements taken back to back until it is over. */
  function Finish(a: Accounts, l: Login, newId: UserId): Outcome
    requires l.pc.FindSubject? || l.pc.FindEmail? || l.pc.Provision? ==> newId !in a.users
    decreases StepsLeft(l.pc)
  {
    if !Running(l.pc) then Outcome(a, l.pc)
    else
      var next := Next(a, l, newId);
      Finish(next.accounts, l.(pc := next.pc), newId)
  }

  /** What adopting an account leaves of it: a never-verified one loses its password and becomes verified. */
  function Adopted(u: User): User {
    if u.verified then u else User(u.email, None, true, u.deleted)
  }

  function AdoptedIn(a: Accounts, u: UserId, k: Key): Accounts
    requires u in a.users
  {
    LinkAccount(a.(users := a.users[u := Adopted(a.users[u])]), u, k)
  }

  lemma LinkFinishes(a: Accounts, k: Key, e: Email, u: UserId, newId: UserId)
    requires Live(a, u)
    ensures Finish(a, Login(k, e, Link(u)), newId) == Outcome(LinkAccount(a, u, k), LoggedIn(u))
  {
    var linked := LinkAccount(a, u, k);
    assert Finish(linked, Login(k, e, OpenSession(u)), newId) == Outcome(linked, LoggedIn(u));
    assert Finish(linked, Login(k, e, Reload(u)), newId) == Finish(linked, Login(k, e, OpenSession(u)), newId);
  }

  lemma AdoptionFinishes(a: Accounts, k: Key, e: Email, u: UserId, newId: UserId)
    requires Live(a, u)
    ensures Finish(a, Login(k, e, Adoption(a, u)), newId) == Outcome(AdoptedIn(a, u, k), LoggedIn(u))
  {
    var l := Login(k, e, Adoption(a, u));
    if !a.users[u].verified {
      var cleared := ClearPassword(a, u);
      var marked := MarkEmailVerified(cleared, u);
      LinkFinishes(marked, k, e, u, newId);
      assert Finish(cleared, l.(pc := Mark(u)), newId) == Finish(marked, l.(pc := Link(u)), newId);
      assert marked.users == a.users[u := Adopted(a.users[u])];
    } else {
      LinkFinishes(a, k, e, u, newId);
      assert a.users[u := Adopted(a.users[u])] == a.users;
    }
  }

  /** The account one uninterrupted login should end with, and what it should leave behind. */
  function Resolved(a: Accounts, k: Key, e: Email, newId: UserId): Outcome
    requires TablesOk(a)
  {
    if UserBySubject(a, k).Some? then Outcome(a, LoggedIn(a.links[k]))
    else if e !in a.index then
      var created := a.(users := a.users[newId := User(e, None, true, false)], index := a.index[e := newId]);
      Outcome(LinkAccount(created, newId, k), LoggedIn(newId))
    else if Live(a, a.index[e]) then Outcome(AdoptedIn(a, a.index[e], k), LoggedIn(a.index[e]))
    else Outcome(a, AccountDeleted)
  }

  /**
    Run on its own, a login gets a session from any tables a run can leave behind, half-done
    logins included, except where a deleted account holds the address of an unlinked identity.
   */
  lemma AloneItGetsThrough(a: Accounts, k: Key, e: Email, newId: UserId)
    requires TablesOk(a) && newId !in a.users
    ensures Finish(a, Login(k, e, FindSubject), newId) == Resolved(a, k, e, newId)
    ensures Finish(a, Login(k, e, FindSubject), newId).pc.LoggedIn?
       <==> UserBySubject(a, k).Some? || e !in a.index || Live(a, a.index[e])
  {
    var l := Login(k, e, FindEmail);
    if UserBySubject(a, k).Some? {
      var u := a.links[k];
      assert Finish(a, Login(k, e, OpenSession(u)), newId) == Outcome(a, LoggedIn(u));
    } else if e !in a.index {
      var created := CreateUnverified(a, newId, e, "");
      AdoptionFinishes(created, k, e, newId, newId);
      assert Finish(a, l.(pc := Provision), newId) == Finish(created, l.(pc := Clear(newId)), newId);
      assert created.users[newId := Adopted(created.users[newId])] == a.users[newId := User(e, None, true, false)];
    } else if Live(a, a.index[e]) {
      AdoptionFinishes(a, k, e, a.index[e], newId);
    } else {
      assert Finish(a, l.(pc := ReadConflict), newId) == Outcome(a, AccountDeleted);
      assert Finish(a, l.(pc := Provision), newId) == Finish(a, l.(pc := ReadConflict), newId);
    }
  }

  /** Whatever logins crashed where, a fresh attempt gets through. */
  lemma RetryGetsThrough(s: State, run: seq<Action>, k: Key, e: Email, newId: UserId)
    requires Initial(s) && Legal(s, run) && newId !in Exec(s, run).accounts.users
    requires e in s.accounts.index ==> Live(s.accounts, s.accounts.index[e])
    ensures Finish(Exec(s, run).accounts, Login(k, e, FindSubject), newId).pc.LoggedIn?
  {
    RunKeepsInv(s.accounts, s, run);
    var a := Exec(s, run).accounts;
    AloneItGetsThrough(a, k, e, newId);
    if e in a.index {
      assert a.users[a.index[e]].email == e;
    }
  }

  /** The link is written if the identity has none, even to a deleted account. */
  predicate LinksTo(a: Accounts, k: Key, u: UserId, after: Accounts) {
    after.links == if k in a.links then a.links else a.links[k := u]
  }

  /**
    What one login does, in the fields of the rows. A linked live account is taken as it is; an
    unknown address gets a new account, verified and without password; a live account with the
    address is linked if the identity is not, losing its password if it was never verified; and
    a deleted one stops the login.
   */
  ghost predicate LoginDoes(a: Accounts, k: Key, e: Email, newId: UserId, user: Option<UserId>, after: Accounts) {
    var linked := k in a.links && a.links[k] in a.users && !a.users[a.links[k]].deleted;
    if linked then user == Some(a.links[k]) && after == a
    else if e !in a.index then
      && user == Some(newId) && after.users == a.users[newId := User(e, None, true, false)]
      && after.index == a.index[e := newId] && LinksTo(a, k, newId, after)
    else
      var holder := a.index[e];
      if holder in a.users && !a.users[holder].deleted then
        var u := a.users[holder];
        && user == Some(holder) && after.index == a.index && LinksTo(a, k, holder, after)
        && after.users == a.users[holder := if u.verified then u else User(u.email, None, true, false)]
      else user == None && after == a
  }

  lemma ResolvedDoes(a: Accounts, k: Key, e: Email, newId: UserId)
    requires TablesOk(a) && newId !in a.users
    ensures var out := Resolved(a, k, e, newId);
      LoginDoes(a, k, e, newId, match out.pc { case LoggedIn(u) => Some(u) case _ => None }, out.accounts)
  {
  }

  // ----- The methods -----

  datatype LoginError = EmailUnverified | BadState | Deleted | NotFound

  class Service {
    var users: map<UserId, User>
    var index: map<Email, UserId>
    var links: map<Key, UserId>

    function View(): Accounts
      reads this
    {
      Accounts(users, index, links)
    }

    method VerifyAndLink(u: UserId, k: Key) returns (r: Result<UserId, LoginError>)
      requires Live(View(), u)
      modifies this`users, this`links
      ensures r == Ok(u) && View() == AdoptedIn(old(View()), u, k)
    {
      if !users[u].verified {
        users := users[u := users[u].(password := None)];
        users := users[u := users[u].(verified := true)];
      }
      if k !in links {
        links := links[k := u];
      }
      assert users == old(users)[u := Adopted(old(users)[u])];
      r := if u in users && !users[u].deleted then Ok(u) else Err(NotFound);
    }

    method ResolveEmailConflict(k: Key, e: Email) returns (r: Result<UserId, LoginError>)
      requires TablesOk(View()) && e in index
      modifies this`users, this`links
      ensures !Live(old(View()), index[e]) ==> r == Err(Deleted) && View() == old(View())
      ensures Live(old(View()), index[e]) ==> r == Ok(index[e]) && View() == AdoptedIn(old(View()), index[e], k)
    {
      var existing := UserByEmail(View(), e);
      if existing.None? {
        return Err(Deleted);
      }
      r := VerifyAndLink(existing.value, k);
    }

    method ResolveOidcUser(k: Key, e: Email, newId: UserId) returns (r: Result<UserId, LoginError>)
      requires TablesOk(View()) && newId !in users
      modifies this
      ensures match Resolved(old(View()), k, e, newId).pc
              case LoggedIn(u) => r == Ok(u)
              case _ => r == Err(Deleted)
      ensures View() == Resolved(old(View()), k, e, newId).accounts
    {
      var linked := UserBySubject(View(), k);
      if linked.Some? {
        return Ok(linked.value);
      }
      var existing := UserByEmail(View(), e);
      if existing.Some? {
        r := VerifyAndLink(existing.value, k);
        return;
      }
      if e in index {
        r := ResolveEmailConflict(k, e);
        return;
      }
      users, index := users[newId := User(e, Some(""), false, false)], index[e := newId];
      r := VerifyAndLink(newId, k);
      assert users == old(users)[newId := User(e, None, true, false)];
    }

    /** The method does what the interleaved steps do when they are taken back to back. */
    method LoginWithOidc(provider: string, claims: Claims, newId: UserId) returns (r: Result<UserId, LoginError>)
      requires TablesOk(View()) && newId !in users
      modifies this
      ensures r == Err(EmailUnverified) <==> !claims.emailVerified || claims.email == ""
      ensures !ClaimsOk(claims) ==> r.Err? && View() == old(View())
      ensures ClaimsOk(claims) ==>
        var out := Finish(old(View()), Login(Key(provider, claims.subject), claims.email, FindSubject), newId);
        && View() == out.accounts
        && r == match out.pc { case LoggedIn(u) => Ok(u) case _ => Err(Deleted) }
      ensures ClaimsOk(claims) ==>
        && (r.Ok? || r == Err(Deleted))
        && LoginDoes(old(View()), Key(provider, claims.subject), claims.email, newId,
                     if r.Ok? then Some(r.value) else None, View())
      ensures r == Err(BadState) <==> claims.emailVerified && claims.email != "" && claims.subject == ""
    {
      if !claims.emailVerified || claims.email == "" {
        return Err(EmailUnverified);
      }
      if claims.subject == "" {
        return Err(BadState);
      }
      AloneItGetsThrough(View(), Key(provider, claims.subject), claims.email, newId);
      ResolvedDoes(View(), Key(provider, claims.subject), claims.email, newId);
      r := ResolveOidcUser(Key(provider, claims.subject), claims.email, newId);
    }
  }
}
