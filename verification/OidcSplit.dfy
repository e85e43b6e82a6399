/**
  Which accounts the logins of an identity do reach. Every target can be reached, by two
  logins at once and each on its own account, which makes the bounds of OidcLogin exact: when
  two logins can be split over two accounts, and when a session can miss the linked account.
 */
module OidcSplit {
  import opened Wrappers
  import opened OidcLogin
  import opened OidcAlone
  import opened Sets

  // ----- Building runs -----

  /** Some run that presents only what is on offer leads from s to t. */
  ghost predicate Reaches(s: State, t: State, offered: Key -> set<Email>) {
    exists run :: Legal(s, run) && Presents(run, offered) && Exec(s, run) == t
  }

  lemma {:induction false} RunThenStep(s: State, run: seq<Action>, act: Action)
    requires Legal(s, run) && Enabled(Exec(s, run), act)
    ensures Legal(s, run + [act]) && Exec(s, run + [act]) == Apply(Exec(s, run), act)
    decreases |run|
  {
    if run == [] {
      assert run + [act] == [act];
    } else {
      RunThenStep(Apply(s, run[0]), run[1..], act);
      assert (run + [act])[0] == run[0] && (run + [act])[1..] == run[1..] + [act];
    }
  }

  lemma ReachesNext(s: State, t: State, offered: Key -> set<Email>, act: Action)
    requires Reaches(s, t, offered) && Enabled(t, act)
    requires act.Start? ==> act.claims.email in offered(Key(act.provider, act.claims.subject))
    ensures Reaches(s, Apply(t, act), offered)
  {
    var run :| Legal(s, run) && Presents(run, offered) && Exec(s, run) == t;
    RunThenStep(s, run, act);
    assert Presents(run + [act], offered);
  }

  lemma ReachedIsSound(s: State, t: State, offered: Key -> set<Email>)
    requires Initial(s) && Reaches(s, t, offered)
    ensures Inv(s.accounts, t)
  {
    var run :| Legal(s, run) && Presents(run, offered) && Exec(s, run) == t;
    RunKeepsInv(s.accounts, s, run);
  }

  function WithLogin(t: State, p: ProcId, a: Accounts, l: Login): State {
    State(a, t.logins[p := l])
  }

  /** A login can run to its end while every other one stands still. */
  lemma {:induction false} ReachesEnd(s: State, t: State, offered: Key -> set<Email>, p: ProcId, newId: UserId)
    requires Reaches(s, t, offered) && p in t.logins
    requires var pc := t.logins[p].pc; pc.FindSubject? || pc.FindEmail? || pc.Provision? ==> newId !in t.accounts.users
    ensures var end := Finish(t.accounts, t.logins[p], newId);
      Reaches(s, WithLogin(t, p, end.accounts, t.logins[p].(pc := end.pc)), offered)
    decreases StepsLeft(t.logins[p].pc)
  {
    var l := t.logins[p];
    if Running(l.pc) {
      var u := Apply(t, Step(p, newId));
      ReachesNext(s, t, offered, Step(p, newId));
      ReachesEnd(s, u, offered, p, newId);
      var end := Finish(u.accounts, u.logins[p], newId);
      assert WithLogin(u, p, end.accounts, u.logins[p].(pc := end.pc))
          == WithLogin(t, p, end.accounts, l.(pc := end.pc));
    } else {
      assert WithLogin(t, p, t.accounts, l) == t;
    }
  }

  /** Where a login stands once it has looked its identity up. */
  function AfterSubject(a: Accounts, k: Key): Pc {
    var found := UserBySubject(a, k);
    if found.Some? then OpenSession(found.value) else FindEmail
  }

  lemma ReachesLookedUp(s: State, t: State, offered: Key -> set<Email>, p: ProcId, k: Key, e: Email)
    requires Reaches(s, t, offered) && p !in t.logins && Addressed(offered, k, e)
    ensures Reaches(s, WithLogin(t, p, t.accounts, Login(k, e, AfterSubject(t.accounts, k))), offered)
  {
    var act := Start(p, k.provider, Claims(k.subject, e, true));
    var started := Apply(t, act);
    ReachesNext(s, t, offered, act);
    ReachesNext(s, started, offered, Step(p, 0));
    assert Apply(started, Step(p, 0)) == WithLogin(t, p, t.accounts, Login(k, e, AfterSubject(t.accounts, k)));
  }

  // ----- Each login gets to its target -----

  lemma EmailLookupFinishes(a: Accounts, k: Key, e: Email, newId: UserId)
    requires TablesOk(a) && Usable(a, e) && newId !in a.users
    ensures var end := Finish(a, Login(k, e, FindEmail), newId);
      && end.pc.LoggedIn? && end.pc.user in end.accounts.users && end.accounts.users[end.pc.user].email == e
  {
    if e in a.index {
      AdoptionFinishes(a, k, e, a.index[e], newId);
    } else {
      var created := CreateUnverified(a, newId, e, "");
      AdoptionFinishes(created, k, e, newId, newId);
      assert Finish(a, Login(k, e, Provision), newId) == Finish(created, Login(k, e, Clear(newId)), newId);
    }
  }

  /** What was usable at the start is usable later: these runs delete no account. */
  lemma UsableStays(start: Accounts, a: Accounts, e: Email)
    requires TablesOk(start) && TablesOk(a) && Evolves(start, a) && Usable(start, e)
    ensures Usable(a, e)
  {
    if e in a.index {
      assert a.users[a.index[e]].email == e;
    }
  }

  /** The address a login presents to get to the target: any non-empty one for a linked identity. */
  ghost predicate LeadsTo(a: Accounts, offered: Key -> set<Email>, k: Key, e: Email, target: Email) {
    && Addressed(offered, k, e) && target in Targets(a, k, offered(k))
    && (UserBySubject(a, k).None? ==> e == target)
  }

  lemma SomethingLeadsTo(a: Accounts, offered: Key -> set<Email>, k: Key, target: Email) returns (e: Email)
    requires target in Targets(a, k, offered(k))
    ensures LeadsTo(a, offered, k, e, target)
  {
    if UserBySubject(a, k).None? {
      e := target;
    } else {
      e :| e in offered(k) && e !in {""};
    }
  }

  /** A login that was past its lookup before anything changed still ends on its target. */
  lemma FinishesOnTarget(start: Accounts, a: Accounts, offered: Key -> set<Email>, k: Key, e: Email, target: Email,
                         newId: UserId)
    requires TablesOk(start) && TablesOk(a) && Evolves(start, a) && LeadsTo(start, offered, k, e, target)
    requires newId !in a.users
    ensures var end := Finish(a, Login(k, e, AfterSubject(start, k)), newId);
      && end.pc.LoggedIn? && end.pc.user in end.accounts.users && end.accounts.users[end.pc.user].email == target
  {
    if UserBySubject(start, k).None? {
      UsableStays(start, a, e);
      EmailLookupFinishes(a, k, e, newId);
    } else {
      var u := start.links[k];
      assert Finish(a, Login(k, e, OpenSession(u)), newId) == Outcome(a, LoggedIn(u));
    }
  }

  lemma {:induction false} Above(ids: set<UserId>) returns (x: UserId)
    ensures forall y :: y in ids ==> y < x
    decreases |ids|
  {
    if ids == {} {
      x := 0;
    } else {
      var y := Pick(ids);
      var z := Above(ids - {y});
      x := if z > y then z else y + 1;
      forall i | i in ids ensures i < x {
        assert i == y || i in ids - {y};
      }
    }
  }

  predicate Completed(t: State, p: ProcId, k: Key) {
    p in t.logins && t.logins[p].key == k && t.logins[p].pc.LoggedIn?
  }

  ghost predicate SessionFor(t: State, p: ProcId, target: Email) {
    && p in t.logins && t.logins[p].pc.LoggedIn? && t.logins[p].pc.user in t.accounts.users
    && t.accounts.users[t.logins[p].pc.user].email == target
  }

  lemma {:induction false} FinishEvolves(start: Accounts, a: Accounts, l: Login, newId: UserId)
    requires TablesOk(a) && Evolves(start, a) && PasswordsOk(start, a) && LoginOk(start, a, l)
    requires l.pc.FindSubject? || l.pc.FindEmail? || l.pc.Provision? ==> newId !in a.users
    ensures Evolves(a, Finish(a, l, newId).accounts)
    decreases StepsLeft(l.pc)
  {
    if Running(l.pc) {
      var next := Next(a, l, newId);
      NextKeepsTables(start, a, l, newId);
      EvolvesTransitively(start, a, next.accounts);
      FinishEvolves(start, next.accounts, l.(pc := next.pc), newId);
      EvolvesTransitively(a, next.accounts, Finish(next.accounts, l.(pc := next.pc), newId).accounts);
    }
  }

  /** One login runs to its target; the other, waiting past its lookup, does not notice. */
  lemma ReachesTarget(s: State, t: State, offered: Key -> set<Email>, p: ProcId, k: Key, e: Email, target: Email)
    returns (u: State)
    requires Initial(s) && Reaches(s, t, offered) && LeadsTo(s.accounts, offered, k, e, target)
    requires p in t.logins && t.logins[p] == Login(k, e, AfterSubject(s.accounts, k))
    ensures Reaches(s, u, offered) && SessionFor(u, p, target) && u.logins[p].key == k
    ensures u.logins == t.logins[p := u.logins[p]] && Evolves(t.accounts, u.accounts)
  {
    ReachedIsSound(s, t, offered);
    var newId := Above(t.accounts.users.Keys);
    ReachesEnd(s, t, offered, p, newId);
    FinishesOnTarget(s.accounts, t.accounts, offered, k, e, target, newId);
    FinishEvolves(s.accounts, t.accounts, t.logins[p], newId);
    var end := Finish(t.accounts, t.logins[p], newId);
    u := WithLogin(t, p, end.accounts, t.logins[p].(pc := end.pc));
  }

  /** Any two targets, of two identities or of one, are reached by two logins of one run. */
  lemma AllTargetsAreReached(s: State, offered: Key -> set<Email>, j: Key, k: Key, d: Email, e: Email)
    returns (run: seq<Action>, p: ProcId, q: ProcId)
    requires Initial(s) && d in Targets(s.accounts, j, offered(j)) && e in Targets(s.accounts, k, offered(k))
    ensures Legal(s, run) && Presents(run, offered) && Completed(Exec(s, run), p, j) && Completed(Exec(s, run), q, k)
    ensures SessionFor(Exec(s, run), p, d) && SessionFor(Exec(s, run), q, e)
  {
    p, q := 0, 1;
    var c := SomethingLeadsTo(s.accounts, offered, j, d);
    var f := SomethingLeadsTo(s.accounts, offered, k, e);
    assert Legal(s, []) && Presents([], offered) && Exec(s, []) == s;
    ReachesLookedUp(s, s, offered, p, j, c);
    var s1 := WithLogin(s, p, s.accounts, Login(j, c, AfterSubject(s.accounts, j)));
    ReachesLookedUp(s, s1, offered, q, k, f);
    var s2 := WithLogin(s1, q, s.accounts, Login(k, f, AfterSubject(s.accounts, k)));
    var s3 := ReachesTarget(s, s2, offered, p, j, c, d);
    var s4 := ReachesTarget(s, s3, offered, q, k, f, e);
    run :| Legal(s, run) && Presents(run, offered) && Exec(s, run) == s4;
  }

  // ----- The exact conditions -----

  predicate TwoIn(targets: set<Email>) {
    exists d, e :: d in targets && e in targets && d != e
  }

  ghost predicate Splits(s: State, run: seq<Action>, p: ProcId, q: ProcId, offered: Key -> set<Email>, j: Key, k: Key) {
    && Legal(s, run) && Presents(run, offered) && Completed(Exec(s, run), p, j) && Completed(Exec(s, run), q, k)
    && Exec(s, run).logins[p].pc.user != Exec(s, run).logins[q].pc.user
  }

  /** Some run completes a login of each identity, for different accounts. */
  ghost predicate CanSplit(s: State, offered: Key -> set<Email>, j: Key, k: Key) {
    exists run, p, q :: Splits(s, run, p, q, offered, j, k)
  }

  /**
    Logins of two identities, or of one, can be split over two accounts exactly when they have two different
    targets.
   */
  lemma SplitsExactly(s: State, offered: Key -> set<Email>, j: Key, k: Key)
    requires Initial(s)
    ensures CanSplit(s, offered, j, k) <==>
      exists d, e :: d in Targets(s.accounts, j, offered(j)) && e in Targets(s.accounts, k, offered(k)) && d != e
  {
    if run, p, q :| Splits(s, run, p, q, offered, j, k) {
      OnlyTargetsAreReached(s, run, offered, p);
      OnlyTargetsAreReached(s, run, offered, q);
      RunKeepsInv(s.accounts, s, run);
      var a, ls := Exec(s, run).accounts, Exec(s, run).logins;
      assert a.index[a.users[ls[p].pc.user].email] == ls[p].pc.user;
      assert a.index[a.users[ls[q].pc.user].email] == ls[q].pc.user;
    }
    if d, e :| d in Targets(s.accounts, j, offered(j)) && e in Targets(s.accounts, k, offered(k)) && d != e {
      var run, p, q := AllTargetsAreReached(s, offered, j, k, d, e);
      assert Splits(s, run, p, q, offered, j, k);
    }
  }

  /**
    One identity has two targets exactly when it is unlinked, or linked to a deleted account, and two usable
    addresses are on offer.
   */
  lemma TwoTargets(a: Accounts, k: Key, addresses: set<Email>)
    ensures TwoIn(Targets(a, k, addresses))
       <==> k.subject != "" && UserBySubject(a, k).None?
            && exists d, e :: d in addresses && e in addresses && d != e && Usable(a, d) && Usable(a, e)
  {
    if k.subject != "" && UserBySubject(a, k).None? {
      if d, e :| d in addresses && e in addresses && d != e && Usable(a, d) && Usable(a, e) {
        assert d in addresses && d !in {""};
        assert d in Targets(a, k, addresses) && e in Targets(a, k, addresses);
      }
    }
  }

  predicate StartsFor(act: Action, k: Key) {
    act.Start? && ClaimsOk(act.claims) && Key(act.provider, act.claims.subject) == k
  }

  // ----- One identity, two addresses -----

  /** The identity presents only these addresses; what other identities do is left open. */
  predicate PresentsOnly(run: seq<Action>, k: Key, addresses: set<Email>) {
    forall i :: 0 <= i < |run| && StartsFor(run[i], k) ==> run[i].claims.email in addresses
  }

  /** All addresses any login of the run presents, for every identity alike: a bound that excludes no run. */
  function Anything(run: seq<Action>): Key -> set<Email> {
    var all := set i | 0 <= i < |run| && run[i].Start? :: run[i].claims.email;
    k => all
  }

  /** A bound on the presented addresses that restricts only the one identity. */
  function OnlyFor(k: Key, addresses: set<Email>, run: seq<Action>): Key -> set<Email> {
    l => if l == k then addresses else Anything(run)(l)
  }

  lemma OnlyForBounds(run: seq<Action>, k: Key, addresses: set<Email>)
    requires PresentsOnly(run, k, addresses)
    ensures Presents(run, OnlyFor(k, addresses, run)) && OnlyFor(k, addresses, run)(k) == addresses
  {
    forall i | 0 <= i < |run| && run[i].Start? ensures run[i].claims.email in Anything(run)(k) {
    }
    forall i | 0 <= i < |run| && run[i].Start? && ClaimsOk(run[i].claims)
      ensures run[i].claims.email in OnlyFor(k, addresses, run)(Key(run[i].provider, run[i].claims.subject))
    {
      assert StartsFor(run[i], Key(run[i].provider, run[i].claims.subject));
    }
  }

  ghost predicate SplitsOne(s: State, run: seq<Action>, p: ProcId, q: ProcId, k: Key, addresses: set<Email>) {
    && Legal(s, run) && PresentsOnly(run, k, addresses)
    && Completed(Exec(s, run), p, k) && Completed(Exec(s, run), q, k)
    && Exec(s, run).logins[p].pc.user != Exec(s, run).logins[q].pc.user
  }

  /**
    An identity that presents two addresses can be split over two accounts, whatever else goes on,
    exactly when no live account is linked to it and a deleted account holds neither address.
   */
  lemma TwoAddressesSplit(s: State, k: Key, one: Email, two: Email)
    requires Initial(s) && one != two
    ensures (exists run, p, q :: SplitsOne(s, run, p, q, k, {one, two}))
       <==> k.subject != "" && UserBySubject(s.accounts, k).None? && Usable(s.accounts, one) && Usable(s.accounts, two)
  {
    var es := {one, two};
    assert one in es && two in es;
    TwoTargets(s.accounts, k, es);
    if run, p, q :| SplitsOne(s, run, p, q, k, es) {
      OnlyForBounds(run, k, es);
      assert Splits(s, run, p, q, OnlyFor(k, es, run), k, k);
      SplitsExactly(s, OnlyFor(k, es, run), k, k);
    }
    SplitsExactly(s, OnlyFor(k, es, []), k, k);
    assert OnlyFor(k, es, [])(k) == es;
    if CanSplit(s, OnlyFor(k, es, []), k, k) {
      var run, p, q :| Splits(s, run, p, q, OnlyFor(k, es, []), k, k);
      assert SplitsOne(s, run, p, q, k, es);
    }
  }

  ghost predicate MissesTheLink(s: State, run: seq<Action>, p: ProcId, offered: Key -> set<Email>, k: Key) {
    && Legal(s, run) && Presents(run, offered) && Completed(Exec(s, run), p, k)
    && (k in Exec(s, run).accounts.links ==> Exec(s, run).accounts.links[k] != Exec(s, run).logins[p].pc.user)
  }

  /** Some run completes a login of the identity for another account than the one linked to it at the end. */
  ghost predicate CanMissTheLink(s: State, offered: Key -> set<Email>, k: Key) {
    exists run, p :: MissesTheLink(s, run, p, offered, k)
  }

  lemma MissNeedsTargets(s: State, run: seq<Action>, p: ProcId, offered: Key -> set<Email>, k: Key)
    requires Initial(s) && MissesTheLink(s, run, p, offered, k)
    ensures Targets(s.accounts, k, offered(k)) != {} && UserBySubject(s.accounts, k).None?
    ensures k !in s.accounts.links ==> TwoIn(Targets(s.accounts, k, offered(k)))
  {
    OnlyTargetsAreReached(s, run, offered, p);
    if UserBySubject(s.accounts, k).Some? {
      LinkedIdentityKeepsItsAccount(s, [], run, p);
    }
    if k !in s.accounts.links {
      NewLinksAreTargets(s, run, offered, p);
      var a, l := Exec(s, run).accounts, Exec(s, run).logins[p];
      assert a.users[a.links[k]].email != a.users[l.pc.user].email by {
        if a.users[a.links[k]].email == a.users[l.pc.user].email {
          OneAccountPerAddress(s, run, a.links[k], l.pc.user);
        }
      }
    }
  }

  /**
    A session can miss the linked account exactly when the identity has a target and was linked
    to a deleted account, or was unlinked and has two targets.
   */
  lemma LinkMissedExactly(s: State, offered: Key -> set<Email>, k: Key)
    requires Initial(s)
    ensures CanMissTheLink(s, offered, k) <==>
      || (k in s.accounts.links && UserBySubject(s.accounts, k).None? && Targets(s.accounts, k, offered(k)) != {})
      || (k !in s.accounts.links
          && TwoIn(Targets(s.accounts, k, offered(k))))
  {
    var targets := Targets(s.accounts, k, offered(k));
    if run, p :| MissesTheLink(s, run, p, offered, k) {
      MissNeedsTargets(s, run, p, offered, k);
    }
    if k in s.accounts.links && UserBySubject(s.accounts, k).None? && targets != {} {
      var d :| d in targets;
      var run, p, q := AllTargetsAreReached(s, offered, k, k, d, d);
      RunKeepsInv(s.accounts, s, run);
      assert MissesTheLink(s, run, p, offered, k);
    }
    if k !in s.accounts.links {
      if d, e :| d in targets && e in targets && d != e {
        var run, p, q := AllTargetsAreReached(s, offered, k, k, d, e);
        assert MissesTheLink(s, run, p, offered, k) || MissesTheLink(s, run, q, offered, k);
      }
    }
  }
}
