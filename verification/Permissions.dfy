/**
  Permission levels and the per-module maximum that the members package folds
  over role rows. The JSON column holds text; a level that is none of "none",
  "read" and "write" is kept as Other and ranks as no access.
 */
module Permissions {
  datatype Level = Nothing | Read | Write | Other(text: string)

  type TeamId = int

  datatype Module = Events | Members | Finances | News | Polls | Settings | Stats

  datatype Perms = Perms(events: Level, members: Level, finances: Level, news: Level,
                         polls: Level, settings: Level, stats: Level)
  {
    function At(m: Module): Level {
      match m
      case Events => events
      case Members => members
      case Finances => finances
      case News => news
      case Polls => polls
      case Settings => settings
      case Stats => stats
    }
  }

  const NO_ACCESS := Perms(Nothing, Nothing, Nothing, Nothing, Nothing, Nothing, Nothing)

  function Rank(level: Level): nat {
    if level == Write then 2 else if level == Read then 1 else 0
  }

  function FoldMax(cur: Level, next: Level): Level {
    if Rank(next) > Rank(cur) then next else cur
  }

  function FoldPermissions(a: Perms, b: Perms): Perms {
    Perms(FoldMax(a.events, b.events), FoldMax(a.members, b.members), FoldMax(a.finances, b.finances),
          FoldMax(a.news, b.news), FoldMax(a.polls, b.polls), FoldMax(a.settings, b.settings),
          FoldMax(a.stats, b.stats))
  }

  /** The accumulator after scanning rows in the order the database returned them. */
  function Fold(rows: seq<Perms>): Perms {
    if rows == [] then NO_ACCESS
    else FoldPermissions(Fold(rows[..|rows| - 1]), rows[|rows| - 1])
  }

  function RowSet(rows: seq<Perms>): set<Perms> {
    set p | p in rows
  }

  /** What the fold is meant to compute: the best level held by any row, with no mention of order. */
  function Highest(rows: set<Perms>, m: Module): Level {
    if exists p :: p in rows && p.At(m) == Write then Write
    else if exists p :: p in rows && p.At(m) == Read then Read
    else Nothing
  }

  function Effective(rows: set<Perms>): Perms {
    Perms(Highest(rows, Events), Highest(rows, Members), Highest(rows, Finances), Highest(rows, News),
          Highest(rows, Polls), Highest(rows, Settings), Highest(rows, Stats))
  }

  lemma EffectiveAt(rows: set<Perms>, m: Module)
    ensures Effective(rows).At(m) == Highest(rows, m)
  {
  }

  lemma FoldPermissionsAt(a: Perms, b: Perms, m: Module)
    ensures FoldPermissions(a, b).At(m) == FoldMax(a.At(m), b.At(m))
  {
  }

  lemma HighestOfOneMore(rows: set<Perms>, p: Perms, m: Module)
    ensures Highest(rows + {p}, m) == FoldMax(Highest(rows, m), p.At(m))
  {
  }

  lemma {:induction false} FoldIsHighest(rows: seq<Perms>, m: Module)
    ensures Fold(rows).At(m) == Highest(RowSet(rows), m)
  {
    if rows == [] {
      assert RowSet(rows) == {};
    } else {
      var init, last := rows[..|rows| - 1], rows[|rows| - 1];
      FoldIsHighest(init, m);
      FoldPermissionsAt(Fold(init), last, m);
      HighestOfOneMore(RowSet(init), last, m);
      assert RowSet(rows) == RowSet(init) + {last} by {
        assert rows == init + [last];
      }
    }
  }

  lemma SameAtEveryModule(a: Perms, b: Perms)
    requires forall m: Module :: a.At(m) == b.At(m)
    ensures a == b
  {
    assert a.At(Events) == b.At(Events) && a.At(Members) == b.At(Members) && a.At(Finances) == b.At(Finances);
    assert a.At(News) == b.At(News) && a.At(Polls) == b.At(Polls);
    assert a.At(Settings) == b.At(Settings) && a.At(Stats) == b.At(Stats);
  }

  /** Any enumeration of the same rows, in any order and with any repetition, folds to the same result. */
  lemma FoldIsEffective(rows: seq<Perms>, all: set<Perms>)
    requires all == RowSet(rows)
    ensures Fold(rows) == Effective(all)
  {
    forall m: Module ensures Fold(rows).At(m) == Effective(all).At(m) {
      FoldIsHighest(rows, m);
      EffectiveAt(all, m);
    }
    SameAtEveryModule(Fold(rows), Effective(all));
  }

  lemma FoldIgnoresOrder(a: seq<Perms>, b: seq<Perms>)
    requires forall p :: p in a <==> p in b
    ensures Fold(a) == Fold(b)
  {
    assert RowSet(a) == RowSet(b);
    FoldIsEffective(a, RowSet(a));
    FoldIsEffective(b, RowSet(b));
  }

  /** The folded settings level is "write" exactly when the SQL existence test over the same rows succeeds. */
  lemma FoldedSettingsMatchesExistenceTest(rows: seq<Perms>)
    ensures Fold(rows).settings == Write <==> exists p :: p in rows && p.settings == Write
  {
  }

  lemma RankBounds(rows: set<Perms>, m: Module, k: nat)
    ensures Rank(Highest(rows, m)) <= k <==> forall p :: p in rows ==> Rank(p.At(m)) <= k
  {
  }

  // ----- GetPermissionsForTeams: one scan over the rows of many teams -----

  function Select(rows: seq<(TeamId, Perms)>, t: TeamId): seq<Perms> {
    if rows == [] then []
    else
      var last := rows[|rows| - 1];
      Select(rows[..|rows| - 1], t) + (if last.0 == t then [last.1] else [])
  }

  function TeamsIn(rows: seq<(TeamId, Perms)>): set<TeamId> {
    set row | row in rows :: row.0
  }

  lemma TeamsInOneMore(rows: seq<(TeamId, Perms)>, row: (TeamId, Perms))
    ensures TeamsIn(rows + [row]) == TeamsIn(rows) + {row.0}
  {
  }

  lemma FoldSelectOneMore(rows: seq<(TeamId, Perms)>, row: (TeamId, Perms), t: TeamId)
    ensures Fold(Select(rows + [row], t))
         == if t == row.0 then FoldPermissions(Fold(Select(rows, t)), row.1) else Fold(Select(rows, t))
  {
    var all := rows + [row];
    assert all[..|all| - 1] == rows;
    if t == row.0 {
      var sel := Select(all, t);
      assert sel[..|sel| - 1] == Select(rows, t);
    } else {
      assert Select(all, t) == Select(rows, t);
    }
  }

  lemma {:induction false} SelectEmpty(rows: seq<(TeamId, Perms)>, t: TeamId)
    ensures Select(rows, t) == [] <==> t !in TeamsIn(rows)
  {
    if rows != [] {
      var init, last := rows[..|rows| - 1], rows[|rows| - 1];
      SelectEmpty(init, t);
      assert rows == init + [last];
      assert TeamsIn(rows) == TeamsIn(init) + {last.0};
    }
  }

  method GetPermissionsForTeams(rows: seq<(TeamId, Perms)>) returns (out: map<TeamId, Perms>)
    ensures out.Keys == TeamsIn(rows)
    ensures forall t :: t in out ==> out[t] == Fold(Select(rows, t))
  {
    out := map[];
    for i := 0 to |rows|
      invariant out.Keys == TeamsIn(rows[..i])
      invariant forall t :: t in out ==> out[t] == Fold(Select(rows[..i], t))
    {
      ghost var before := rows[..i];
      var row := rows[i];
      assert rows[..i + 1] == before + [row];
      TeamsInOneMore(before, row);
      if row.0 !in out {
        SelectEmpty(before, row.0);
      }
      forall t ensures Fold(Select(rows[..i + 1], t))
         == if t == row.0 then FoldPermissions(Fold(Select(before, t)), row.1) else Fold(Select(before, t)) {
        FoldSelectOneMore(before, row, t);
      }
      var eff := if row.0 in out then out[row.0] else NO_ACCESS;
      out := out[row.0 := FoldPermissions(eff, row.1)];
    }
    assert rows[..|rows|] == rows;
  }

  /**
    A team missing from the batched answer is one whose own fold grants nothing, so callers may read it as "no
    access".
   */
  lemma MissingTeamHasNoAccess(rows: seq<(TeamId, Perms)>, t: TeamId)
    requires t !in TeamsIn(rows)
    ensures Fold(Select(rows, t)) == NO_ACCESS
  {
    SelectEmpty(rows, t);
  }
}
