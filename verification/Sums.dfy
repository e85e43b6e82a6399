/** Finite sums over sets of keys. */
module Sums {
  ghost function Sum<K>(s: set<K>, f: K -> int): int {
    if s == {} then 0 else var x :| x in s; f(x) + Sum(s - {x}, f)
  }

  lemma {:induction false} SumWithout<K>(s: set<K>, f: K -> int, x: K)
    requires x in s
    ensures Sum(s, f) == f(x) + Sum(s - {x}, f)
    decreases |s|
  {
    var y :| y in s && Sum(s, f) == f(y) + Sum(s - {y}, f);
    if y != x {
      SumWithout(s - {y}, f, x);
      SumWithout(s - {x}, f, y);
      assert s - {x} - {y} == s - {y} - {x};
    }
  }

  lemma {:induction false} SumSame<K>(s: set<K>, f: K -> int, g: K -> int)
    requires forall x :: x in s ==> f(x) == g(x)
    ensures Sum(s, f) == Sum(s, g)
    decreases |s|
  {
    if s != {} {
      var x :| x in s;
      SumWithout(s, f, x);
      SumWithout(s, g, x);
      SumSame(s - {x}, f, g);
    }
  }

  lemma {:induction false} SumPlus<K>(s: set<K>, f: K -> int, g: K -> int, h: K -> int)
    requires forall x :: x in s ==> h(x) == f(x) + g(x)
    ensures Sum(s, h) == Sum(s, f) + Sum(s, g)
    decreases |s|
  {
    if s != {} {
      var x :| x in s;
      SumWithout(s, f, x);
      SumWithout(s, g, x);
      SumWithout(s, h, x);
      SumPlus(s - {x}, f, g, h);
    }
  }

  lemma {:induction false} SumZero<K>(s: set<K>, f: K -> int)
    requires forall x :: x in s ==> f(x) == 0
    ensures Sum(s, f) == 0
    decreases |s|
  {
    if s != {} {
      var x :| x in s;
      SumWithout(s, f, x);
      SumZero(s - {x}, f);
    }
  }

  lemma {:induction false} SumNonNegative<K>(s: set<K>, f: K -> int)
    requires forall x :: x in s ==> f(x) >= 0
    ensures Sum(s, f) >= 0
    decreases |s|
  {
    if s != {} {
      var x :| x in s;
      SumWithout(s, f, x);
      SumNonNegative(s - {x}, f);
    }
  }

  /** Terms outside a subset that are all zero do not count. */
  lemma {:induction false} SumOutside<K>(s: set<K>, part: set<K>, f: K -> int)
    requires part <= s && forall x :: x in s && x !in part ==> f(x) == 0
    ensures Sum(s, f) == Sum(part, f)
    decreases |s|
  {
    if s != part {
      var x :| x in s && x !in part;
      SumWithout(s, f, x);
      SumOutside(s - {x}, part, f);
    }
  }

  /** A sum in which only the term at k can be non-zero. */
  lemma SumAt<K>(s: set<K>, f: K -> int, k: K)
    requires forall x :: x in s && x != k ==> f(x) == 0
    ensures Sum(s, f) == if k in s then f(k) else 0
  {
  }

  /** Summing by rows or by columns gives the same total: row(k)(l) and col(l)(k) name the same entry. */
  lemma {:induction false} SumSwap<K, L>(rows: set<K>, cols: set<L>, row: K -> L -> int, col: L -> K -> int,
                                         byRow: K -> int, byCol: L -> int)
    requires forall k, l :: k in rows && l in cols ==> row(k)(l) == col(l)(k)
    requires forall k :: k in rows ==> byRow(k) == Sum(cols, row(k))
    requires forall l :: l in cols ==> byCol(l) == Sum(rows, col(l))
    ensures Sum(rows, byRow) == Sum(cols, byCol)
    decreases |rows|
  {
    if rows == {} {
      SumZero(cols, byCol);
    } else {
      var x :| x in rows;
      var less: L -> int := l => Sum(rows - {x}, col(l));
      SumSwap(rows - {x}, cols, row, col, byRow, less);
      SumWithout(rows, byRow, x);
      forall l | l in cols ensures byCol(l) == row(x)(l) + less(l) {
        SumWithout(rows, col(l), x);
      }
      SumPlus(cols, row(x), less, byCol);
    }
  }

  /** A sum in which only the term at k has changed. */
  lemma SumOneChange<K>(s: set<K>, f: K -> int, g: K -> int, k: K)
    requires k in s && forall x :: x in s && x != k ==> f(x) == g(x)
    ensures Sum(s, g) == Sum(s, f) - f(k) + g(k)
  {
    SumWithout(s, f, k);
    SumWithout(s, g, k);
    SumSame(s - {k}, f, g);
  }

  /** A sum to which a term at a new k is added. */
  lemma SumOneMore<K>(s: set<K>, f: K -> int, g: K -> int, k: K)
    requires k !in s && forall x :: x in s ==> f(x) == g(x)
    ensures Sum(s + {k}, g) == Sum(s, f) + g(k)
  {
    SumWithout(s + {k}, g, k);
    assert s + {k} - {k} == s;
    SumSame(s, f, g);
  }
}
