/**
 * Relational building blocks shared by every query over the ledger: a table
 * is a sequence of rows (SQL imposes no order, so no result here may depend
 * on it unless the query says ORDER BY), and WHERE, SUM, COUNT(DISTINCT ...)
 * and GROUP BY ... MAX(...) are folds over that sequence.
 */
module Relation {
  import opened Wrappers

  /** WHERE p: the rows satisfying p, in table order. */
  function Where<T(!new)>(rows: seq<T>, p: T -> bool): (r: seq<T>)
    ensures |r| <= |rows|
    ensures forall x :: x in r <==> x in rows && p(x)
  {
    if rows == [] then []
    else if p(rows[0]) then [rows[0]] + Where(rows[1..], p)
    else Where(rows[1..], p)
  }

  /** The arithmetic sum of f over the rows; the empty sum is 0. */
  function SumOf<T>(rows: seq<T>, f: T -> int): int
  {
    if rows == [] then 0 else f(rows[0]) + SumOf(rows[1..], f)
  }

  /** SQL SUM(f): NULL over no rows, the sum otherwise. */
  function SqlSum<T>(rows: seq<T>, f: T -> int): Option<int>
  {
    if rows == [] then None else Some(SumOf(rows, f))
  }

  /** The non-NULL values of k over the rows; COUNT(DISTINCT k) is its size. */
  function Distinct<T(!new)>(rows: seq<T>, k: T -> Option<int>): (r: set<int>)
    ensures |r| <= |rows|
    ensures forall x :: x in rows && k(x).Some? ==> k(x).value in r
    ensures forall v :: v in r ==> exists x :: x in rows && k(x) == Some(v)
  {
    if rows == [] then {}
    else
      var rest := Distinct(rows[1..], k);
      if k(rows[0]).Some? then {k(rows[0]).value} + rest else rest
  }

  /**
   * SELECT g, MAX(f) ... GROUP BY g: one entry per group value g occurring
   * in the rows, holding the largest f among that group's rows.
   */
  function GroupMax<T(!new)>(rows: seq<T>, g: T -> int, f: T -> int): (m: map<int, int>)
    ensures forall x :: x in rows ==> g(x) in m && f(x) <= m[g(x)]
    ensures forall k :: k in m ==> exists x :: x in rows && g(x) == k && f(x) == m[k]
  {
    if rows == [] then map[]
    else
      var rest := GroupMax(rows[1..], g, f);
      var k := g(rows[0]);
      if k in rest && f(rows[0]) <= rest[k] then rest else rest[k := f(rows[0])]
  }

  /** SUM after one more row: NULL becomes the row's value, a sum grows by it. */
  function SqlAdd(s: Option<int>, v: int): Option<int> {
    Some(if s.None? then v else s.value + v)
  }

  lemma {:induction false} WhereAppend<T(!new)>(a: seq<T>, b: seq<T>, p: T -> bool)
    ensures Where(a + b, p) == Where(a, p) + Where(b, p)
  {
    if a != [] {
      assert (a + b)[1..] == a[1..] + b;
      WhereAppend(a[1..], b, p);
    } else {
      assert a + b == b;
    }
  }

  lemma {:induction false} SumAppend<T>(a: seq<T>, b: seq<T>, f: T -> int)
    ensures SumOf(a + b, f) == SumOf(a, f) + SumOf(b, f)
  {
    if a != [] {
      assert (a + b)[1..] == a[1..] + b;
      SumAppend(a[1..], b, f);
    } else {
      assert a + b == b;
    }
  }

  /** One more row passes WHERE p exactly when p holds of it. */
  lemma {:induction false} WhereSnoc<T(!new)>(rows: seq<T>, x: T, p: T -> bool)
    ensures Where(rows + [x], p) == if p(x) then Where(rows, p) + [x] else Where(rows, p)
  {
    WhereAppend(rows, [x], p);
    assert [x][1..] == [];
  }

  /** One more row adds its value to the sum. */
  lemma {:induction false} SumSnoc<T>(rows: seq<T>, x: T, f: T -> int)
    ensures SumOf(rows + [x], f) == SumOf(rows, f) + f(x)
  {
    SumAppend(rows, [x], f);
    assert [x][1..] == [];
  }

  /** One more row turns a NULL SUM into its value and adds to a non-NULL one. */
  lemma {:induction false} SqlSumSnoc<T>(rows: seq<T>, x: T, f: T -> int)
    ensures SqlSum(rows + [x], f) == SqlAdd(SqlSum(rows, f), f(x))
  {
    SumSnoc(rows, x, f);
  }

  /** One more row adds its non-NULL key value to the distinct values. */
  lemma DistinctSnoc<T(!new)>(rows: seq<T>, x: T, k: T -> Option<int>)
    ensures Distinct(rows + [x], k) == Distinct(rows, k) + (if k(x).Some? then {k(x).value} else {})
  {
    var d, d' := Distinct(rows, k), Distinct(rows + [x], k);
    forall v | v in d'
      ensures v in d || k(x) == Some(v)
    {
      var y :| y in rows + [x] && k(y) == Some(v);
    }
    forall v | v in d
      ensures v in d'
    {
      var y :| y in rows && k(y) == Some(v);
      assert y in rows + [x];
    }
    assert x in rows + [x];
  }

  lemma {:induction false} SumLe<T>(rows: seq<T>, f: T -> int, g: T -> int)
    requires forall x :: x in rows ==> f(x) <= g(x)
    ensures SumOf(rows, f) <= SumOf(rows, g)
  {
    if rows != [] {
      SumLe(rows[1..], f, g);
    }
  }

  lemma {:induction false} SumSplit<T>(rows: seq<T>, f: T -> int, g: T -> int, h: T -> int)
    requires forall x :: x in rows ==> f(x) == g(x) + h(x)
    ensures SumOf(rows, f) == SumOf(rows, g) + SumOf(rows, h)
  {
    if rows != [] {
      SumSplit(rows[1..], f, g, h);
    }
  }

  lemma {:induction false} SumNonNegative<T>(rows: seq<T>, f: T -> int)
    requires forall x :: x in rows ==> f(x) >= 0
    ensures SumOf(rows, f) >= 0
  {
    if rows != [] {
      SumNonNegative(rows[1..], f);
    }
  }

  lemma {:induction false} SumNonPositive<T>(rows: seq<T>, f: T -> int)
    requires forall x :: x in rows ==> f(x) <= 0
    ensures SumOf(rows, f) <= 0
  {
    if rows != [] {
      SumNonPositive(rows[1..], f);
    }
  }

  lemma {:induction false} SumPositive<T>(rows: seq<T>, f: T -> int)
    requires rows != []
    requires forall x :: x in rows ==> f(x) > 0
    ensures SumOf(rows, f) > 0
  {
    SumNonNegative(rows[1..], f);
  }

  /** A stronger filter keeps no more rows. */
  lemma {:induction false} WhereStronger<T(!new)>(rows: seq<T>, p: T -> bool, q: T -> bool)
    requires forall x :: x in rows && p(x) ==> q(x)
    ensures |Where(rows, p)| <= |Where(rows, q)|
  {
    if rows != [] {
      WhereStronger(rows[1..], p, q);
    }
  }
}
