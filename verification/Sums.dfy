/** Sums, maps and filters over sequences: the model of SQL aggregates and of set-based updates. */
module Sums {

  /** `SUM(w(row))` over the rows of a table; an empty table sums to 0. */
  function Sum<T>(rows: seq<T>, w: T -> int): int {
    if rows == [] then 0 else w(rows[0]) + Sum(rows[1..], w)
  }

  /** A set-based UPDATE: every row is rewritten by `f`. */
  function MapRows<T>(rows: seq<T>, f: T -> T): (r: seq<T>)
    ensures |r| == |rows|
    ensures forall i :: 0 <= i < |rows| ==> r[i] == f(rows[i])
  {
    seq(|rows|, i requires 0 <= i < |rows| => f(rows[i]))
  }

  /** A set-based DELETE: only rows satisfying `keep` survive, in order. */
  function Filter<T>(rows: seq<T>, keep: T -> bool): seq<T> {
    if rows == [] then []
    else (if keep(rows[0]) then [rows[0]] else []) + Filter(rows[1..], keep)
  }

  lemma SumOne<T>(row: T, w: T -> int)
    ensures Sum([row], w) == w(row)
  {
    assert [row][1..] == [];
  }

  lemma {:induction false} SumAppend<T>(a: seq<T>, b: seq<T>, w: T -> int)
    ensures Sum(a + b, w) == Sum(a, w) + Sum(b, w)
  {
    if a == [] {
      assert a + b == b;
    } else {
      SumAppend(a[1..], b, w);
      assert (a + b)[1..] == a[1..] + b;
    }
  }

  /** A row-by-row identity between weights lifts to the sums. */
  lemma {:induction false} SumAdds<T>(rows: seq<T>, w: T -> int, d: T -> int, total: T -> int)
    requires forall r :: r in rows ==> w(r) + d(r) == total(r)
    ensures Sum(rows, w) + Sum(rows, d) == Sum(rows, total)
  {
    if rows != [] {
      SumAdds(rows[1..], w, d, total);
    }
  }

  /** An update under which no row's weight falls keeps the sum exactly when it keeps every weight. */
  lemma {:induction false} SumSqueeze<T>(before: seq<T>, after: seq<T>, w: T -> int)
    requires |before| == |after|
    requires forall i :: 0 <= i < |before| ==> w(before[i]) <= w(after[i])
    ensures Sum(before, w) <= Sum(after, w)
    ensures Sum(before, w) == Sum(after, w) <==> forall i :: 0 <= i < |before| ==> w(before[i]) == w(after[i])
  {
    if before != [] {
      SumSqueeze(before[1..], after[1..], w);
      assert forall i :: 0 <= i < |before| - 1 ==> before[1..][i] == before[i + 1] && after[1..][i] == after[i + 1];
      if forall i :: 0 <= i < |before| - 1 ==> w(before[1..][i]) == w(after[1..][i]) {
        assert forall i :: 1 <= i < |before| ==> before[i] == before[1..][i - 1] && after[i] == after[1..][i - 1];
      }
    }
  }

  /** A sum over updated rows is a sum over the rows, each weighed as it will be. */
  lemma {:induction false} SumMapped<T>(rows: seq<T>, f: T -> T, w: T -> int, later: T -> int)
    requires forall r :: r in rows ==> w(f(r)) == later(r)
    ensures Sum(MapRows(rows, f), w) == Sum(rows, later)
  {
    if rows != [] {
      SumMapped(rows[1..], f, w, later);
      assert MapRows(rows, f)[1..] == MapRows(rows[1..], f);
    }
  }

  /** Deleting rows of non-negative weight keeps the sum exactly when every deleted row weighs nothing. */
  lemma {:induction false} SumFilter<T>(rows: seq<T>, keep: T -> bool, w: T -> int)
    requires forall r :: r in rows && !keep(r) ==> 0 <= w(r)
    ensures Sum(Filter(rows, keep), w) <= Sum(rows, w)
    ensures Sum(Filter(rows, keep), w) == Sum(rows, w) <==> forall r :: r in rows && !keep(r) ==> w(r) == 0
  {
    if rows != [] {
      SumFilter(rows[1..], keep, w);
      SumAppend(if keep(rows[0]) then [rows[0]] else [], Filter(rows[1..], keep), w);
      assert rows == [rows[0]] + rows[1..];
    }
  }

  /** A sum with no positive term is 0 exactly when every term is. */
  lemma {:induction false} SumNonPositive<T>(rows: seq<T>, w: T -> int)
    requires forall r :: r in rows ==> w(r) <= 0
    ensures Sum(rows, w) <= 0
    ensures Sum(rows, w) == 0 <==> forall r :: r in rows ==> w(r) == 0
  {
    if rows != [] {
      SumNonPositive(rows[1..], w);
      assert rows == [rows[0]] + rows[1..];
    }
  }

  /** Rewriting one row moves the sum by that row's change of weight. */
  lemma {:induction false} SumUpdate<T>(rows: seq<T>, i: nat, row: T, w: T -> int)
    requires i < |rows|
    ensures Sum(rows[i := row], w) == Sum(rows, w) - w(rows[i]) + w(row)
  {
    if i == 0 {
      assert rows[0 := row][1..] == rows[1..];
    } else {
      SumUpdate(rows[1..], i - 1, row, w);
      assert rows[i := row][1..] == rows[1..][i - 1 := row];
    }
  }
}
