/**
  The assignment problem: rows are attraction clusters, columns are forecast days,
  every row takes a column of its own and the total cost should be least.

  This module is the mathematics only: what an assignment is, what it costs, and why a
  pair of dual prices certifies that no assignment is cheaper.
 */
module Assignment {

  import opened Matrices
  import opened Sequences

  /** `a[i]` is the column of row `i`; no column is used twice. */
  predicate IsAssignment(a: seq<int>, rows: nat, columns: nat) {
    && |a| == rows
    && (forall i | 0 <= i < rows :: 0 <= a[i] < columns)
    && (forall i, j | 0 <= i < j < rows :: a[i] != a[j])
  }

  /** The prices `v` of the columns listed in `b`, added up. */
  function SumAt(v: seq<real>, b: seq<int>): real
    requires forall i | 0 <= i < |b| :: 0 <= b[i] < |v|
  {
    if b == [] then 0.0 else v[b[0]] + SumAt(v, b[1..])
  }

  function TotalCost(cost: Matrix, a: seq<int>): real
    requires |a| == |cost|
    requires forall i | 0 <= i < |a| :: 0 <= a[i] < |cost[i]|
  {
    if a == [] then 0.0 else cost[0][a[0]] + TotalCost(cost[1..], a[1..])
  }

  /** Row prices `u` and column prices `v` that no entry of the matrix undercuts. */
  ghost predicate Feasible(cost: Matrix, u: seq<real>, v: seq<real>)
    requires |u| == |cost|
  {
    forall i, j | 0 <= i < |cost| && 0 <= j < |cost[i]| && j < |v| :: u[i] + v[j] <= cost[i][j]
  }

  /** Feasible prices that are exact on every chosen entry, and that charge nothing for unused columns. */
  ghost predicate DualCertificate(cost: Matrix, u: seq<real>, v: seq<real>, a: seq<int>)
    requires Rectangular(cost)
    requires IsAssignment(a, |cost|, Columns(cost))
  {
    && |u| == |cost|
    && |v| == Columns(cost)
    && Feasible(cost, u, v)
    && (forall i | 0 <= i < |cost| :: u[i] + v[a[i]] == cost[i][a[i]])
    && (forall j | 0 <= j < |v| :: v[j] <= 0.0)
    && (forall j | 0 <= j < |v| && j !in a :: v[j] == 0.0)
  }

  /** No assignment is cheaper. */
  ghost predicate Cheapest(cost: Matrix, a: seq<int>)
    requires Rectangular(cost)
    requires IsAssignment(a, |cost|, Columns(cost))
  {
    forall b | IsAssignment(b, |cost|, Columns(cost)) :: TotalCost(cost, a) <= TotalCost(cost, b)
  }

  lemma {:induction false} SumUpdate(s: seq<real>, k: nat, x: real)
    requires k < |s|
    ensures Sum(s[k := x]) == Sum(s) - s[k] + x
  {
    if k == 0 {
      assert s[0 := x][1..] == s[1..];
    } else {
      assert s[k := x][1..] == s[1..][k - 1 := x];
      SumUpdate(s[1..], k - 1, x);
    }
  }

  lemma {:induction false} SumSign(s: seq<real>)
    requires forall j | 0 <= j < |s| :: s[j] <= 0.0
    ensures Sum(s) <= 0.0
    ensures (forall j | 0 <= j < |s| :: s[j] == 0.0) ==> Sum(s) == 0.0
  {
    if s != [] {
      SumSign(s[1..]);
    }
  }

  /** A column that is not listed does not influence the sum over the list. */
  lemma {:induction false} SumAtUnlisted(v: seq<real>, b: seq<int>, k: nat, x: real)
    requires k < |v| && k !in b
    requires forall i | 0 <= i < |b| :: 0 <= b[i] < |v|
    ensures SumAt(v[k := x], b) == SumAt(v, b)
  {
    if b != [] {
      assert b[0] in b && b[0] != k;
      SumAtUnlisted(v, b[1..], k, x);
    }
  }

  /** With prices at most zero, distinct columns never sum below all columns, and reach that
      sum when only listed columns are charged. */
  lemma {:induction false} SumAtBounds(v: seq<real>, b: seq<int>)
    requires IsAssignment(b, |b|, |v|)
    requires forall j | 0 <= j < |v| :: v[j] <= 0.0
    ensures SumAt(v, b) >= Sum(v)
    ensures (forall j | 0 <= j < |v| && j !in b :: v[j] == 0.0) ==> SumAt(v, b) == Sum(v)
    decreases |b|
  {
    if b == [] {
      SumSign(v);
    } else {
      var w := v[b[0] := 0.0];
      assert forall i | 0 <= i < |b[1..]| :: b[1..][i] == b[i + 1];
      SumUpdate(v, b[0], 0.0);
      SumAtUnlisted(v, b[1..], b[0], 0.0);
      SumAtBounds(w, b[1..]);
      if forall j | 0 <= j < |v| && j !in b :: v[j] == 0.0 {
        forall j | 0 <= j < |w| && j !in b[1..] ensures w[j] == 0.0 {
          if j != b[0] { assert j !in b; }
        }
      }
    }
  }

  /** Weak duality, row by row, together with the exact form on tight entries. */
  lemma {:induction false} CostAgainstPrices(cost: Matrix, u: seq<real>, v: seq<real>, b: seq<int>)
    requires |b| == |cost| == |u|
    requires forall i | 0 <= i < |b| :: 0 <= b[i] < |cost[i]| && b[i] < |v|
    requires Feasible(cost, u, v)
    ensures TotalCost(cost, b) >= Sum(u) + SumAt(v, b)
    ensures (forall i | 0 <= i < |b| :: u[i] + v[b[i]] == cost[i][b[i]])
            ==> TotalCost(cost, b) == Sum(u) + SumAt(v, b)
  {
    if b != [] {
      assert forall i | 0 <= i < |b[1..]| ::
          b[1..][i] == b[i + 1] && cost[1..][i] == cost[i + 1] && u[1..][i] == u[i + 1];
      CostAgainstPrices(cost[1..], u[1..], v, b[1..]);
    }
  }

  /** A certified assignment is at most as expensive as every assignment. */
  lemma CertificateIsOptimal(cost: Matrix, u: seq<real>, v: seq<real>, a: seq<int>)
    requires Rectangular(cost)
    requires IsAssignment(a, |cost|, Columns(cost))
    requires DualCertificate(cost, u, v, a)
    ensures Cheapest(cost, a)
  {
    CostAgainstPrices(cost, u, v, a);
    SumAtBounds(v, a);
    forall b | IsAssignment(b, |cost|, Columns(cost)) ensures TotalCost(cost, a) <= TotalCost(cost, b) {
      CostAgainstPrices(cost, u, v, b);
      SumAtBounds(v, b);
    }
  }
}
