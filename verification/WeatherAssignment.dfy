/**
  `hungarian`: matches every cluster to a forecast day of its own at least total cost.

  Rows and columns are numbered from 1, as in the program; column 0 stands for the row
  being inserted and `p[j] == 0` says that column `j` is free. The ghost sequence `at`
  is the inverse of `p` and the ghost sequence `rank` orders the columns of the search
  tree by the moment they were reached.
 */
module WeatherAssignment {
  import opened Wrappers
  import opened Matrices
  import opened Assignment

  /** A slack that may still be unknown (`math.inf`). */
  datatype Bound = Finite(value: real) | Infinite

  predicate Less(a: Bound, b: Bound) {
    a.Finite? && (b.Infinite? || a.value < b.value)
  }

  function Lower(b: Bound, delta: real): Bound {
    if b.Finite? then Finite(b.value - delta) else Infinite
  }

  /** `at` inverts `p` on the rows `1..top`, leaving out the column `hole`. */
  ghost predicate Inverse(p: seq<nat>, at: seq<nat>, hole: int, top: nat) {
    && top < |at|
    && (forall r | 1 <= r <= top :: at[r] < |p| && at[r] != hole && p[at[r]] == r)
    && (forall j | 0 <= j < |p| && j != hole && p[j] != 0 :: 1 <= p[j] <= top && at[p[j]] == j)
  }

  /** What the reduced cost of entry `(r, j)` is at the current prices. */
  function Slack(cost: Matrix, u: seq<real>, v: seq<real>, r: nat, j: nat): real
    requires Rectangular(cost)
    requires 1 <= r <= |cost| && 1 <= j <= Columns(cost)
    requires |u| == |cost| + 1 && |v| == Columns(cost) + 1
  {
    cost[r - 1][j - 1] - u[r] - v[j]
  }

  ghost predicate Shapes(cost: Matrix, u: seq<real>, v: seq<real>, p: seq<nat>) {
    && Rectangular(cost)
    && |u| == |cost| + 1
    && |v| == |p| == Columns(cost) + 1
  }

  /** The prices undercut no entry of the first `top` rows. */
  ghost predicate FeasibleUpTo(cost: Matrix, u: seq<real>, v: seq<real>, top: nat)
    requires Rectangular(cost) && |u| == |cost| + 1 && |v| == Columns(cost) + 1
  {
    forall r: nat, j: nat | 1 <= r <= top && r <= |cost| && 1 <= j <= Columns(cost) :: Slack(cost, u, v, r, j) >= 0.0
  }

  /** Matched entries are exact and free columns cost nothing. */
  ghost predicate Priced(cost: Matrix, u: seq<real>, v: seq<real>, p: seq<nat>)
    requires Shapes(cost, u, v, p)
  {
    && (forall j: nat | 1 <= j < |p| && 1 <= p[j] <= |cost| :: Slack(cost, u, v, p[j], j) == 0.0)
    && (forall j: nat | 1 <= j < |p| :: v[j] <= 0.0)
    && (forall j: nat | 1 <= j < |p| && p[j] == 0 :: v[j] == 0.0)
  }

  /** The alternating tree: each reached column hangs by a tight edge on an earlier one. */
  ghost predicate Tree(cost: Matrix, u: seq<real>, v: seq<real>, p: seq<nat>, way: seq<nat>,
                       used: seq<bool>, rank: seq<nat>, tip: nat)
    requires Shapes(cost, u, v, p)
  {
    && |way| == |used| == |rank| == |p|
    && (forall j: nat | 0 <= j < |p| && used[j] :: 1 <= p[j] <= |cost|)
    && (forall j: nat | 1 <= j < |p| && (used[j] || j == tip) ::
          && way[j] < |p|
          && used[way[j]]
          && rank[way[j]] < rank[j]
          && 1 <= p[way[j]] <= |cost|
          && Slack(cost, u, v, p[way[j]], j) == 0.0)
  }

  /** `minValues[j]` is the least slack from the tree to column `j`, reached from `way[j]`. */
  ghost predicate Frontier(cost: Matrix, u: seq<real>, v: seq<real>, p: seq<nat>, way: seq<nat>,
                           used: seq<bool>, minValues: seq<Bound>)
    requires Shapes(cost, u, v, p)
  {
    && |way| == |used| == |minValues| == |p|
    && (forall j: nat, s: nat | 1 <= j < |p| && !used[j] && s < |p| && used[s] && 1 <= p[s] <= |cost| ::
          minValues[j].Finite? && minValues[j].value <= Slack(cost, u, v, p[s], j))
    && (forall j: nat | 1 <= j < |p| && !used[j] && minValues[j].Finite? ::
          && way[j] < |p|
          && used[way[j]]
          && 1 <= p[way[j]] <= |cost|
          && minValues[j].value == Slack(cost, u, v, p[way[j]], j))
  }

  // ---------------------------------------------------------------- the inner for loops

  /** What the first inner loop does to the slacks: the row of the new tree column `column0`
      is offered to every unreached column. */
  ghost predicate Scanned(cost: Matrix, u: seq<real>, v: seq<real>, row: nat, column0: nat, used: seq<bool>,
                          minValues: seq<Bound>, way: seq<nat>, minValues1: seq<Bound>, way1: seq<nat>)
    requires Rectangular(cost) && 1 <= row <= |cost|
    requires |u| == |cost| + 1 && |v| == Columns(cost) + 1
    requires |used| == |minValues| == |way| == |v|
  {
    && |minValues1| == |way1| == |v|
    && (forall j: nat | 1 <= j < |v| && !used[j] ::
          var current := Slack(cost, u, v, row, j);
          if Less(Finite(current), minValues[j])
          then minValues1[j] == Finite(current) && way1[j] == column0
          else minValues1[j] == minValues[j] && way1[j] == way[j])
    && (forall j: nat | j < |v| && (j == 0 || used[j]) :: minValues1[j] == minValues[j] && way1[j] == way[j])
  }

  /** `column1` is an unreached column of least slack `delta`. */
  ghost predicate Nearest(used: seq<bool>, minValues: seq<Bound>, delta: Bound, column1: nat)
    requires |used| == |minValues|
  {
    && delta.Finite?
    && 1 <= column1 < |used| && !used[column1] && minValues[column1] == delta
    && (forall j: nat | 1 <= j < |used| && !used[j] :: minValues[j].Finite? && delta.value <= minValues[j].value)
  }

  /** What the second inner loop does to the prices: the tree moves by `delta`. */
  ghost predicate Moved(u: seq<real>, v: seq<real>, u1: seq<real>, v1: seq<real>,
                        used: seq<bool>, at: seq<nat>, top: nat, delta: real)
  {
    && |u1| == |u| && |v1| == |v| == |used|
    && top < |at| && |at| == |u|
    && (forall r | 1 <= r <= top :: at[r] < |used|)
    && (forall r: nat | r < |u| :: u1[r] == u[r] + if 1 <= r <= top && used[at[r]] then delta else 0.0)
    && (forall j | 0 <= j < |v| :: v1[j] == v[j] - if used[j] then delta else 0.0)
  }

  /** What the second inner loop does to the slacks of the unreached columns. */
  ghost predicate Lowered(used: seq<bool>, minValues: seq<Bound>, minValues1: seq<Bound>, delta: real)
    requires |used| == |minValues|
  {
    && |minValues1| == |minValues|
    && (forall j | 0 <= j < |used| ::
          minValues1[j] == if used[j] then minValues[j] else Lower(minValues[j], delta))
  }

  /** First inner loop. `free` witnesses that an unreached column exists. */
  method ScanColumns(cost: Matrix, currentRow: nat, column0: nat, u: array<real>, v: array<real>,
                     minValues: array<Bound>, way: array<nat>, used: array<bool>, ghost free: nat)
    returns (delta: Bound, column1: nat)
    requires Rectangular(cost) && 1 <= currentRow <= |cost|
    requires u.Length == |cost| + 1
    requires v.Length == minValues.Length == way.Length == used.Length == Columns(cost) + 1
    requires u != v
    requires 1 <= free < used.Length && !used[free]
    modifies minValues, way
    ensures Scanned(cost, u[..], v[..], currentRow, column0, used[..],
                    old(minValues[..]), old(way[..]), minValues[..], way[..])
    ensures Nearest(used[..], minValues[..], delta, column1)
  {
    delta, column1 := Infinite, 0;
    for column := 1 to used.Length
      invariant forall j: nat | 1 <= j < column && !used[j] ::
                  var current := Slack(cost, u[..], v[..], currentRow, j);
                  if Less(Finite(current), old(minValues[j]))
                  then minValues[j] == Finite(current) && way[j] == column0
                  else minValues[j] == old(minValues[j]) && way[j] == old(way[j])
      invariant forall j: nat | j < used.Length && (j == 0 || used[j] || column <= j) ::
                  minValues[j] == old(minValues[j]) && way[j] == old(way[j])
      invariant forall j: nat | 1 <= j < column && !used[j] ::
                  minValues[j].Finite? && delta.Finite? && delta.value <= minValues[j].value
      invariant delta.Finite? ==> 1 <= column1 < column && !used[column1] && minValues[column1] == delta
    {
      if !used[column] {
        var current := cost[currentRow - 1][column - 1] - u[currentRow] - v[column];
        if Less(Finite(current), minValues[column]) {
          minValues[column], way[column] := Finite(current), column0;
        }
        if Less(minValues[column], delta) {
          delta, column1 := minValues[column], column;
        }
      }
    }
    assert !used[free];
  }

  /** Second inner loop: moves every price of the tree by `delta` and every slack with it. */
  method AdjustPrices(u: array<real>, v: array<real>, minValues: array<Bound>, p: array<nat>,
                      used: array<bool>, delta: real, ghost at: seq<nat>, ghost top: nat)
    requires v.Length == minValues.Length == p.Length == used.Length
    requires u != v && top < u.Length && |at| == u.Length
    requires Inverse(p[..], at, -1, top)
    requires forall j | 0 <= j < used.Length && used[j] :: p[j] != 0
    modifies u, v, minValues
    ensures Moved(old(u[..]), old(v[..]), u[..], v[..], used[..], at, top, delta)
    ensures Lowered(used[..], old(minValues[..]), minValues[..], delta)
  {
    for column := 0 to used.Length
      invariant forall r: nat | r < u.Length ::
                  u[r] == old(u[r]) + if 1 <= r <= top && used[at[r]] && at[r] < column then delta else 0.0
      invariant forall j | 0 <= j < used.Length ::
                  v[j] == old(v[j]) - if used[j] && j < column then delta else 0.0
      invariant forall j | 0 <= j < used.Length ::
                  minValues[j] == if used[j] || column <= j then old(minValues[j]) else Lower(old(minValues[j]), delta)
    {
      if used[column] {
        assert p[..][column] == p[column] && at[p[column]] == column;
        assert forall r: nat | 1 <= r <= top && at[r] == column :: r == p[..][at[r]];
        u[p[column]] := u[p[column]] + delta;
        v[column] := v[column] - delta;
      } else {
        minValues[column] := Lower(minValues[column], delta);
      }
    }
  }

  // ---------------------------------------------------------------- one growth of the tree

  /** Offering a new tree column to the unreached ones extends the frontier by its row. */
  lemma AdmitColumn(cost: Matrix, u: seq<real>, v: seq<real>, p: seq<nat>, way: seq<nat>, used: seq<bool>,
                    minValues: seq<Bound>, column0: nat, way1: seq<nat>, minValues1: seq<Bound>)
    requires Shapes(cost, u, v, p) && column0 < |p| && 1 <= p[column0] <= |cost|
    requires Frontier(cost, u, v, p, way, used, minValues)
    requires Scanned(cost, u, v, p[column0], column0, used[column0 := true], minValues, way, minValues1, way1)
    ensures Frontier(cost, u, v, p, way1, used[column0 := true], minValues1)
  {
  }

  /** Columns that are already reached keep their parents. */
  lemma TreeKeepsParents(cost: Matrix, u: seq<real>, v: seq<real>, p: seq<nat>, way: seq<nat>, used: seq<bool>,
                         rank: seq<nat>, column0: nat, minValues: seq<Bound>,
                         minValues1: seq<Bound>, way1: seq<nat>)
    requires Shapes(cost, u, v, p) && column0 < |p| && 1 <= p[column0] <= |cost|
    requires Tree(cost, u, v, p, way, used, rank, column0)
    requires |minValues| == |p|
    requires Scanned(cost, u, v, p[column0], column0, used[column0 := true], minValues, way, minValues1, way1)
    ensures Tree(cost, u, v, p, way1, used[column0 := true], rank, column0)
  {
  }

  /** Every price of the tree moves by the least frontier slack, so nothing is undercut; the new
      row `top` becomes feasible even when the move is a decrease. */
  lemma FeasibilityKept(cost: Matrix, u: seq<real>, v: seq<real>, p: seq<nat>, way: seq<nat>, used: seq<bool>,
                        minValues: seq<Bound>, u1: seq<real>, v1: seq<real>, at: seq<nat>, top: nat, delta: real)
    requires Shapes(cost, u, v, p) && Shapes(cost, u1, v1, p) && 1 <= top <= |cost|
    requires Inverse(p, at, -1, top) && p[0] == top
    requires Frontier(cost, u, v, p, way, used, minValues)
    requires Moved(u, v, u1, v1, used, at, top, delta)
    requires used[0]
    requires forall j: nat | 1 <= j < |p| && !used[j] :: minValues[j].Finite? && delta <= minValues[j].value
    requires FeasibleUpTo(cost, u, v, top - 1)
    requires (delta >= 0.0 && FeasibleUpTo(cost, u, v, top)) || forall j: nat | 1 <= j < |p| :: !used[j]
    ensures FeasibleUpTo(cost, u1, v1, top)
  {
    forall r: nat, j: nat | 1 <= r <= top && r <= |cost| && 1 <= j <= Columns(cost)
      ensures Slack(cost, u1, v1, r, j) >= 0.0
    {
      if used[at[r]] && !used[j] {
        assert p[at[r]] == r;
        assert minValues[j].value <= Slack(cost, u, v, p[at[r]], j);
      } else {
        assert at[p[0]] == 0;
        assert Slack(cost, u, v, r, j) >= 0.0;
      }
    }
  }

  lemma PricingKept(cost: Matrix, u: seq<real>, v: seq<real>, p: seq<nat>, used: seq<bool>,
                    u1: seq<real>, v1: seq<real>, at: seq<nat>, top: nat, delta: real)
    requires Shapes(cost, u, v, p) && Shapes(cost, u1, v1, p) && 1 <= top <= |cost|
    requires Inverse(p, at, -1, top)
    requires Moved(u, v, u1, v1, used, at, top, delta)
    requires Priced(cost, u, v, p)
    requires forall j: nat | j < |p| && used[j] :: p[j] != 0
    requires delta >= 0.0 || forall j: nat | 1 <= j < |p| :: !used[j]
    ensures Priced(cost, u1, v1, p)
  {
    forall j: nat | 1 <= j < |p| && 1 <= p[j] <= |cost| ensures Slack(cost, u1, v1, p[j], j) == 0.0 {
      assert at[p[j]] == j;
      assert Slack(cost, u, v, p[j], j) == 0.0;
    }
  }

  /** Tight tree edges stay tight, and the frontier column of least slack becomes tight. */
  lemma TreeGrows(cost: Matrix, u: seq<real>, v: seq<real>, p: seq<nat>, way: seq<nat>, used: seq<bool>,
                  rank: seq<nat>, minValues: seq<Bound>, u1: seq<real>, v1: seq<real>,
                  at: seq<nat>, top: nat, delta: real, column0: nat, column1: nat, tick: nat)
    requires Shapes(cost, u, v, p) && Shapes(cost, u1, v1, p) && 1 <= top <= |cost|
    requires Inverse(p, at, -1, top)
    requires Moved(u, v, u1, v1, used, at, top, delta)
    requires Tree(cost, u, v, p, way, used, rank, column0) && column0 < |p| && used[column0]
    requires Frontier(cost, u, v, p, way, used, minValues)
    requires 1 <= column1 < |p| && !used[column1] && minValues[column1] == Finite(delta)
    requires forall j: nat | j < |p| && used[j] :: rank[j] < tick
    ensures Tree(cost, u1, v1, p, way, used, rank[column1 := tick], column1)
  {
    forall j: nat | 1 <= j < |p| && (used[j] || j == column1)
      ensures way[j] < |p| && used[way[j]] && 1 <= p[way[j]] <= |cost|
      ensures Slack(cost, u1, v1, p[way[j]], j) == 0.0
    {
      assert at[p[way[j]]] == way[j];
    }
  }

  lemma FrontierKept(cost: Matrix, u: seq<real>, v: seq<real>, p: seq<nat>, way: seq<nat>, used: seq<bool>,
                     minValues: seq<Bound>, u1: seq<real>, v1: seq<real>, minValues1: seq<Bound>,
                     at: seq<nat>, top: nat, delta: real)
    requires Shapes(cost, u, v, p) && Shapes(cost, u1, v1, p) && 1 <= top <= |cost|
    requires Inverse(p, at, -1, top)
    requires Moved(u, v, u1, v1, used, at, top, delta)
    requires Frontier(cost, u, v, p, way, used, minValues)
    requires Lowered(used, minValues, minValues1, delta)
    ensures Frontier(cost, u1, v1, p, way, used, minValues1)
  {
    forall j: nat, s: nat | 1 <= j < |p| && !used[j] && s < |p| && used[s] && 1 <= p[s] <= |cost|
      ensures minValues1[j].Finite? && minValues1[j].value <= Slack(cost, u1, v1, p[s], j)
    {
      assert at[p[s]] == s;
      assert minValues[j].value <= Slack(cost, u, v, p[s], j);
    }
    forall j: nat | 1 <= j < |p| && !used[j] && minValues1[j].Finite?
      ensures minValues1[j].value == Slack(cost, u1, v1, p[way[j]], j)
    {
      assert at[p[way[j]]] == way[j];
    }
  }

  /** Once the current row is feasible, the least frontier slack is not negative. */
  lemma NonNegativeStep(cost: Matrix, u: seq<real>, v: seq<real>, p: seq<nat>, way: seq<nat>, used: seq<bool>,
                        minValues: seq<Bound>, top: nat, column1: nat)
    requires Shapes(cost, u, v, p) && 1 <= top <= |cost|
    requires Frontier(cost, u, v, p, way, used, minValues)
    requires 1 <= column1 < |p| && !used[column1] && minValues[column1].Finite?
    requires forall j: nat | j < |p| :: p[j] <= top
    ensures FeasibleUpTo(cost, u, v, top) ==> minValues[column1].value >= 0.0
  {
  }

  // ---------------------------------------------------------------- an unreached column exists

  ghost function Below(k: nat): (s: set<nat>)
    ensures forall j: nat :: j in s <==> j < k
    ensures |s| == k
  {
    if k == 0 then {} else Below(k - 1) + {k - 1}
  }

  lemma {:induction false} ImageBound(at: seq<nat>, top: nat)
    requires top < |at|
    ensures |set r: nat | 1 <= r <= top :: at[r]| <= top
  {
    if top > 0 {
      ImageBound(at, top - 1);
      assert (set r: nat | 1 <= r <= top :: at[r]) == (set r: nat | 1 <= r <= top - 1 :: at[r]) + {at[top]};
    }
  }

  lemma MatchedColumnsAreFew(p: seq<nat>, at: seq<nat>, top: nat)
    requires Inverse(p, at, -1, top)
    requires forall j: nat | j < |p| :: p[j] != 0
    ensures |p| <= top
  {
    var image := set r: nat | 1 <= r <= top :: at[r];
    ImageBound(at, top);
    forall j: nat | j < |p| ensures j in image {
      assert at[p[j]] == j;
    }
    assert Below(|p|) == image;
  }

  /** What the search loop for row `row` keeps: the matching of the earlier rows priced exactly, the
      tree of tight edges with its tip, and the frontier slacks. */
  ghost predicate Searching(cost: Matrix, u: seq<real>, v: seq<real>, p: seq<nat>, way: seq<nat>, used: seq<bool>,
                            minValues: seq<Bound>, at: seq<nat>, row: nat, rank: seq<nat>, tick: nat, column0: nat)
  {
    && Shapes(cost, u, v, p)
    && 1 <= row <= |cost| <= Columns(cost)
    && |at| == |u|
    && p[0] == row && Inverse(p, at, -1, row)
    && column0 < |p| == |used| && !used[column0]
    && Tree(cost, u, v, p, way, used, rank, column0)
    && Frontier(cost, u, v, p, way, used, minValues)
    && Priced(cost, u, v, p)
    && FeasibleUpTo(cost, u, v, row - 1)
    && (if column0 == 0 then forall j: nat | j < |p| :: !used[j] else used[0] && FeasibleUpTo(cost, u, v, row))
    && (forall j: nat | j < |p| && (used[j] || j == column0) :: rank[j] < tick)
  }

  /** There are more columns than rows in the tree, so a column is unreached and `delta` is finite. */
  lemma UnreachedColumn(cost: Matrix, u: seq<real>, v: seq<real>, p: seq<nat>, way: seq<nat>, used: seq<bool>,
                        minValues: seq<Bound>, at: seq<nat>, row: nat, rank: seq<nat>, tick: nat, column0: nat)
    returns (free: nat)
    requires Searching(cost, u, v, p, way, used, minValues, at, row, rank, tick, column0)
    requires p[column0] != 0
    ensures 1 <= free < |p| && !used[column0 := true][free]
    ensures 1 <= p[column0] <= |cost| && |rank| == |p|
    ensures forall j | 0 <= j < |p| && used[column0 := true][j] :: p[j] != 0
  {
    var used1 := used[column0 := true];
    if forall j: nat | j < |p| :: used1[j] {
      assert forall j | 0 <= j < |p| :: used1[j] ==> p[j] != 0;
      MatchedColumnsAreFew(p, at, row);
      assert false;
    }
    free :| 0 <= free < |p| && !used1[free];
  }

  lemma RoundKeeps(cost: Matrix, u: seq<real>, v: seq<real>, p: seq<nat>, way: seq<nat>, used: seq<bool>,
                   minValues: seq<Bound>, at: seq<nat>, row: nat, rank: seq<nat>, tick: nat, column0: nat,
                   way1: seq<nat>, minValues1: seq<Bound>, delta: Bound, column1: nat,
                   u1: seq<real>, v1: seq<real>, minValues2: seq<Bound>)
    requires Searching(cost, u, v, p, way, used, minValues, at, row, rank, tick, column0)
    requires p[column0] != 0
    requires Scanned(cost, u, v, p[column0], column0, used[column0 := true], minValues, way, minValues1, way1)
    requires Nearest(used[column0 := true], minValues1, delta, column1)
    requires Moved(u, v, u1, v1, used[column0 := true], at, row, delta.value)
    requires Lowered(used[column0 := true], minValues1, minValues2, delta.value)
    ensures Searching(cost, u1, v1, p, way1, used[column0 := true], minValues2, at, row,
                      rank[column1 := tick], tick + 1, column1)
  {
    var used1 := used[column0 := true];
    AdmitColumn(cost, u, v, p, way, used, minValues, column0, way1, minValues1);
    TreeKeepsParents(cost, u, v, p, way, used, rank, column0, minValues, minValues1, way1);
    NonNegativeStep(cost, u, v, p, way1, used1, minValues1, row, column1);
    FeasibilityKept(cost, u, v, p, way1, used1, minValues1, u1, v1, at, row, delta.value);
    PricingKept(cost, u, v, p, used1, u1, v1, at, row, delta.value);
    TreeGrows(cost, u, v, p, way1, used1, rank, minValues1, u1, v1, at, row, delta.value, column0, column1, tick);
    FrontierKept(cost, u, v, p, way1, used1, minValues1, u1, v1, minValues2, at, row, delta.value);
  }

  /** One round of the search loop. */
  method GrowOnce(cost: Matrix, row: nat, column0: nat, u: array<real>, v: array<real>, minValues: array<Bound>,
                  p: array<nat>, way: array<nat>, used: array<bool>,
                  ghost at: seq<nat>, ghost rank: seq<nat>, ghost tick: nat)
    returns (column1: nat, ghost rank1: seq<nat>, ghost tick1: nat)
    requires v.Length == minValues.Length == p.Length == way.Length == used.Length
    requires u != v && p != way
    requires Searching(cost, u[..], v[..], p[..], way[..], used[..], minValues[..], at, row, rank, tick, column0)
    requires p[column0] != 0
    modifies u, v, minValues, way, used
    ensures used[..] == old(used[..])[column0 := true]
    ensures column1 != 0
    ensures Searching(cost, u[..], v[..], p[..], way[..], used[..], minValues[..], at, row, rank1, tick1, column1)
  {
    hide Tree, Frontier, Priced, FeasibleUpTo, Inverse, Scanned, Moved, Lowered;
    ghost var u0, v0, way0, used0, minValues0 := u[..], v[..], way[..], used[..], minValues[..];
    ghost var free := UnreachedColumn(cost, u0, v0, p[..], way0, used0, minValues0, at, row, rank, tick, column0);
    used[column0] := true;
    assert used[..] == used0[column0 := true];
    var delta;
    delta, column1 := ScanColumns(cost, p[column0], column0, u, v, minValues, way, used, free);
    ghost var minValues1 := minValues[..];
    AdjustPrices(u, v, minValues, p, used, delta.value, at, row);
    RoundKeeps(cost, u0, v0, p[..], way0, used0, minValues0, at, row, rank, tick, column0,
               way[..], minValues1, delta, column1, u[..], v[..], minValues[..]);
    rank1, tick1 := rank[column1 := tick], tick + 1;
  }

  lemma SearchStarts(cost: Matrix, u: seq<real>, v: seq<real>, p: seq<nat>, way: seq<nat>, used: seq<bool>,
                     minValues: seq<Bound>, at: seq<nat>, row: nat, rank: seq<nat>)
    requires Shapes(cost, u, v, p) && 1 <= row <= |cost| <= Columns(cost) && |at| == |u|
    requires |way| == |used| == |minValues| == |rank| == |p|
    requires p[0] == row && Inverse(p, at, -1, row)
    requires Priced(cost, u, v, p) && FeasibleUpTo(cost, u, v, row - 1)
    requires forall j: nat | j < |p| :: !used[j] && minValues[j] == Infinite && rank[j] == 0
    ensures Searching(cost, u, v, p, way, used, minValues, at, row, rank, 1, 0)
  {
  }

  /** The search loop for one row: grows the tree until its tip is a free column. */
  method GrowTree(cost: Matrix, row: nat, u: array<real>, v: array<real>, p: array<nat>, way: array<nat>,
                  ghost at: seq<nat>)
    returns (column0: nat, ghost used1: seq<bool>, ghost minValues1: seq<Bound>, ghost rank: seq<nat>, ghost tick: nat)
    requires Rectangular(cost) && 1 <= row <= |cost| <= Columns(cost)
    requires u.Length == |cost| + 1 && |at| == u.Length
    requires v.Length == p.Length == way.Length == Columns(cost) + 1
    requires u != v && p != way
    requires p[0] == row && Inverse(p[..], at, -1, row)
    requires Priced(cost, u[..], v[..], p[..])
    requires FeasibleUpTo(cost, u[..], v[..], row - 1)
    modifies u, v, way
    ensures Searching(cost, u[..], v[..], p[..], way[..], used1, minValues1, at, row, rank, tick, column0)
    ensures 1 <= column0 < p.Length && p[column0] == 0
  {
    hide Tree, Frontier, Priced, FeasibleUpTo, Inverse;
    column0 := 0;
    rank := seq(p.Length, _ => 0);
    tick := 1;
    var minValues := new Bound[p.Length](_ => Infinite);
    var used := new bool[p.Length](_ => false);
    SearchStarts(cost, u[..], v[..], p[..], way[..], used[..], minValues[..], at, row, rank);
    ghost var unreached := Below(p.Length);
    while true
      invariant p[..] == old(p[..]) && column0 < p.Length && p[column0] != 0
      invariant Searching(cost, u[..], v[..], p[..], way[..], used[..], minValues[..], at, row, rank, tick, column0)
      invariant forall j | 0 <= j < p.Length && !used[j] :: j in unreached
      decreases unreached
    {
      unreached := unreached - {column0};
      column0, rank, tick := GrowOnce(cost, row, column0, u, v, minValues, p, way, used, at, rank, tick);
      if p[column0] == 0 {
        break;
      }
    }
    used1, minValues1 := used[..], minValues[..];
  }

  // ---------------------------------------------------------------- the augmenting walk

  /** What the walk keeps: leaving out the hole, `p` still matches every row once; and every column
      at or below the hole in the tree still holds the row it held when the walk began. */
  ghost predicate Walking(cost: Matrix, u: seq<real>, v: seq<real>, p0: seq<nat>, p: seq<nat>, used: seq<bool>,
                          at: seq<nat>, row: nat, rank: seq<nat>, tip: nat, hole: nat)
  {
    && Shapes(cost, u, v, p) && |p0| == |p| == |used| == |rank|
    && row <= |cost| && hole < |p| && (hole == tip || used[hole])
    && p[0] == p0[0] == row
    && Inverse(p, at, hole, row)
    && Priced(cost, u, v, p)
    && (forall j: nat | j < |p| && used[j] && rank[j] <= rank[hole] :: p[j] == p0[j])
  }

  lemma WalkKeeps(cost: Matrix, u: seq<real>, v: seq<real>, p0: seq<nat>, p: seq<nat>, way: seq<nat>, used: seq<bool>,
                  at: seq<nat>, row: nat, rank: seq<nat>, tip: nat, hole: nat)
    requires Walking(cost, u, v, p0, p, used, at, row, rank, tip, hole)
    requires Tree(cost, u, v, p0, way, used, rank, tip)
    requires hole != 0
    ensures way[hole] < |p| && rank[way[hole]] < rank[hole] && p[way[hole]] < |at|
    ensures Walking(cost, u, v, p0, p[hole := p[way[hole]]], used, at[p[way[hole]] := hole], row, rank, tip, way[hole])
  {
    var next := way[hole];
    assert p[next] == p0[next];
    assert Slack(cost, u, v, p0[next], hole) == 0.0;
    var p1, at1 := p[hole := p[next]], at[p[next] := hole];
    forall r | 1 <= r <= row ensures at1[r] < |p1| && at1[r] != next && p1[at1[r]] == r {
      if r != p[next] {
        assert at[r] != hole;
      }
    }
    forall j | 0 <= j < |p1| && j != next && p1[j] != 0 ensures 1 <= p1[j] <= row && at1[p1[j]] == j {
      if j != hole {
        assert at[p[j]] == j;
        assert at[p[next]] == next;
      }
    }
  }

  /** Second loop of a row: shifts the matching along the tree path back to column 0. */
  method Augment(cost: Matrix, row: nat, tip: nat, p: array<nat>, way: array<nat>,
                 ghost u: seq<real>, ghost v: seq<real>, ghost used: seq<bool>, ghost minValues: seq<Bound>,
                 ghost at: seq<nat>, ghost rank: seq<nat>, ghost tick: nat)
    returns (ghost at1: seq<nat>)
    requires p != way
    requires Searching(cost, u, v, p[..], way[..], used, minValues, at, row, rank, tick, tip)
    requires tip != 0 && p[tip] == 0
    modifies p
    ensures |at1| == |at| && Inverse(p[..], at1, 0, row)
    ensures Shapes(cost, u, v, p[..]) && Priced(cost, u, v, p[..])
  {
    ghost var p0 := p[..];
    at1 := at;
    var column0 := tip;
    while true
      invariant column0 != 0 && |at1| == |at|
      invariant Walking(cost, u, v, p0, p[..], used, at1, row, rank, tip, column0)
      decreases rank[column0]
    {
      WalkKeeps(cost, u, v, p0, p[..], way[..], used, at1, row, rank, tip, column0);
      var column1 := way[column0];
      at1 := at1[p[column1] := column0];
      ghost var before := p[..];
      p[column0] := p[column1];
      assert p[..] == before[column0 := before[column1]];
      column0 := column1;
      if column0 == 0 {
        break;
      }
    }
  }

  // ---------------------------------------------------------------- the algorithm

  datatype AssignmentError = EmptyOrTooManyRows

  /** What holds between two rows: the first `row` rows are matched and certified. */
  ghost predicate Certified(cost: Matrix, u: seq<real>, v: seq<real>, p: seq<nat>, at: seq<nat>, row: nat) {
    && Shapes(cost, u, v, p)
    && row <= |cost| && |at| == |u|
    && Inverse(p, at, 0, row)
    && Priced(cost, u, v, p)
    && FeasibleUpTo(cost, u, v, row)
  }

  /** Reading the matching off `p` gives an assignment with a dual certificate. */
  lemma MatchingIsCertified(cost: Matrix, u: seq<real>, v: seq<real>, p: seq<nat>, at: seq<nat>, a: seq<int>)
    requires 0 < |cost| <= Columns(cost)
    requires Certified(cost, u, v, p, at, |cost|)
    requires |a| == |cost| && forall i | 0 <= i < |a| :: a[i] == at[i + 1] - 1
    ensures IsAssignment(a, |cost|, Columns(cost))
    ensures DualCertificate(cost, u[1..], v[1..], a)
  {
    forall i | 0 <= i < |a| ensures 0 <= a[i] < Columns(cost) && u[1..][i] + v[1..][a[i]] == cost[i][a[i]] {
      assert p[at[i + 1]] == i + 1;
      assert Slack(cost, u, v, p[at[i + 1]], at[i + 1]) == 0.0;
    }
    forall i, j | 0 <= i < j < |a| ensures a[i] != a[j] {
      assert p[at[i + 1]] == i + 1 && p[at[j + 1]] == j + 1;
    }
    forall i, j | 0 <= i < |cost| && 0 <= j < |cost[i]| && j < |v[1..]| ensures u[1..][i] + v[1..][j] <= cost[i][j] {
      assert Slack(cost, u, v, i + 1, j + 1) >= 0.0;
    }
    forall j: nat | j < |v[1..]| && p[j + 1] != 0 ensures j in a {
      assert at[p[j + 1]] == j + 1;
      assert a[p[j + 1] - 1] == j;
    }
  }

  /** The last loop: turns the matching of columns into the column of every row. */
  method ReadAssignment(rowCount: nat, p: array<nat>, ghost at: seq<nat>) returns (a: seq<int>)
    requires 1 <= p.Length && |at| == rowCount + 1 && Inverse(p[..], at, 0, rowCount)
    ensures |a| == rowCount && forall i | 0 <= i < rowCount :: a[i] == at[i + 1] - 1
  {
    ghost var matching := p[..];
    assert forall r | 1 <= r <= rowCount :: matching[at[r]] == r;
    var assignment := new int[rowCount](_ => -1);
    for column := 1 to p.Length
      invariant p[..] == matching
      invariant forall r: nat | 1 <= r <= rowCount :: assignment[r - 1] == if at[r] < column then at[r] - 1 else -1
    {
      if p[column] != 0 {
        assert at[matching[column]] == column;
        assignment[p[column] - 1] := column - 1;
      }
    }
    a := assignment[..];
  }

  /** Fails exactly on an empty matrix or one with more rows than columns; otherwise returns an
      assignment that no other assignment undercuts. */
  method Hungarian(cost: Matrix) returns (r: Result<seq<int>, AssignmentError>)
    requires Rectangular(cost)
    ensures r.Failure? <==> |cost| == 0 || |cost| > Columns(cost)
    ensures r.Success? ==> IsAssignment(r.value, |cost|, Columns(cost))
    ensures r.Success? ==> exists u, v :: DualCertificate(cost, u, v, r.value)
    ensures r.Success? ==> Cheapest(cost, r.value)
  {
    var rowCount := |cost|;
    var columnCount := if rowCount == 0 then 0 else |cost[0]|;
    if rowCount == 0 || rowCount > columnCount {
      return Failure(EmptyOrTooManyRows);
    }
    var u, v := new real[rowCount + 1](_ => 0.0), new real[columnCount + 1](_ => 0.0);
    var p, way := new nat[columnCount + 1](_ => 0), new nat[columnCount + 1](_ => 0);
    ghost var at: seq<nat> := seq(rowCount + 1, _ => 0);
    for row := 1 to rowCount + 1
      invariant Certified(cost, u[..], v[..], p[..], at, row - 1)
    {
      at := InsertRow(cost, row, u, v, p, way, at);
    }
    var a := ReadAssignment(rowCount, p, at);
    MatchingIsCertified(cost, u[..], v[..], p[..], at, a);
    CertificateIsOptimal(cost, u[1..], v[1..], a);
    return Success(a);
  }

  /** The body of the outer loop: matches one more row, keeping the certificate. */
  method InsertRow(cost: Matrix, row: nat, u: array<real>, v: array<real>, p: array<nat>, way: array<nat>,
                   ghost at: seq<nat>)
    returns (ghost at1: seq<nat>)
    requires 1 <= row <= |cost| <= Columns(cost)
    requires way.Length == p.Length && u != v && p != way
    requires Certified(cost, u[..], v[..], p[..], at, row - 1)
    modifies u, v, p, way
    ensures Certified(cost, u[..], v[..], p[..], at1, row)
  {
    p[0] := row;
    ghost var at0 := at[row := 0];
    assert Inverse(p[..], at0, -1, row);
    var column0;
    ghost var used, minValues, rank, tick;
    column0, used, minValues, rank, tick := GrowTree(cost, row, u, v, p, way, at0);
    at1 := Augment(cost, row, column0, p, way, u[..], v[..], used, minValues, at0, rank, tick);
  }
}
