/** Cost and travel-time tables, indexed by row and then by column. */
module Matrices {

  type Matrix = seq<seq<real>>

  /** Every row is as long as the first one. */
  predicate Rectangular(cost: Matrix) {
    forall i | 0 <= i < |cost| :: |cost[i]| == |cost[0]|
  }

  function Columns(cost: Matrix): nat {
    if |cost| == 0 then 0 else |cost[0]|
  }

  /** As many columns as rows. */
  predicate Square(matrix: Matrix) {
    forall i | 0 <= i < |matrix| :: |matrix[i]| == |matrix|
  }
}
