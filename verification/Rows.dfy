/** Rows of equal width in a flat table. */
module Rows {

  /** Start of row i: i * width, without a product. */
  function Row(i: nat, width: nat): nat {
    if i == 0 then 0 else Row(i - 1, width) + width
  }

  lemma {:induction false} RowsAscend(i: nat, j: nat, width: nat)
    requires i <= j
    ensures Row(i, width) <= Row(j, width)
    decreases j - i
  {
    if i < j { RowsAscend(i, j - 1, width); }
  }

  lemma {:induction false} RowIsProduct(i: nat, width: nat)
    ensures Row(i, width) == i * width
  {
    if i > 0 { RowIsProduct(i - 1, width); }
  }

  lemma RowNext(i: nat, n: nat, width: nat)
    requires i < n
    ensures Row(i + 1, width) == Row(i, width) + width <= Row(n, width)
  {
    RowsAscend(i + 1, n, width);
  }

  lemma RowStart(width: nat)
    ensures Row(0, width) == 0
  {
  }

  lemma {:induction false} RowSum(i: nat, j: nat, width: nat)
    ensures Row(i + j, width) == Row(i, width) + Row(j, width)
  {
    if j > 0 { RowSum(i, j - 1, width); }
  }

  /** Row i of a flat table of reals, empty if the table is too short. */
  function Sub(table: seq<real>, i: nat, width: nat): (r: seq<real>)
    ensures Row(i, width) + width <= |table| ==> |r| == width
  {
    if Row(i, width) + width <= |table| then table[Row(i, width)..Row(i, width) + width] else []
  }

  ghost predicate At(s: seq<real>, i: int, x: real) {
    0 <= i < |s| && s[i] == x
  }

  /** Entry t of row i lies at i * width + t. */
  lemma SubAt(table: seq<real>, i: nat, width: nat, t: nat)
    requires Row(i, width) + width <= |table| && t < width
    ensures |Sub(table, i, width)| == width && At(table, i * width + t, Sub(table, i, width)[t])
  {
    RowIsProduct(i, width);
  }
}
