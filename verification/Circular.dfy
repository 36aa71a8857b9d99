/** Index arithmetic of a circular store. */
module Circular {

  /** The cell that holds the i-th byte ever written to a store of n cells. */
  function Cell(i: nat, n: nat): (c: nat)
    requires 0 < n
    ensures c < n
    decreases i
  {
    if i < n then i else Cell(i - n, n)
  }

  /** The index arithmetic of the buffer: add, and subtract the length when past the end. */
  function Advance(index: int, count: int, n: int): int {
    if index + count >= n then index + count - n else index + count
  }

  lemma {:induction false} CellAdvance(i: nat, d: nat, n: nat)
    requires 0 < n && d <= n
    ensures Cell(i + d, n) == Advance(Cell(i, n), d, n)
    decreases i
  {
    if i >= n { CellAdvance(i - n, d, n); }
  }

  lemma CellsDiffer(i: nat, j: nat, n: nat)
    requires 0 < n && i < j < i + n
    ensures Cell(i, n) != Cell(j, n)
  {
    CellAdvance(i, j - i, n);
  }
}
