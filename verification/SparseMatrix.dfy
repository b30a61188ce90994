/** The sparse matrix of the covering problem and a partial solution. */
module SparseMatrix {
  import opened Counting
  import opened Covering

  /** A matrix holds its non-empty rows; a column is there as long as some row
      holds it.  The sizes are those of the header arrays. */
  class Matrix {
    var rows: Rows
    const rowsSize: nat
    const colsSize: nat

    ghost predicate Valid()
      reads this
    {
      && ValidRows(rows, colsSize)
      && forall i :: i in rows ==> i < rowsSize
    }

    constructor (rows: Rows, rowsSize: nat, colsSize: nat)
      ensures this.rows == rows && this.rowsSize == rowsSize && this.colsSize == colsSize
    {
      this.rows, this.rowsSize, this.colsSize := rows, rowsSize, colsSize;
    }

    /** Delete row i; nothing happens if there is none. */
    method DelRow(i: nat)
      requires Valid()
      modifies this
      ensures Valid() && rows == old(rows) - {i}
    {
      rows := rows - {i};
    }

    /** Delete column c; a row left without elements disappears. */
    method DelCol(c: nat)
      requires Valid()
      modifies this
      ensures Valid() && rows == WithoutCol(old(rows), c)
    {
      rows := map i | i in rows && rows[i] - {c} != {} :: rows[i] - {c};
    }

    /** A column of row i with the fewest rows. */
    method LeastColumn(i: nat) returns (least: nat)
      requires Valid() && i in rows
      ensures least in rows[i]
      ensures forall c :: c in rows[i] ==> |ColRows(rows, least)| <= |ColRows(rows, c)|
    {
      ghost var some := Member(rows[i]);
      var found := false;
      least := 0;
      var c := 0;
      while c < colsSize
        invariant 0 <= c <= colsSize
        invariant found ==> least in rows[i]
        invariant !found ==> forall d :: d in rows[i] ==> d >= c
        invariant found ==> forall d :: d in rows[i] && d < c ==> |ColRows(rows, least)| <= |ColRows(rows, d)|
      {
        if c in rows[i] && (!found || |ColRows(rows, c)| < |ColRows(rows, least)|) {
          found, least := true, c;
        }
        c := c + 1;
      }
    }

    /** A row of column c with the fewest columns. */
    method LeastRow(c: nat) returns (least: nat)
      requires Valid() && ColRows(rows, c) != {}
      ensures least in rows && c in rows[least]
      ensures forall i :: i in ColRows(rows, c) ==> |rows[least]| <= |rows[i]|
    {
      ghost var some := Member(ColRows(rows, c));
      var found := false;
      least := 0;
      var i := 0;
      while i < rowsSize
        invariant 0 <= i <= rowsSize
        invariant found ==> least in ColRows(rows, c)
        invariant !found ==> forall d :: d in ColRows(rows, c) ==> d >= i
        invariant found ==> forall d :: d in ColRows(rows, c) && d < i ==> |rows[least]| <= |rows[d]|
      {
        if i in rows && c in rows[i] && (!found || |rows[i]| < |rows[least]|) {
          found, least := true, i;
        }
        i := i + 1;
      }
    }
  }

  /** The columns selected so far and what they weigh. */
  class Solution {
    var row: set<nat>
    var cost: int

    constructor (row: set<nat>, cost: int)
      ensures this.row == row && this.cost == cost
    {
      this.row, this.cost := row, cost;
    }

    /** Select column c. */
    method Add(weight: Weights, c: nat)
      modifies this
      ensures row == old(row) + {c} && cost == old(cost) + WeightOf(weight, c)
    {
      row := row + {c};
      cost := cost + WeightOf(weight, c);
    }

    /** Select column c of the matrix and delete the rows it covers. */
    method Accept(A: Matrix, weight: Weights, c: nat)
      requires A.Valid()
      modifies this, A
      ensures row == old(row) + {c} && cost == old(cost) + WeightOf(weight, c)
      ensures A.Valid() && A.rows == Uncovered(old(A.rows), c)
    {
      Add(weight, c);
      ghost var rows0 := A.rows;
      var i := 0;
      while i < A.rowsSize
        invariant 0 <= i <= A.rowsSize && A.Valid()
        invariant row == old(row) + {c} && cost == old(cost) + WeightOf(weight, c)
        invariant A.rows == map k | k in rows0 && (k < i ==> c !in rows0[k]) :: rows0[k]
      {
        if i in A.rows && c in A.rows[i] {
          A.DelRow(i);
        }
        i := i + 1;
      }
    }
  }
}
