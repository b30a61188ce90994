/** Row and column dominance and the essential columns: the reductions applied
    to the matrix before any search. */
module Dominance {
  import opened Counting
  import opened Cores
  import opened Covering
  import opened SparseMatrix
  import opened Stars

  /** Row k is at least as long as row i; equal rows are told apart by number. */
  predicate Later(rows: Rows, i: nat, k: nat)
    requires i in rows && k in rows
  {
    |rows[k]| > |rows[i]| || (|rows[k]| == |rows[i]| && k > i)
  }

  ghost predicate RowClear(rows: Rows, i: nat, below: nat) {
    forall k :: i in rows && k in rows && k < below && Later(rows, i, k) ==> !(rows[i] <= rows[k])
  }

  /** No row contains another row. */
  ghost predicate NoRowDominated(rows: Rows) {
    forall i, k :: i in rows && k in rows && i != k ==> !(rows[i] <= rows[k])
  }

  lemma ClearRows(rows: Rows, n: nat)
    requires forall i :: i in rows ==> i < n && RowClear(rows, i, n)
    ensures NoRowDominated(rows)
  {
    forall i, k | i in rows && k in rows && i != k
      ensures !(rows[i] <= rows[k])
    {
      assert RowClear(rows, i, n) && RowClear(rows, k, n);
      if rows[i] <= rows[k] {
        SubsetCard(rows[i], rows[k]);
      }
    }
  }

  /** Delete every row that contains another row.  If none was deleted there
      was none to delete. */
  method RowDominance(A: Matrix, weight: Weights) returns (deleted: nat)
    requires A.Valid()
    modifies A
    ensures A.Valid() && SomeRows(old(A.rows), A.rows) && Floor(old(A.rows), A.rows)
    ensures Reduces(weight, A.colsSize, old(A.rows), {}, A.rows)
    ensures deleted == |old(A.rows)| - |A.rows|
    ensures deleted == 0 ==> A.rows == old(A.rows) && NoRowDominated(A.rows)
  {
    hide Reduces, RowClear, NoRowDominated, ValidRows, Floor;
    ghost var rows0 := A.rows;
    var rowcnt := |A.rows|;
    ReducesSelf(weight, A.colsSize, rows0);
    FloorSelf(rows0);
    var i := 0;
    while i < A.rowsSize
      invariant 0 <= i <= A.rowsSize && A.Valid()
      invariant SomeRows(rows0, A.rows) && Floor(rows0, A.rows)
      invariant Reduces(weight, A.colsSize, rows0, {}, A.rows)
      invariant A.rows == rows0 ==> forall j :: j in rows0 && j < i ==> RowClear(rows0, j, A.rowsSize)
    {
      if i in A.rows {
        RowSweep(A, weight, i, rows0);
      }
      i := i + 1;
    }
    SomeRowsCard(rows0, A.rows);
    deleted := rowcnt - |A.rows|;
    if A.rows == rows0 {
      ClearRowsOf(A);
    }
  }

  /** Delete the rows that contain row i, looking only at those that share its
      least column. */
  method RowSweep(A: Matrix, weight: Weights, i: nat, ghost rows0: Rows)
    requires A.Valid() && i in A.rows
    requires SomeRows(rows0, A.rows) && Reduces(weight, A.colsSize, rows0, {}, A.rows) && Floor(rows0, A.rows)
    modifies A
    ensures A.Valid() && SomeRows(rows0, A.rows) && SomeRows(old(A.rows), A.rows) && Floor(rows0, A.rows)
    ensures Reduces(weight, A.colsSize, rows0, {}, A.rows)
    ensures A.rows == old(A.rows) ==> RowClear(A.rows, i, A.rowsSize)
  {
    hide Reduces, ValidRows, Floor;
    ghost var rows1 := A.rows;
    var least := A.LeastColumn(i);
    var k := 0;
    while k < A.rowsSize
      invariant 0 <= k <= A.rowsSize && A.Valid()
      invariant SomeRows(rows0, A.rows) && SomeRows(rows1, A.rows) && Floor(rows0, A.rows)
      invariant i in A.rows
      invariant Reduces(weight, A.colsSize, rows0, {}, A.rows)
      invariant A.rows == rows1 ==> RowClear(rows1, i, k)
    {
      if k in A.rows && least in A.rows[k] && Later(A.rows, i, k) && A.rows[i] <= A.rows[k] {
        RowDominated(weight, A.colsSize, A.rows, i, k);
        FloorDelete(A.rows, i, k);
        FloorTrans(rows0, A.rows, A.rows - {k});
        ReducesOn(weight, A.colsSize, rows0, A.rows, A.rows - {k});
        A.DelRow(k);
      }
      k := k + 1;
    }
  }

  lemma ClearRowsOf(A: Matrix)
    requires A.Valid()
    requires forall j :: j in A.rows && j < A.rowsSize ==> RowClear(A.rows, j, A.rowsSize)
    ensures NoRowDominated(A.rows)
  {
    ClearRows(A.rows, A.rowsSize);
  }

  /** The column q is in all rows of p, weighs no more, and is longer or later. */
  predicate ColDominates(rows: Rows, weight: Weights, p: nat, q: nat) {
    && (weight == Unit || WeightOf(weight, q) <= WeightOf(weight, p))
    && (|ColRows(rows, q)| > |ColRows(rows, p)| || (|ColRows(rows, q)| == |ColRows(rows, p)| && q > p))
    && ColRows(rows, p) <= ColRows(rows, q)
  }

  /** No column dominates p. */
  ghost predicate ColClear(rows: Rows, weight: Weights, p: nat) {
    ColRows(rows, p) != {} ==> forall q :: !ColDominates(rows, weight, p, q)
  }

  /** No column that occurs is dominated. */
  ghost predicate ColsClear(rows: Rows, weight: Weights) {
    forall p :: p in Cols(rows) ==> ColClear(rows, weight, p)
  }

  lemma ColClearNow(rows: Rows, weight: Weights, p: nat, least: nat)
    requires least in rows && p in rows[least]
    requires forall q :: q in rows[least] ==> !ColDominates(rows, weight, p, q)
    ensures ColClear(rows, weight, p)
  {
    assert least in ColRows(rows, p);
    forall q
      ensures ColRows(rows, p) <= ColRows(rows, q) ==> q in rows[least]
    {
      assert least in ColRows(rows, q) ==> q in rows[least];
    }
  }

  lemma ColsClearNow(rows: Rows, weight: Weights, n: nat)
    requires ValidRows(rows, n) && forall p :: 0 <= p < n ==> ColClear(rows, weight, p)
    ensures ColsClear(rows, weight)
  {
    hide ColClear;
  }

  /** Without weights that means that no column has its rows among those of
      another. */
  lemma UnitClear(rows: Rows)
    requires ColsClear(rows, Unit)
    ensures NoColDominated(rows)
  {
    forall p, q | p in Cols(rows) && q in Cols(rows) && p != q
      ensures !(ColRows(rows, p) <= ColRows(rows, q))
    {
      assert ColRows(rows, p) != {} && ColRows(rows, q) != {} by {
        var i :| i in rows && p in rows[i];
        assert i in ColRows(rows, p);
        var k :| k in rows && q in rows[k];
        assert k in ColRows(rows, q);
      }
      assert ColClear(rows, Unit, p) && ColClear(rows, Unit, q);
      assert !ColDominates(rows, Unit, p, q) && !ColDominates(rows, Unit, q, p);
      if ColRows(rows, p) <= ColRows(rows, q) {
        SubsetCard(ColRows(rows, p), ColRows(rows, q));
      }
    }
  }

  /** Delete every column dominated by another one.  If none was deleted there was
      none to delete. */
  method ColDominance(A: Matrix, weight: Weights) returns (deleted: nat)
    requires A.Valid()
    modifies A
    ensures A.Valid() && A.rows.Keys == old(A.rows).Keys
    ensures Reduces(weight, A.colsSize, old(A.rows), {}, A.rows)
    ensures Cols(A.rows) <= Cols(old(A.rows))
    ensures deleted == |Cols(old(A.rows))| - |Cols(A.rows)|
    ensures deleted == 0 ==> A.rows == old(A.rows) && ColsClear(A.rows, weight)
    ensures EasyCore(old(A.rows)) ==> EasyCore(A.rows)
  {
    hide Reduces, Cols, ColRows, ValidRows, EasyCore, ColClear, ColsClear;
    ghost var rows0 := A.rows;
    var before := |Cols(A.rows)|;
    ReducesSelf(weight, A.colsSize, rows0);
    var p := 0;
    while p < A.colsSize
      invariant 0 <= p <= A.colsSize && A.Valid()
      invariant A.rows.Keys == rows0.Keys
      invariant Reduces(weight, A.colsSize, rows0, {}, A.rows)
      invariant Cols(A.rows) <= Cols(rows0)
      invariant A.rows == rows0 || Cols(A.rows) < Cols(rows0)
      invariant EasyCore(rows0) ==> EasyCore(A.rows)
      invariant A.rows == rows0 ==> forall k :: 0 <= k < p ==> ColClear(rows0, weight, k)
    {
      ColSweep(A, weight, p, rows0);
      p := p + 1;
    }
    SubsetCard(Cols(A.rows), Cols(rows0));
    deleted := before - |Cols(A.rows)|;
    if A.rows == rows0 {
      ColsClearNow(rows0, weight, A.colsSize);
    }
  }

  /** Delete column p if another one dominates it, looking only at those in its
      shortest row. */
  method ColSweep(A: Matrix, weight: Weights, p: nat, ghost rows0: Rows)
    requires A.Valid() && A.rows.Keys == rows0.Keys && Cols(A.rows) <= Cols(rows0)
    requires Reduces(weight, A.colsSize, rows0, {}, A.rows)
    modifies A
    ensures A.Valid() && A.rows.Keys == rows0.Keys
    ensures Reduces(weight, A.colsSize, rows0, {}, A.rows)
    ensures if A.rows == old(A.rows) then ColClear(A.rows, weight, p) else Cols(A.rows) < Cols(rows0)
    ensures EasyCore(old(A.rows)) ==> EasyCore(A.rows)
  {
    hide Reduces, Cols, ColRows, ValidRows, EasyCore;
    if ColRows(A.rows, p) != {} {
      var least := A.LeastRow(p);
      var q := 0;
      while q < A.colsSize
        invariant 0 <= q <= A.colsSize
        invariant forall k :: k in A.rows[least] && k < q ==> !ColDominates(A.rows, weight, p, k)
      {
        if q in A.rows[least] && ColDominates(A.rows, weight, p, q) {
          DropColumn(A, weight, p, q, rows0);
          return;
        }
        q := q + 1;
      }
      ColumnsBelow(A.rows, A.colsSize, least);
      ColClearNow(A.rows, weight, p, least);
    }
  }

  lemma ColumnsBelow(rows: Rows, n: nat, i: nat)
    requires ValidRows(rows, n) && i in rows
    ensures forall c :: c in rows[i] ==> c < n
  {
  }

  method DropColumn(A: Matrix, weight: Weights, p: nat, q: nat, ghost rows0: Rows)
    requires A.Valid() && ColRows(A.rows, p) != {} && ColDominates(A.rows, weight, p, q)
    requires A.rows.Keys == rows0.Keys && Cols(A.rows) <= Cols(rows0)
    requires Reduces(weight, A.colsSize, rows0, {}, A.rows)
    modifies A
    ensures A.Valid() && A.rows.Keys == rows0.Keys
    ensures Reduces(weight, A.colsSize, rows0, {}, A.rows)
    ensures Cols(A.rows) < Cols(rows0) && A.rows != old(A.rows)
    ensures EasyCore(old(A.rows)) ==> EasyCore(A.rows)
  {
    hide Reduces, Cols, EasyCore;
    var i :| i in ColRows(A.rows, p);
    if EasyCore(A.rows) {
      CoreWithout(A.rows, p, q);
    }
    assert p in Cols(A.rows);
    ColDominated(weight, A.colsSize, A.rows, p, q);
    ReducesOn(weight, A.colsSize, rows0, A.rows, WithoutCol(A.rows, p));
    ColsWithout(A.rows, p);
    A.DelCol(p);
  }

  // ---- essential columns

  /** Every row has two columns or more and none contains another: nothing is
      left to reduce. */
  ghost predicate Settled(rows: Rows) {
    NoRowDominated(rows) && forall i :: i in rows ==> |rows[i]| >= 2
  }

  /** c is the only column of the row. */
  predicate Single(row: set<nat>, c: nat) {
    |row| == 1 && c in row
  }

  lemma SingleIs(row: set<nat>, c: nat)
    requires Single(row, c)
    ensures row == {c}
  {
    SubsetCard({c}, row);
  }

  /** The columns of the rows with one element. */
  method Essentials(A: Matrix) returns (essen: set<nat>)
    requires A.Valid()
    ensures forall c :: c in essen <==> exists i :: i in A.rows && Single(A.rows[i], c)
    ensures essen == {} ==> forall i :: i in A.rows ==> |A.rows[i]| != 1
  {
    essen := {};
    var i := 0;
    while i < A.rowsSize
      invariant 0 <= i <= A.rowsSize
      invariant forall c :: c in essen <==> exists k :: k in A.rows && k < i && Single(A.rows[k], c)
      invariant essen == {} ==> forall k :: k in A.rows && k < i ==> |A.rows[k]| != 1
    {
      if i in A.rows && |A.rows[i]| == 1 {
        var c :| c in A.rows[i];
        SingleIs(A.rows[i], c);
        essen := essen + {c};
      }
      i := i + 1;
    }
  }

  /** Each column of e took a row at least. */
  ghost predicate Paid(e: set<nat>, rows: Rows, rows0: Rows) {
    |e| + |rows| <= |rows0|
  }

  lemma PaidStep(e: set<nat>, rows: Rows, rows0: Rows, c: nat, rows': Rows)
    requires Paid(e, rows, rows0) && |rows'| < |rows|
    ensures Paid(e + {c}, rows', rows0)
  {
  }

  lemma PaidIdle(e: set<nat>, rows: Rows, rows0: Rows, rows': Rows)
    requires Paid(e, rows, rows0) && rows'.Keys <= rows.Keys
    ensures Paid(e, rows', rows0)
  {
    SubsetCard(rows'.Keys, rows.Keys);
    assert |rows'| == |rows'.Keys| && |rows| == |rows.Keys|;
  }

  /** What has been selected on the way from rows0: the columns e. */
  ghost predicate Selected(weight: Weights, n: nat, rows0: Rows, row0: set<nat>, cost0: int,
                           e: set<nat>, rows: Rows, row: set<nat>, cost: int) {
    && Reduces(weight, n, rows0, e, rows)
    && row == row0 + e
    && cost == cost0 + Cost(weight, e, n)
    && rows.Keys <= rows0.Keys
    && row0 !! Cols(rows0)
  }

  lemma SelectedStep(weight: Weights, n: nat, rows0: Rows, row0: set<nat>, cost0: int,
                     e: set<nat>, rows: Rows, row: set<nat>, cost: int, e': set<nat>, rows': Rows)
    requires Selected(weight, n, rows0, row0, cost0, e, rows, row, cost)
    requires Reduces(weight, n, rows, e', rows') && rows'.Keys <= rows.Keys
    ensures Selected(weight, n, rows0, row0, cost0, e + e', rows', row + e', cost + Cost(weight, e', n))
  {
    hide Cols, Cost, Reduces;
    ReducesTrans(weight, n, rows0, e, rows, e', rows');
    ReducesApart(weight, n, rows0, e, rows, e', rows');
    CostDisjoint(weight, e, e', n);
    assert row0 + e + e' == row0 + (e + e');
  }

  lemma ReducesApart(weight: Weights, n: nat, r0: Rows, e1: set<nat>, r1: Rows, e2: set<nat>, r2: Rows)
    requires Reduces(weight, n, r0, e1, r1) && Reduces(weight, n, r1, e2, r2)
    ensures e1 !! e2
  {
    hide Cols, Hits, Within;
  }

  /** Accept every essential column, stopping when the bound is reached. */
  method AcceptEssentials(A: Matrix, select: Solution, weight: Weights, bound: int, essen: set<nat>,
                          ghost rows0: Rows, ghost row0: set<nat>, ghost cost0: int, ghost e0: set<nat>)
      returns (ghost e: set<nat>)
    requires A.Valid()
    requires forall c :: c in essen ==> exists i :: i in A.rows && Single(A.rows[i], c)
    requires Selected(weight, A.colsSize, rows0, row0, cost0, e0, A.rows, select.row, select.cost)
    requires Paid(e0, A.rows, rows0)
    modifies A, select
    ensures A.Valid() && Paid(e, A.rows, rows0)
    ensures Selected(weight, A.colsSize, rows0, row0, cost0, e, A.rows, select.row, select.cost)
    ensures SomeRows(old(A.rows), A.rows) && Floor(old(A.rows), A.rows)
    ensures essen == {} ==> A.rows == old(A.rows) && select.cost == old(select.cost)
    ensures essen != {} ==> |A.rows| < |old(A.rows)|
  {
    hide Selected, Cols, Cost, ValidRows, Uncovered, Paid, Floor;
    e := e0;
    ghost var rows1 := A.rows;
    FloorSelf(rows1);
    var c := 0;
    while c < A.colsSize
      invariant 0 <= c <= A.colsSize && A.Valid()
      invariant Selected(weight, A.colsSize, rows0, row0, cost0, e, A.rows, select.row, select.cost)
      invariant SomeRows(rows1, A.rows) && Paid(e, A.rows, rows0) && Floor(rows1, A.rows)
      invariant forall d :: d in essen && d >= c ==> exists i :: i in A.rows && Single(A.rows[i], d)
      invariant if exists d :: d in essen && d < c then |A.rows| < |rows1|
                else A.rows == rows1 && select.cost == old(select.cost)
    {
      if c in essen {
        ghost var i :| i in A.rows && Single(A.rows[i], c);
        ghost var rows2 := A.rows;
        EssentialStep(weight, A.colsSize, rows0, row0, cost0, e, A.rows, select.row, select.cost, c, i);
        UncoveredKeeps(A.rows, c, i);
        select.Accept(A, weight, c);
        PaidStep(e, rows2, rows0, c, A.rows);
        SomeRowsTrans(rows1, rows2, A.rows);
        FloorUncovered(rows2, c);
        FloorTrans(rows1, rows2, A.rows);
        SomeRowsCard(rows1, rows2);
        e := e + {c};
        if select.cost >= bound {
          return;
        }
      }
      c := c + 1;
    }
    EssentialsBelow(A, essen, rows1);
  }

  lemma EssentialsBelow(A: Matrix, essen: set<nat>, rows1: Rows)
    requires ValidRows(rows1, A.colsSize)
    requires forall c :: c in essen ==> exists i :: i in rows1 && Single(rows1[i], c)
    ensures forall c :: c in essen ==> c < A.colsSize
  {
    forall c | c in essen
      ensures c < A.colsSize
    {
      var i :| i in rows1 && Single(rows1[i], c);
    }
  }

  lemma SomeRowsTrans(a: Rows, b: Rows, c: Rows)
    requires SomeRows(a, b) && SomeRows(b, c)
    ensures SomeRows(a, c)
  {
  }

  lemma UncoveredKeeps(rows: Rows, c: nat, i: nat)
    requires i in rows && Single(rows[i], c)
    ensures SomeRows(rows, Uncovered(rows, c)) && |Uncovered(rows, c)| < |rows|
    ensures forall d, k :: d != c && k in rows && Single(rows[k], d) ==> k in Uncovered(rows, c)
  {
    var r := Uncovered(rows, c);
    SomeRowsCard(rows, r);
    forall d, k | d != c && k in rows && Single(rows[k], d)
      ensures k in r
    {
      SingleIs(rows[k], d);
    }
  }

  lemma EssentialStep(weight: Weights, n: nat, rows0: Rows, row0: set<nat>, cost0: int,
                      e: set<nat>, rows: Rows, row: set<nat>, cost: int, c: nat, i: nat)
    requires Selected(weight, n, rows0, row0, cost0, e, rows, row, cost)
    requires ValidRows(rows, n) && i in rows && Single(rows[i], c)
    ensures Selected(weight, n, rows0, row0, cost0, e + {c}, Uncovered(rows, c), row + {c}, cost + WeightOf(weight, c))
  {
    hide Selected, Cost, Reduces, Cols;
    SingleIs(rows[i], c);
    assert Uncovered(rows, c).Keys <= rows.Keys;
    Essential(weight, n, rows, c, i);
    CostSingle(weight, c, n);
    SelectedStep(weight, n, rows0, row0, cost0, e, rows, row, cost, {c}, Uncovered(rows, c));
  }

  /** Apply column dominance, essential selection and row dominance until
      nothing changes, or the cost of the selection reaches the bound. */
  method SelectEssential(A: Matrix, select: Solution, weight: Weights, bound: int)
      returns (ghost e: set<nat>)
    requires A.Valid() && select.row !! Cols(A.rows)
    modifies A, select
    ensures A.Valid() && Paid(e, A.rows, old(A.rows))
    ensures Selected(weight, A.colsSize, old(A.rows), old(select.row), old(select.cost), e, A.rows, select.row,
        select.cost)
    ensures select.cost < bound ==> Settled(A.rows) && ColsClear(A.rows, weight)
    ensures EasyCore(old(A.rows)) ==> EasyCore(A.rows)
  {
    hide Selected, Cols, Cost, ValidRows, Reduces, NoRowDominated, Paid, EasyCore, Floor, ColsClear;
    ghost var rows0, row0, cost0 := A.rows, select.row, select.cost;
    e := {};
    SelectedStart(weight, A.colsSize, rows0, row0, cost0);
    NonePaid(rows0);
    var change := true;
    while change
      invariant A.Valid() && Paid(e, A.rows, rows0)
      invariant Selected(weight, A.colsSize, rows0, row0, cost0, e, A.rows, select.row, select.cost)
      invariant !change ==> Settled(A.rows) && ColsClear(A.rows, weight)
      invariant EasyCore(rows0) ==> EasyCore(A.rows)
      decreases |A.rows| + |Cols(A.rows)|, if change then 1 else 0
    {
      ghost var rows1 := A.rows;
      var delcols := ColDominance(A, weight);
      SelectedIdle(weight, A.colsSize, rows0, row0, cost0, e, rows1, select.row, select.cost, A.rows);
      PaidIdle(e, rows1, rows0, A.rows);
      ghost var rows2 := A.rows;
      var essen := Essentials(A);
      e := AcceptEssentials(A, select, weight, bound, essen, rows0, row0, cost0, e);
      FloorEasy(rows2, A.rows);
      if select.cost >= bound {
        return;
      }
      ghost var rows3 := A.rows;
      var delrows := RowDominance(A, weight);
      SelectedIdle(weight, A.colsSize, rows0, row0, cost0, e, rows3, select.row, select.cost, A.rows);
      PaidIdle(e, rows3, rows0, A.rows);
      FloorEasy(rows3, A.rows);
      change := delcols > 0 || delrows > 0 || essen != {};
      RoundProgress(rows1, rows2, rows3, A.rows);
      if !change {
        NoEssentials(A);
      }
    }
  }

  lemma FloorEasy(r0: Rows, r1: Rows)
    requires Floor(r0, r1)
    ensures EasyCore(r0) ==> EasyCore(r1)
  {
    hide EasyCore, Floor;
    if EasyCore(r0) {
      CoreFloor(r0, r1);
    }
  }

  lemma NonePaid(rows: Rows)
    ensures Paid({}, rows, rows)
  {
  }

  lemma SelectedStart(weight: Weights, n: nat, rows: Rows, row: set<nat>, cost: int)
    requires row !! Cols(rows)
    ensures Selected(weight, n, rows, row, cost, {}, rows, row, cost)
  {
    ReducesSelf(weight, n, rows);
    CostEmpty(weight, n);
  }

  lemma SelectedIdle(weight: Weights, n: nat, rows0: Rows, row0: set<nat>, cost0: int,
                     e: set<nat>, rows: Rows, row: set<nat>, cost: int, rows': Rows)
    requires Selected(weight, n, rows0, row0, cost0, e, rows, row, cost)
    requires Reduces(weight, n, rows, {}, rows') && rows'.Keys <= rows.Keys
    ensures Selected(weight, n, rows0, row0, cost0, e, rows', row, cost)
  {
    hide Selected, Cost;
    CostEmpty(weight, n);
    SelectedStep(weight, n, rows0, row0, cost0, e, rows, row, cost, {}, rows');
    assert e + {} == e && row + {} == row;
  }

  lemma RoundProgress(r1: Rows, r2: Rows, r3: Rows, r4: Rows)
    requires r2.Keys == r1.Keys && Cols(r2) <= Cols(r1)
    requires SomeRows(r2, r3) && SomeRows(r3, r4)
    ensures |r4| <= |r3| <= |r2| == |r1|
    ensures |Cols(r4)| <= |Cols(r2)| <= |Cols(r1)|
  {
    SomeRowsCard(r2, r3);
    SomeRowsCard(r3, r4);
    assert |r1| == |r1.Keys| && |r2| == |r2.Keys|;
    SomeRowsTrans(r2, r3, r4);
    SomeRowsCols(r2, r4);
    SubsetCard(Cols(r2), Cols(r1));
    SubsetCard(Cols(r4), Cols(r2));
  }

  lemma SomeRowsCols(r0: Rows, r1: Rows)
    requires SomeRows(r0, r1)
    ensures Cols(r1) <= Cols(r0)
  {
    forall c | c in Cols(r1)
      ensures c in Cols(r0)
    {
      var i :| i in r1 && c in r1[i];
      assert i in r0;
    }
  }

  lemma NoEssentials(A: Matrix)
    requires A.Valid() && NoRowDominated(A.rows)
    requires forall i :: i in A.rows ==> |A.rows[i]| != 1
    ensures Settled(A.rows)
  {
    hide NoRowDominated;
  }
}
