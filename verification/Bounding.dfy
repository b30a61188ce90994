/** The lower bound from independent rows, and the search for independent
    blocks of the matrix. */
module Bounding {
  import opened Counting
  import opened Covering
  import opened CoveringSplits
  import opened SparseMatrix

  // ---- independent rows

  /** The row-intersection matrix: row i holds the rows that meet row i of A. */
  method BuildIntersectionMatrix(A: Matrix) returns (B: Matrix)
    requires A.Valid()
    ensures fresh(B) && B.Valid() && B.rowsSize == B.colsSize == A.rowsSize
    ensures B.rows.Keys == A.rows.Keys
    ensures forall i, k :: i in A.rows ==>
              (k in B.rows[i] <==> k in A.rows && Intersects(A.rows[i], A.rows[k]))
  {
    hide Intersects;
    var rows: Rows := map[];
    var i := 0;
    while i < A.rowsSize
      invariant 0 <= i <= A.rowsSize
      invariant forall j :: j in rows <==> j in A.rows && j < i
      invariant forall j, k :: j in rows ==> (k in rows[j] <==> k in A.rows && Intersects(A.rows[j], A.rows[k]))
    {
      if i in A.rows {
        var reach := Reached(A, i);
        rows := rows[i := reach];
      }
      i := i + 1;
    }
    SelfIntersects(A);
    B := new Matrix(rows, A.rowsSize, A.rowsSize);
    assert rows.Keys == A.rows.Keys;
    forall j, k | j in rows && k in rows[j]
      ensures k < A.rowsSize
    {
      assert k in A.rows;
    }
    forall j | j in rows
      ensures rows[j] != {}
    {
      assert j in rows[j];
    }
  }

  lemma SelfIntersects(A: Matrix)
    requires A.Valid()
    ensures forall j :: j in A.rows ==> Intersects(A.rows[j], A.rows[j])
  {
    forall j | j in A.rows
      ensures Intersects(A.rows[j], A.rows[j])
    {
      assert A.rows[j] * A.rows[j] == A.rows[j];
    }
  }

  /** The rows that share a column with row i. */
  method Reached(A: Matrix, i: nat) returns (reach: set<nat>)
    requires A.Valid() && i in A.rows
    ensures forall k :: k in reach <==> k in A.rows && Intersects(A.rows[i], A.rows[k])
  {
    hide Intersects;
    reach := {};
    var c := 0;
    while c < A.colsSize
      invariant 0 <= c <= A.colsSize
      invariant forall k :: k in reach <==> k in A.rows && exists d :: d in A.rows[i] && d < c && d in A.rows[k]
    {
      if c in A.rows[i] {
        reach := reach + ColRows(A.rows, c);
      }
      c := c + 1;
    }
    forall k | k in A.rows
      ensures (exists d :: d in A.rows[i] && d in A.rows[k]) <==> Intersects(A.rows[i], A.rows[k])
    {
      IntersectsAt(A.rows[i], A.rows[k]);
    }
  }

  lemma IntersectsAt(a: set<nat>, b: set<nat>)
    ensures Intersects(a, b) <==> exists d :: d in a && d in b
  {
    if Intersects(a, b) {
      var d := Member(a * b);
    }
    if d :| d in a && d in b {
      assert d in a * b;
    }
  }

  /** b relates the rows of a that are still disjoint from the columns u. */
  ghost predicate Unrelated(a: Rows, b: Rows, u: set<nat>) {
    && b.Keys <= a.Keys
    && (forall k :: k in b ==> a[k] !! u)
    && (forall k :: k in b ==> k in b[k])
    && (forall j, k :: j in b && k in b && Intersects(a[k], a[j]) ==> j in b[k])
    && (forall j, k :: k in b && j in b[k] ==> j in a && Intersects(a[k], a[j]))
  }

  /** Row i shares a column with a row of S. */
  ghost predicate Near(a: Rows, S: set<nat>, i: nat)
    requires i in a && S <= a.Keys
  {
    exists j :: j in S && Intersects(a[i], a[j])
  }

  /** The rows S share no column with each other. */
  ghost predicate Independent(a: Rows, S: set<nat>) {
    S <= a.Keys && forall i, j :: i in S && j in S && i != j ==> !Intersects(a[i], a[j])
  }

  /** The rows S, with columns in u, are independent, and the rows that are not left in
      b are near them. */
  ghost predicate Discarded(a: Rows, b: Rows, u: set<nat>, S: set<nat>) {
    && Independent(a, S)
    && (forall j :: j in S ==> a[j] <= u)
    && (forall i :: i in a && i !in b ==> Near(a, S, i))
  }

  lemma DiscardedNext(a: Rows, b0: Rows, b: Rows, u: set<nat>, S: set<nat>, best: nat)
    requires Unrelated(a, b0, u) && Discarded(a, b0, u, S) && best in b0
    requires b.Keys == b0.Keys - b0[best]
    ensures best !in S && Discarded(a, b, u + a[best], S + {best})
  {
    hide Intersects, Near;
    forall j | j in S
      ensures !Intersects(a[best], a[j]) && !Intersects(a[j], a[best]) && j != best
    {
      IntersectsAt(a[best], a[j]);
      IntersectsAt(a[j], a[best]);
      IntersectsAt(a[best], a[best]);
    }
    forall i | i in a && i !in b
      ensures Near(a, S + {best}, i)
    {
      if i in b0 {
        NearBest(a, b0, u, S, best, i);
      } else {
        NearMore(a, S, best, i);
      }
    }
  }

  lemma NearBest(a: Rows, b: Rows, u: set<nat>, S: set<nat>, best: nat, i: nat)
    requires Unrelated(a, b, u) && S <= a.Keys && best in b && i in b[best]
    ensures i in a && Near(a, S + {best}, i)
  {
    IntersectsAt(a[best], a[i]);
    IntersectsAt(a[i], a[best]);
  }

  lemma NearMore(a: Rows, S: set<nat>, best: nat, i: nat)
    requires i in a && S <= a.Keys && best in a && Near(a, S, i)
    ensures Near(a, S + {best}, i)
  {
    hide Intersects;
    var j :| j in S && Intersects(a[i], a[j]);
    assert j in S + {best};
  }

  /** The weight of the lightest column of a row. */
  ghost function LeastIn(weight: Weights, row: set<nat>): (least: nat)
    requires row != {}
    ensures forall c :: c in row ==> WeightOf(weight, c) >= least
    ensures exists c :: c in row && WeightOf(weight, c) == least
  {
    var c :| c in row;
    var rest := row - {c};
    if rest == {} then
      assert row == {c};
      WeightOf(weight, c)
    else
      var least := LeastIn(weight, rest);
      if WeightOf(weight, c) < least then WeightOf(weight, c) else least
  }

  lemma LeastUnique(weight: Weights, row: set<nat>, least: nat)
    requires row != {} && forall c :: c in row ==> WeightOf(weight, c) >= least
    requires exists c :: c in row && WeightOf(weight, c) == least
    ensures least == LeastIn(weight, row)
  {
  }

  /** The lightest columns of the rows S below n, added up. */
  ghost function LeastSum(weight: Weights, a: Rows, S: set<nat>, n: nat): int
    requires S <= a.Keys && forall i :: i in a ==> a[i] != {}
  {
    if n == 0 then 0
    else LeastSum(weight, a, S, n - 1) + if n - 1 in S then LeastIn(weight, a[n - 1]) else 0
  }

  lemma {:induction false} LeastSumMore(weight: Weights, a: Rows, S: set<nat>, best: nat, n: nat)
    requires S <= a.Keys && (forall i :: i in a ==> a[i] != {}) && best in a && best !in S
    ensures LeastSum(weight, a, S + {best}, n) ==
            LeastSum(weight, a, S, n) + if best < n then LeastIn(weight, a[best]) else 0
  {
    if n > 0 {
      LeastSumMore(weight, a, S, best, n - 1);
    }
  }

  lemma {:induction false} LeastSumNone(weight: Weights, a: Rows, n: nat)
    requires forall i :: i in a ==> a[i] != {}
    ensures LeastSum(weight, a, {}, n) == 0
  {
    if n > 0 {
      LeastSumNone(weight, a, n - 1);
    }
  }

  lemma RowsFilled(A: Matrix)
    requires A.Valid()
    ensures forall i :: i in A.rows ==> A.rows[i] != {} && i < A.rowsSize
  {
  }

  lemma UnrelatedStep(a: Rows, b: Rows, u: set<nat>, p: nat)
    requires Unrelated(a, b, u)
    ensures Unrelated(a, WithoutCol(b - {p}, p), u)
    ensures WithoutCol(b - {p}, p).Keys == b.Keys - {p}
  {
    hide Intersects;
    var b' := WithoutCol(b - {p}, p);
    forall k | k in b && k != p
      ensures k in b'
    {
      assert k in b[k] - {p};
    }
  }

  lemma UnrelatedNext(a: Rows, b0: Rows, b: Rows, u: set<nat>, best: nat)
    requires Unrelated(a, b0, u) && Unrelated(a, b, u) && best in b0
    requires b.Keys == b0.Keys - b0[best]
    ensures Unrelated(a, b, u + a[best]) && |b| < |b0|
  {
    hide Intersects;
    forall k | k in b
      ensures a[k] !! a[best]
    {
      assert !Intersects(a[best], a[k]);
      NotIntersects(a[best], a[k]);
    }
    assert best in b0.Keys && best !in b.Keys;
    SubsetCard(b.Keys, b0.Keys);
    assert |b| == |b.Keys| && |b0| == |b0.Keys|;
  }

  lemma NotIntersects(a: set<nat>, b: set<nat>)
    requires !Intersects(a, b)
    ensures a !! b
  {
    forall d | d in a
      ensures d !in b
    {
      assert d in a * b <==> d in b;
    }
  }

  /** A maximal set of rows no two of which share a column, with the least weight in
      each row added up: no cover can weigh less. */
  method MaximalIndependentSet(A: Matrix, weight: Weights) returns (indep: Solution)
    requires A.Valid()
    ensures fresh(indep) && indep.row <= A.rows.Keys && indep.cost >= 0
    ensures A.rows != map[] ==> indep.row != {}
    ensures AtLeast(weight, A.colsSize, A.rows, indep.cost)
    ensures Independent(A.rows, indep.row) && forall i :: i in A.rows ==> Near(A.rows, indep.row, i)
    ensures (forall i :: i in A.rows ==> A.rows[i] != {}) &&
      indep.cost == LeastSum(weight, A.rows, indep.row, A.rowsSize)
  {
    hide Intersects, Cost, Unrelated, Hits, ValidRows, Near, Independent, Discarded;
    RowsFilled(A);
    indep := new Solution({}, 0);
    var B := BuildIntersectionMatrix(A);
    ghost var u: set<nat> := {};
    UnrelatedStart(A, B);
    NoneDiscarded(A.rows, B.rows);
    LeastSumNone(weight, A.rows, A.rowsSize);
    while B.rows != map[]
      invariant B.Valid() && fresh(B) && fresh(indep)
      invariant Unrelated(A.rows, B.rows, u) && Discarded(A.rows, B.rows, u, indep.row)
      invariant indep.row <= A.rows.Keys && indep.cost >= 0
      invariant indep.cost == LeastSum(weight, A.rows, indep.row, A.rowsSize)
      invariant B.rows == map[] && A.rows != map[] ==> indep.row != {}
      invariant forall y :: Hits(A.rows, y) ==> indep.cost <= Cost(weight, y * u, A.colsSize)
      decreases |B.rows|
    {
      u := TakeRow(A, weight, B, indep, u);
    }
    AllDiscarded(A.rows, B.rows, u, indep.row);
    forall y | Hits(A.rows, y)
      ensures Cost(weight, y, A.colsSize) >= indep.cost
    {
      CostMono(weight, y * u, y, A.colsSize);
    }
  }

  /** Take the row that meets the fewest others, and discard those. */
  method TakeRow(A: Matrix, weight: Weights, B: Matrix, indep: Solution, ghost u: set<nat>) returns (ghost u': set<nat>)
    requires A.Valid() && B.Valid() && A != B && B.rows != map[]
    requires Unrelated(A.rows, B.rows, u) && indep.row <= A.rows.Keys && indep.cost >= 0
    requires Discarded(A.rows, B.rows, u, indep.row) && forall i :: i in A.rows ==> A.rows[i] != {}
    requires indep.cost == LeastSum(weight, A.rows, indep.row, A.rowsSize)
    requires forall y :: Hits(A.rows, y) ==> indep.cost <= Cost(weight, y * u, A.colsSize)
    modifies B, indep
    ensures B.Valid() && Unrelated(A.rows, B.rows, u') && |B.rows| < |old(B.rows)|
    ensures Discarded(A.rows, B.rows, u', indep.row) && indep.row <= A.rows.Keys
    ensures indep.cost == LeastSum(weight, A.rows, indep.row, A.rowsSize)
    ensures indep.row <= A.rows.Keys && indep.cost >= 0 && indep.row != {}
    ensures forall y :: Hits(A.rows, y) ==> indep.cost <= Cost(weight, y * u', A.colsSize)
  {
    hide Intersects, Cost, Unrelated, Hits, ValidRows, Discarded, LeastSum;
    var best := ShortestRow(B);
    UnrelatedAt(A.rows, B.rows, u, best);
    var least := LeastWeight(A, weight, best);
    RowsFilled(A);
    LeastUnique(weight, A.rows[best], least);
    ghost var row0 := indep.row;
    IndependentMore(A, weight, u, indep.cost, best, least);
    indep.cost := indep.cost + least;
    indep.row := indep.row + {best};
    ghost var b0 := B.rows;
    RowBelow(B, best);
    Discard(A.rows, B, u, B.rows[best]);
    DiscardedNext(A.rows, b0, B.rows, u, row0, best);
    LeastSumMore(weight, A.rows, row0, best, A.rowsSize);
    UnrelatedNext(A.rows, b0, B.rows, u, best);
    u' := u + A.rows[best];
  }

  lemma NoneDiscarded(a: Rows, b: Rows)
    requires b.Keys == a.Keys
    ensures Discarded(a, b, {}, {})
  {
    assert forall i :: i in a ==> i in b.Keys;
  }

  lemma AllDiscarded(a: Rows, b: Rows, u: set<nat>, S: set<nat>)
    requires Discarded(a, b, u, S) && b == map[]
    ensures Independent(a, S) && forall i :: i in a ==> Near(a, S, i)
  {
  }

  lemma IndependentMore(A: Matrix, weight: Weights, u: set<nat>, k: int, best: nat, least: nat)
    requires A.Valid() && best in A.rows && u !! A.rows[best]
    requires forall c :: c in A.rows[best] ==> WeightOf(weight, c) >= least
    requires forall y :: Hits(A.rows, y) ==> k <= Cost(weight, y * u, A.colsSize)
    ensures forall y :: Hits(A.rows, y) ==> k + least <= Cost(weight, y * (u + A.rows[best]), A.colsSize)
  {
    hide Hits, Cost, Intersects;
    forall y | Hits(A.rows, y)
      ensures k + least <= Cost(weight, y * (u + A.rows[best]), A.colsSize)
    {
      HitsAt(A.rows, y, best);
      IndependentStep(weight, A.colsSize, A.rows[best], u, k, least, y);
    }
  }

  lemma UnrelatedStart(A: Matrix, B: Matrix)
    requires A.Valid() && B.rows.Keys == A.rows.Keys
    requires forall i, k :: i in A.rows ==>
               (k in B.rows[i] <==> k in A.rows && Intersects(A.rows[i], A.rows[k]))
    ensures Unrelated(A.rows, B.rows, {})
  {
    hide Intersects;
    SelfIntersects(A);
  }

  lemma UnrelatedAt(a: Rows, b: Rows, u: set<nat>, k: nat)
    requires Unrelated(a, b, u) && k in b
    ensures k in a && a[k] !! u
  {
  }

  lemma HitsAt(rows: Rows, y: set<nat>, i: nat)
    requires Hits(rows, y) && i in rows
    ensures Intersects(rows[i], y)
  {
  }

  lemma RowBelow(A: Matrix, i: nat)
    requires A.Valid() && i in A.rows
    ensures A.rows[i] != {} && forall c :: c in A.rows[i] ==> c < A.colsSize
  {
  }

  /** The first row with the fewest elements. */
  method ShortestRow(B: Matrix) returns (best: nat)
    requires B.Valid() && B.rows != map[]
    ensures best in B.rows && forall i :: i in B.rows ==> |B.rows[best]| <= |B.rows[i]|
  {
    assert exists k :: k in B.rows by {
      assert B.rows.Keys != {};
    }
    var found := false;
    best := 0;
    var i := 0;
    while i < B.rowsSize
      invariant 0 <= i <= B.rowsSize
      invariant found ==> best in B.rows
      invariant !found ==> forall k :: k in B.rows ==> k >= i
      invariant found ==> forall k :: k in B.rows && k < i ==> |B.rows[best]| <= |B.rows[k]|
    {
      if i in B.rows && (!found || |B.rows[i]| < |B.rows[best]|) {
        found, best := true, i;
      }
      i := i + 1;
    }
  }

  /** The weight of the lightest column of row i. */
  method LeastWeight(A: Matrix, weight: Weights, i: nat) returns (least: nat)
    requires A.Valid() && i in A.rows
    ensures forall c :: c in A.rows[i] ==> WeightOf(weight, c) >= least
    ensures exists c :: c in A.rows[i] && WeightOf(weight, c) == least
  {
    var c0 :| c0 in A.rows[i];
    if weight == Unit {
      assert WeightOf(weight, c0) == 1;
      return 1;
    }
    least := WeightOf(weight, c0);
    var c := 0;
    while c < A.colsSize
      invariant 0 <= c <= A.colsSize
      invariant exists d :: d in A.rows[i] && WeightOf(weight, d) == least
      invariant forall d :: d in A.rows[i] && d < c ==> WeightOf(weight, d) >= least
    {
      if c in A.rows[i] && WeightOf(weight, c) < least {
        least := WeightOf(weight, c);
      }
      c := c + 1;
    }
  }

  /** Delete the given rows of B, and the columns of the same numbers. */
  method Discard(ghost a: Rows, B: Matrix, ghost u: set<nat>, save: set<nat>)
    requires B.Valid() && Unrelated(a, B.rows, u)
    requires forall p :: p in save ==> p < B.colsSize
    modifies B
    ensures B.Valid() && Unrelated(a, B.rows, u)
    ensures B.rows.Keys == old(B.rows).Keys - save
  {
    hide Unrelated;
    var p := 0;
    while p < B.colsSize
      invariant 0 <= p <= B.colsSize && B.Valid()
      invariant Unrelated(a, B.rows, u)
      invariant forall k :: k in B.rows <==> k in old(B.rows) && !(k in save && k < p)
    {
      if p in save {
        UnrelatedStep(a, B.rows, u, p);
        B.DelRow(p);
        B.DelCol(p);
      }
      p := p + 1;
    }
  }

  // ---- blocks

  /** A sweep from (rf, cf) to (rf', cf') closed the rows and columns it added,
      all but the row or column being visited. */
  ghost predicate Closed(rows: Rows, rf: set<nat>, cf: set<nat>, rf': set<nat>, cf': set<nat>,
                         openRow: set<nat>, openCol: set<nat>) {
    && rf <= rf' <= rows.Keys && cf <= cf'
    && (forall i :: i in rf' - rf - openRow ==> i in rows && rows[i] <= cf')
    && (forall c :: c in cf' - cf - openCol ==> ColRows(rows, c) <= rf')
  }

  lemma ClosedTrans(rows: Rows, rf: set<nat>, cf: set<nat>, rf1: set<nat>, cf1: set<nat>,
                    rf2: set<nat>, cf2: set<nat>, openRow: set<nat>, openCol: set<nat>)
    requires Closed(rows, rf, cf, rf1, cf1, openRow, openCol)
    requires Closed(rows, rf1, cf1, rf2, cf2, {}, {})
    ensures Closed(rows, rf, cf, rf2, cf2, openRow, openCol)
  {
    hide ColRows;
  }

  /** The rows and columns lie on one side of a partition into two blocks. */
  ghost predicate OneSide(rows: Rows, l: Rows, r: Rows, rf: set<nat>, cf: set<nat>) {
    Blocks(rows, l, r) && rf <= l.Keys && cf <= Cols(l)
  }

  /** The rows rf' and columns cf' cannot be separated from rf and cf. */
  ghost predicate Joined(rows: Rows, rf: set<nat>, cf: set<nat>, rf': set<nat>, cf': set<nat>) {
    forall l, r :: OneSide(rows, l, r, rf, cf) ==> OneSide(rows, l, r, rf', cf')
  }

  lemma JoinedTrans(rows: Rows, rf: set<nat>, cf: set<nat>, rf1: set<nat>, cf1: set<nat>, rf2: set<nat>, cf2: set<nat>)
    requires Joined(rows, rf, cf, rf1, cf1) && Joined(rows, rf1, cf1, rf2, cf2)
    ensures Joined(rows, rf, cf, rf2, cf2)
  {
    hide OneSide;
  }

  lemma JoinedSelf(rows: Rows, rf: set<nat>, cf: set<nat>, rf': set<nat>, cf': set<nat>)
    requires rf' <= rf && cf' <= cf
    ensures Joined(rows, rf, cf, rf', cf')
  {
    hide Blocks, Cols;
  }

  lemma JoinedCol(rows: Rows, rf: set<nat>, cf: set<nat>, i: nat, c: nat)
    requires i in rf && i in rows && c in rows[i]
    ensures Joined(rows, rf, cf, rf, cf + {c})
  {
    forall l, r | OneSide(rows, l, r, rf, cf)
      ensures OneSide(rows, l, r, rf, cf + {c})
    {
      assert i in l && c in l[i];
    }
  }

  lemma JoinedRow(rows: Rows, rf: set<nat>, cf: set<nat>, i: nat, c: nat)
    requires c in cf && i in rows && c in rows[i]
    ensures Joined(rows, rf, cf, rf + {i}, cf)
  {
    forall l, r | OneSide(rows, l, r, rf, cf)
      ensures OneSide(rows, l, r, rf + {i}, cf)
    {
      assert i in l || i in r;
      assert c in Cols(l) && (i in r ==> c in Cols(r));
    }
  }

  /** The matrix does not fall apart. */
  ghost predicate OneBlock(rows: Rows) {
    forall l, r :: Blocks(rows, l, r) ==> l == map[] || r == map[]
  }

  /** All rows visited, or all columns: the matrix does not fall apart. */
  lemma AllJoined(rows: Rows, n: nat, i: nat, rf: set<nat>, cf: set<nat>)
    requires ValidRows(rows, n) && i in rows && Joined(rows, {} + {i}, {}, rf, cf)
    requires rf == rows.Keys || cf == Cols(rows)
    ensures OneBlock(rows)
  {
    hide Joined, ValidRows, Cols;
    assert {} + {i} == {i};
    forall l, r | Blocks(rows, l, r)
      ensures l == map[] || r == map[]
    {
      BlocksSwapped(rows, l, r);
      if i in l {
        NoneLeft(rows, n, i, rf, cf, l, r);
      } else {
        NoneLeft(rows, n, i, rf, cf, r, l);
      }
    }
  }

  lemma NoRowsOneBlock()
    ensures OneBlock(map[])
  {
  }

  lemma BlocksSwapped(rows: Rows, l: Rows, r: Rows)
    requires Blocks(rows, l, r)
    ensures Blocks(rows, r, l)
  {
    hide Cols;
  }

  lemma NoneLeft(rows: Rows, n: nat, i: nat, rf: set<nat>, cf: set<nat>, l: Rows, r: Rows)
    requires ValidRows(rows, n) && Joined(rows, {i}, {}, rf, cf) && Blocks(rows, l, r) && i in l
    requires rf == rows.Keys || cf == Cols(rows)
    ensures r == map[]
  {
    assert OneSide(rows, l, r, {i}, {});
    assert OneSide(rows, l, r, rf, cf);
    if r.Keys != {} {
      var k := Member(r.Keys);
      RowOutside(rows, l, r, k);
    }
  }

  lemma RowOutside(rows: Rows, l: Rows, r: Rows, k: nat)
    requires Blocks(rows, l, r) && k in r && rows[k] != {}
    ensures k in rows && k !in l && !(Cols(rows) <= Cols(l))
  {
    var c := Member(rows[k]);
    InCols(rows, k, c);
    InCols(r, k, c);
    assert k in l ==> c in Cols(l);
  }

  /** Flag row i and everything reachable from it, which no partition into blocks
      can separate from it.  The answer is true as soon as all rows or all columns
      have been visited. */
  method VisitRow(A: Matrix, i: nat, rf: set<nat>, cf: set<nat>)
      returns (all: bool, rf': set<nat>, cf': set<nat>)
    requires A.Valid() && i in A.rows && rf <= A.rows.Keys && cf <= Cols(A.rows)
    ensures i in rf' && cf' <= Cols(A.rows) && rf <= rf' <= A.rows.Keys && cf <= cf'
    ensures all ==> rf' == A.rows.Keys || cf' == Cols(A.rows)
    ensures Joined(A.rows, rf + {i}, cf, rf', cf')
    ensures !all ==> Closed(A.rows, rf, cf, rf', cf', {}, {})
    ensures !all && rf != A.rows.Keys ==> rf' != A.rows.Keys
    decreases |A.rows| - |rf| + |Cols(A.rows)| - |cf|
  {
    hide Cols, ColRows, Closed, ValidRows, Joined;
    rf', cf' := rf, cf;
    JoinedSelf(A.rows, rf + {i}, cf, rf + {i}, cf);
    if i in rf {
      assert rf + {i} == rf;
      ClosedSelf(A.rows, rf, cf);
      return false, rf', cf';
    }
    rf' := rf' + {i};
    if |rf'| == |A.rows| {
      FlagsLeft(A.rows, rf', cf);
      return true, rf', cf';
    }
    ClosedRow(A.rows, rf, cf, i);
    FlagsLeft(A.rows, rf', cf);
    assert |rf'| == |rf| + 1;
    var c := 0;
    while c < A.colsSize
      invariant 0 <= c <= A.colsSize
      invariant i in rf' && cf' <= Cols(A.rows) && rf + {i} <= rf' <= A.rows.Keys && cf <= cf'
      invariant Closed(A.rows, rf, cf, rf', cf', {i}, {}) && Joined(A.rows, rf + {i}, cf, rf', cf')
      invariant rf' != A.rows.Keys
      invariant forall d :: d in A.rows[i] && d < c ==> d in cf'
    {
      if c in A.rows[i] && c !in cf' {
        SubsetCard(rf + {i}, rf');
        SubsetCard(cf, cf');
        FlagsLeft(A.rows, rf', cf');
        InCols(A.rows, i, c);
        JoinedCol(A.rows, rf', cf', i, c);
        JoinedTrans(A.rows, rf + {i}, cf, rf', cf', rf', cf' + {c});
        var a, rf1, cf1 := VisitCol(A, c, rf', cf');
        JoinedTrans(A.rows, rf + {i}, cf, rf', cf' + {c}, rf1, cf1);
        if a {
          return true, rf1, cf1;
        }
        ClosedTrans(A.rows, rf, cf, rf', cf', rf1, cf1, {i}, {});
        rf', cf' := rf1, cf1;
      }
      c := c + 1;
    }
    CloseRow(A, rf, cf, rf', cf', i);
    all := false;
  }

  method VisitCol(A: Matrix, c: nat, rf: set<nat>, cf: set<nat>)
      returns (all: bool, rf': set<nat>, cf': set<nat>)
    requires A.Valid() && c in Cols(A.rows) && rf <= A.rows.Keys && cf <= Cols(A.rows)
    ensures c in cf' && cf' <= Cols(A.rows) && rf <= rf' <= A.rows.Keys && cf <= cf'
    ensures all ==> rf' == A.rows.Keys || cf' == Cols(A.rows)
    ensures Joined(A.rows, rf, cf + {c}, rf', cf')
    ensures !all ==> Closed(A.rows, rf, cf, rf', cf', {}, {})
    ensures !all && rf != A.rows.Keys ==> rf' != A.rows.Keys
    decreases |A.rows| - |rf| + |Cols(A.rows)| - |cf|
  {
    hide Cols, ColRows, Closed, ValidRows, Joined;
    rf', cf' := rf, cf;
    JoinedSelf(A.rows, rf, cf + {c}, rf, cf + {c});
    if c in cf {
      assert cf + {c} == cf;
      ClosedSelf(A.rows, rf, cf);
      return false, rf', cf';
    }
    cf' := cf' + {c};
    if |cf'| == |Cols(A.rows)| {
      SubsetCard(cf', Cols(A.rows));
      return true, rf', cf';
    }
    ClosedCol(A.rows, rf, cf, c);
    assert |cf'| == |cf| + 1;
    var i := 0;
    while i < A.rowsSize
      invariant 0 <= i <= A.rowsSize
      invariant c in cf' && cf' <= Cols(A.rows) && rf <= rf' <= A.rows.Keys && cf + {c} <= cf'
      invariant Closed(A.rows, rf, cf, rf', cf', {}, {c}) && Joined(A.rows, rf, cf + {c}, rf', cf')
      invariant rf != A.rows.Keys ==> rf' != A.rows.Keys
      invariant forall k :: k in ColRows(A.rows, c) && k < i ==> k in rf'
    {
      if i in A.rows && c in A.rows[i] && i !in rf' {
        SubsetCard(rf, rf');
        SubsetCard(cf + {c}, cf');
        FlagsLeft(A.rows, rf', cf');
        JoinedRow(A.rows, rf', cf', i, c);
        JoinedTrans(A.rows, rf, cf + {c}, rf', cf', rf' + {i}, cf');
        var a, rf1, cf1 := VisitRow(A, i, rf', cf');
        JoinedTrans(A.rows, rf, cf + {c}, rf' + {i}, cf', rf1, cf1);
        if a {
          return true, rf1, cf1;
        }
        ClosedTrans(A.rows, rf, cf, rf', cf', rf1, cf1, {}, {c});
        rf', cf' := rf1, cf1;
      }
      i := i + 1;
    }
    CloseCol(A, rf, cf, rf', cf', c);
    all := false;
  }

  lemma ClosedSelf(rows: Rows, rf: set<nat>, cf: set<nat>)
    requires rf <= rows.Keys
    ensures Closed(rows, rf, cf, rf, cf, {}, {})
  {
  }

  lemma ClosedRow(rows: Rows, rf: set<nat>, cf: set<nat>, i: nat)
    requires i in rows && rf <= rows.Keys
    ensures Closed(rows, rf, cf, rf + {i}, cf, {i}, {})
  {
  }

  lemma ClosedCol(rows: Rows, rf: set<nat>, cf: set<nat>, c: nat)
    requires rf <= rows.Keys
    ensures Closed(rows, rf, cf, rf, cf + {c}, {}, {c})
  {
  }

  lemma FlagsLeft(rows: Rows, rf: set<nat>, cf: set<nat>)
    requires rf <= rows.Keys && cf <= Cols(rows)
    ensures |rf| <= |rows| && |cf| <= |Cols(rows)|
    ensures |rf| == |rows| ==> rf == rows.Keys
  {
    SubsetCard(rf, rows.Keys);
    SubsetCard(cf, Cols(rows));
    assert |rows| == |rows.Keys|;
  }

  lemma InCols(rows: Rows, i: nat, c: nat)
    requires i in rows && c in rows[i]
    ensures c in Cols(rows)
  {
  }

  lemma CloseRow(A: Matrix, rf: set<nat>, cf: set<nat>, rf': set<nat>, cf': set<nat>, i: nat)
    requires A.Valid() && i in A.rows && Closed(A.rows, rf, cf, rf', cf', {i}, {})
    requires forall d :: d in A.rows[i] && d < A.colsSize ==> d in cf'
    ensures Closed(A.rows, rf, cf, rf', cf', {}, {})
  {
    hide ColRows;
  }

  lemma CloseCol(A: Matrix, rf: set<nat>, cf: set<nat>, rf': set<nat>, cf': set<nat>, c: nat)
    requires A.Valid() && Closed(A.rows, rf, cf, rf', cf', {}, {c})
    requires forall k :: k in ColRows(A.rows, c) && k < A.rowsSize ==> k in rf'
    ensures Closed(A.rows, rf, cf, rf', cf', {}, {})
  {
  }

  /** Split the matrix into two blocks without a common column, if the rows
      reachable from the first row are not all.  None is found exactly if the matrix
      does not fall apart. */
  method BlockPartition(A: Matrix) returns (found: bool, L: Matrix, R: Matrix)
    requires A.Valid()
    ensures found ==> fresh(L) && fresh(R) && L != R && L.Valid() && R.Valid()
    ensures found ==> L.colsSize == R.colsSize == A.colsSize
    ensures found ==> Blocks(A.rows, L.rows, R.rows) && L.rows.Keys !! R.rows.Keys
    ensures found ==> |L.rows| < |A.rows| && |R.rows| < |A.rows|
    ensures !found ==> OneBlock(A.rows)
  {
    hide Closed, Cols, Joined, OneBlock, ValidRows, Blocks;
    NoRowsOneBlock();
    L, R := A, A;
    if A.rows == map[] {
      return false, L, R;
    }
    assert exists k :: k in A.rows by {
      assert A.rows.Keys != {};
    }
    var first := 0;
    while first !in A.rows
      invariant forall k :: k in A.rows ==> k >= first
      decreases A.rowsSize - first
    {
      first := first + 1;
    }
    var all, rf, cf := VisitRow(A, first, {}, {});
    if all {
      AllJoined(A.rows, A.colsSize, first, rf, cf);
      return false, L, R;
    }
    L, R := CopyBlocks(A, rf, cf, first);
    found := true;
  }

  /** Copy the rows flagged and the others to a matrix each. */
  method CopyBlocks(A: Matrix, rf: set<nat>, ghost cf: set<nat>, ghost first: nat) returns (L: Matrix, R: Matrix)
    requires A.Valid() && Closed(A.rows, {}, {}, rf, cf, {}, {})
    requires first in A.rows && first in rf && rf <= A.rows.Keys && rf != A.rows.Keys
    ensures fresh(L) && fresh(R) && L != R && L.Valid() && R.Valid()
    ensures L.colsSize == R.colsSize == A.colsSize
    ensures Blocks(A.rows, L.rows, R.rows) && L.rows.Keys !! R.rows.Keys
    ensures |L.rows| < |A.rows| && |R.rows| < |A.rows|
  {
    hide Closed, Blocks;
    var l := map i | i in A.rows && i in rf :: A.rows[i];
    var r := map i | i in A.rows && i !in rf :: A.rows[i];
    BlocksApart(A.rows, rf, cf, l, r);
    BlockSizes(A.rows, rf, l, r, first);
    L := new Matrix(l, A.rowsSize, A.colsSize);
    R := new Matrix(r, A.rowsSize, A.colsSize);
  }

  lemma BlocksApart(rows: Rows, rf: set<nat>, cf: set<nat>, l: Rows, r: Rows)
    requires Closed(rows, {}, {}, rf, cf, {}, {})
    requires l == map i | i in rows && i in rf :: rows[i]
    requires r == map i | i in rows && i !in rf :: rows[i]
    ensures Blocks(rows, l, r)
  {
    forall c | c in Cols(l)
      ensures c !in Cols(r)
    {
      var i :| i in l && c in l[i];
      assert i in rf - {} - {};
      assert c in cf - {} - {};
      forall k | k in r
        ensures c !in r[k]
      {
        assert k in ColRows(rows, c) <==> c in rows[k];
      }
    }
  }

  lemma BlockSizes(rows: Rows, rf: set<nat>, l: Rows, r: Rows, first: nat)
    requires l == map i | i in rows && i in rf :: rows[i]
    requires r == map i | i in rows && i !in rf :: rows[i]
    requires first in rows && first in rf && rf <= rows.Keys && rf != rows.Keys
    ensures |l| < |rows| && |r| < |rows|
  {
    assert l.Keys == rf;
    assert r.Keys <= rows.Keys && first !in r.Keys && first in rows.Keys;
    SubsetCard(l.Keys, rows.Keys);
    SubsetCard(r.Keys, rows.Keys);
    assert |l| == |l.Keys| && |r| == |r.Keys| && |rows| == |rows.Keys|;
  }
}
