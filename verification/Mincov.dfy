/** Minimum weight covering by branch and bound. */
module Mincov {
  import opened Counting
  import opened Cores
  import opened Covering
  import opened CoveringSplits
  import opened SparseMatrix
  import opened Dominance
  import opened Bounding
  import opened Stars

  /** What a search of the rows, with row0 of weight cost0 already selected, may
      answer.  A solution adds a cover x to the selection and costs less than
      the bound; an exact search finds one of least weight, and finds none only
      if every cover reaches the bound.  The heuristic search always finds one
      when even taking all columns stays below the bound. */
  ghost predicate Answer(weight: Weights, n: nat, exact: bool, rows: Rows, row0: set<nat>, cost0: int, lb: int,
      bound: int, found: bool, row: set<nat>, cost: int, x: set<nat>) {
    if found then
      && Hits(rows, x) && x <= Cols(rows)
      && row == row0 + x && cost == cost0 + Cost(weight, x, n) && cost < bound
      && (exact ==> AtLeast(weight, n, rows, cost - cost0))
    else if exact then
      AtLeast(weight, n, rows, bound - cost0)
    else
      cost0 + Cost(weight, Cols(rows), n) >= bound || lb >= bound
  }

  /** There are no more columns in x than rows. */
  ghost predicate Small(x: set<nat>, rows: Rows) {
    |x| <= |rows|
  }

  lemma NoneSmall()
    ensures Small({}, map[])
  {
  }

  lemma SmallPaid(e: set<nat>, x: set<nat>, rows: Rows, rows0: Rows)
    requires Paid(e, rows, rows0) && Small(x, rows)
    ensures Small(e + x, rows0)
  {
  }

  lemma SmallBlocks(x1: set<nat>, x: set<nat>, rows: Rows, l: Rows, r: Rows)
    requires |l| + |r| <= |rows| && Small(x1, l) && Small(x, r)
    ensures Small(x1 + x, rows)
  {
  }

  lemma SmallMore(x: set<nat>, c: nat, rows': Rows, rows: Rows)
    requires |rows'| < |rows| && Small(x, rows')
    ensures Small({c} + x, rows) && Small(x + {c}, rows)
  {
  }

  /** When the answer is the best one: in the exact search, and when reductions alone
      solve the matrix. */
  ghost predicate Sure(weight: Weights, exact: bool, rows: Rows) {
    exact || (weight == Unit && EasyCore(rows))
  }

  /** A best answer is an answer of either kind. */
  lemma SureAnswer(weight: Weights, n: nat, sure: bool, exact: bool, rows: Rows, row0: set<nat>, cost0: int, lb: int,
      bound: int, found: bool, row: set<nat>, cost: int, x: set<nat>)
    requires Answer(weight, n, sure, rows, row0, cost0, lb, bound, found, row, cost, x) && (exact ==> sure)
    requires forall i :: i in rows ==> rows[i] != {}
    ensures Answer(weight, n, exact, rows, row0, cost0, lb, bound, found, row, cost, x)
  {
    hide Cols, Cost, Hits;
    AllColumnsHit(rows);
  }

  // ---- the answer after reductions

  lemma ReducedAnswer(weight: Weights, n: nat, exact: bool, rows0: Rows, row0: set<nat>, cost0: int, e: set<nat>,
      rows: Rows, row1: set<nat>, cost1: int, lb: int, bound: int, found: bool, row: set<nat>, cost: int, x: set<nat>)
    requires Selected(weight, n, rows0, row0, cost0, e, rows, row1, cost1)
    requires Answer(weight, n, exact, rows, row1, cost1, lb, bound, found, row, cost, x)
    ensures Answer(weight, n, exact, rows0, row0, cost0, lb, bound, found, row, cost,
                   if found then e + x else x)
  {
    hide Cols, Cost, Hits, AtLeast, Within;
    var k := if found then cost - cost0 else bound - cost0;
    ReducesBound(weight, n, rows0, e, rows, k);
    if found {
      CostDisjoint(weight, e, x, n);
      assert row0 + e + x == row0 + (e + x);
    } else if !exact {
      CostDisjoint(weight, e, Cols(rows), n);
      CostMono(weight, e + Cols(rows), Cols(rows0), n);
    }
  }

  /** The lower bound and the selection stay in order through a reduction. */
  lemma ReducedBounds(weight: Weights, n: nat, rows0: Rows, row0: set<nat>, cost0: int, e: set<nat>, rows: Rows,
      row1: set<nat>, cost1: int, lb: int)
    requires Selected(weight, n, rows0, row0, cost0, e, rows, row1, cost1)
    requires AtLeast(weight, n, rows0, lb - cost0)
    ensures AtLeast(weight, n, rows, lb - cost1)
    ensures row1 !! Cols(rows)
    ensures rows.Keys <= rows0.Keys && Cols(rows) <= Cols(rows0)
    ensures |rows| <= |rows0| && |Cols(rows)| <= |Cols(rows0)|
  {
    hide Cols, Cost, Hits, AtLeast, Within;
    ReducesBound(weight, n, rows0, e, rows, lb - cost0);
    SubsetCard(rows.Keys, rows0.Keys);
    SubsetCard(Cols(rows), Cols(rows0));
    assert |rows| == |rows.Keys| && |rows0| == |rows0.Keys|;
  }

  /** A lower bound that reaches the bound settles the search. */
  lemma BoundedAnswer(weight: Weights, n: nat, exact: bool, rows: Rows, row0: set<nat>, cost0: int, lb: int, lbNew: int,
      bound: int)
    requires AtLeast(weight, n, rows, lbNew - cost0) && lbNew >= bound
    requires forall i :: i in rows ==> rows[i] != {}
    ensures Answer(weight, n, exact, rows, row0, cost0, lb, bound, false, row0, cost0, {})
  {
    AllColumnsHit(rows);
  }

  lemma AllColumnsHit(rows: Rows)
    requires forall i :: i in rows ==> rows[i] != {}
    ensures Hits(rows, Cols(rows))
  {
    forall i | i in rows
      ensures Intersects(rows[i], Cols(rows))
    {
      var c := Member(rows[i]);
      assert c in rows[i] * Cols(rows);
    }
  }

  lemma LeafAnswer(weight: Weights, n: nat, exact: bool, row0: set<nat>, cost0: int, lb: int, bound: int)
    requires cost0 < bound
    ensures Answer(weight, n, exact, map[], row0, cost0, lb, bound, true, row0, cost0, {})
  {
    CostEmpty(weight, n);
    assert row0 + {} == row0;
  }

  // ---- Gimpel's reduction

  /** No column of the row has exactly one other row. */
  ghost predicate NoTwice(rows: Rows, i: nat)
    requires i in rows
  {
    forall c :: c in rows[i] ==> |ColRows(rows, c)| != 2
  }

  /** The first row of two elements one of which has just one other row, if there is
      one. */
  method FindGimpel(A: Matrix) returns (found: bool, pr: nat, se: nat, c1: nat, c2: nat)
    requires A.Valid() && Settled(A.rows)
    ensures found ==> GimpelShape(A.rows, pr, se, c1, c2)
    ensures !found ==> forall i :: i in A.rows && |A.rows[i]| == 2 ==> NoTwice(A.rows, i)
  {
    hide ValidRows, ColRows, GimpelShape, NoTwice;
    found, pr, se, c1, c2 := false, 0, 0, 0, 0;
    var i := 0;
    while i < A.rowsSize
      invariant 0 <= i <= A.rowsSize && !found
      invariant forall k :: k in A.rows && k < i && |A.rows[k]| == 2 ==> NoTwice(A.rows, k)
    {
      if i in A.rows && |A.rows[i]| == 2 {
        var lo, hi := TwoColumns(A.rows[i]);
        if |ColRows(A.rows, lo)| == 2 {
          c1, c2, found := lo, hi, true;
        } else if |ColRows(A.rows, hi)| == 2 {
          c1, c2, found := hi, lo, true;
        }
        if found {
          pr := i;
          SecondaryExists(A.rows, pr, c1);
          se :| se in ColRows(A.rows, c1) && se != pr;
          ShapeFound(A.rows, pr, se, c1, c2);
          return;
        }
        NeitherTwice(A.rows, i, lo, hi);
      }
      i := i + 1;
    }
  }

  lemma NeitherTwice(rows: Rows, i: nat, lo: nat, hi: nat)
    requires i in rows && rows[i] == {lo, hi} && |ColRows(rows, lo)| != 2 && |ColRows(rows, hi)| != 2
    ensures NoTwice(rows, i)
  {
    hide ColRows;
  }

  method TwoColumns(row: set<nat>) returns (lo: nat, hi: nat)
    requires |row| == 2
    ensures lo < hi && row == {lo, hi}
  {
    assert row != {};
    var a :| a in row;
    assert |row - {a}| == 1;
    assert row - {a} != {};
    var b :| b in row - {a};
    SubsetCard({a, b}, row);
    lo := if a < b then a else b;
    hi := if a < b then b else a;
  }

  lemma SecondaryExists(rows: Rows, pr: nat, c1: nat)
    requires pr in rows && c1 in rows[pr] && |ColRows(rows, c1)| == 2
    ensures exists se :: se in ColRows(rows, c1) && se != pr
  {
    assert pr in ColRows(rows, c1);
    assert |ColRows(rows, c1) - {pr}| == 1;
    var se := Member(ColRows(rows, c1) - {pr});
  }

  lemma ShapeFound(rows: Rows, pr: nat, se: nat, c1: nat, c2: nat)
    requires Settled(rows) && pr in rows && rows[pr] == {c1, c2} && c1 != c2
    requires |ColRows(rows, c1)| == 2 && se in ColRows(rows, c1) && se != pr
    ensures GimpelShape(rows, pr, se, c1, c2)
  {
    assert c1 in rows[pr];
    assert pr in ColRows(rows, c1);
    SubsetCard({pr, se}, ColRows(rows, c1));
    assert !(rows[pr] <= rows[se]);
    assert |rows[se]| >= 2;
  }

  /** Merge the rest s1 of the secondary row into the other rows of c2. */
  method MergeSecondary(A: Matrix, pr: nat, s1: set<nat>, c2: nat)
    requires A.Valid() && forall c :: c in s1 ==> c < A.colsSize
    modifies A
    ensures A.Valid() && A.rows.Keys == old(A.rows).Keys
    ensures forall i :: i in A.rows ==>
              A.rows[i] == old(A.rows)[i] + if c2 in old(A.rows)[i] && i != pr then s1 else {}
  {
    ghost var rows0 := A.rows;
    var i := 0;
    while i < A.rowsSize
      invariant 0 <= i <= A.rowsSize && A.Valid() && A.rows.Keys == rows0.Keys
      invariant forall k :: k in A.rows ==>
                  A.rows[k] == rows0[k] + if c2 in rows0[k] && k != pr && k < i then s1 else {}
    {
      if i in A.rows && i != pr && c2 in A.rows[i] {
        MergedValid(A, i, s1);
        A.rows := A.rows[i := A.rows[i] + s1];
      }
      i := i + 1;
    }
  }

  lemma MergedValid(A: Matrix, i: nat, s1: set<nat>)
    requires A.Valid() && i in A.rows && forall c :: c in s1 ==> c < A.colsSize
    ensures ValidRows(A.rows[i := A.rows[i] + s1], A.colsSize)
  {
  }

  /** Rewrite the matrix, and delete both columns and both rows. */
  method GimpelRewrite(A: Matrix, pr: nat, se: nat, c1: nat, c2: nat) returns (s1: set<nat>)
    requires A.Valid() && GimpelShape(A.rows, pr, se, c1, c2)
    modifies A
    ensures A.Valid() && s1 == old(A.rows)[se] - {c1}
    ensures A.rows == GimpelRows(old(A.rows), pr, se, c1, c2)
  {
    hide ColRows, ValidRows;
    ghost var rows0 := A.rows;
    s1 := A.rows[se] - {c1};
    RowBelow(A, se);
    NoEmptyRow(A);
    MergeSecondary(A, pr, s1, c2);
    ghost var rows1 := A.rows;
    A.DelCol(c1);
    A.DelCol(c2);
    A.DelRow(pr);
    A.DelRow(se);
    GimpelOps(rows0, rows1, pr, se, c1, c2, A.rows);
  }

  lemma NoEmptyRow(A: Matrix)
    requires A.Valid()
    ensures forall i :: i in A.rows ==> A.rows[i] != {}
  {
  }

  lemma GimpelOps(rows0: Rows, rows1: Rows, pr: nat, se: nat, c1: nat, c2: nat, r: Rows)
    requires GimpelShape(rows0, pr, se, c1, c2)
    requires forall i :: i in rows0 ==> rows0[i] != {}
    requires rows1.Keys == rows0.Keys
    requires forall i :: i in rows1 ==>
               rows1[i] == rows0[i] + if c2 in rows0[i] && i != pr then rows0[se] - {c1} else {}
    requires r == WithoutCol(WithoutCol(rows1, c1), c2) - {pr} - {se}
    ensures r == GimpelRows(rows0, pr, se, c1, c2)
  {
    hide ColRows;
    var g := GimpelRows(rows0, pr, se, c1, c2);
    forall i | i in rows0 && i != pr && i != se
      ensures i in r && r[i] == g[i]
    {
      NotInColumn(rows0, pr, se, c1, c2, i);
      GimpelRowKept(rows0, rows1, pr, se, c1, c2, i);
    }
    assert r.Keys <= rows0.Keys - {pr, se};
  }

  lemma GimpelRowKept(rows0: Rows, rows1: Rows, pr: nat, se: nat, c1: nat, c2: nat, i: nat)
    requires GimpelShape(rows0, pr, se, c1, c2)
    requires i in rows0 && i != pr && i != se && rows0[i] != {} && c1 !in rows0[i]
    requires rows1.Keys == rows0.Keys
    requires rows1[i] == rows0[i] + if c2 in rows0[i] && i != pr then rows0[se] - {c1} else {}
    ensures var r := WithoutCol(WithoutCol(rows1, c1), c2);
            i in r && r[i] == GimpelRows(rows0, pr, se, c1, c2)[i]
  {
    GimpelNonempty(rows0, pr, se, c1, c2);
    var s := Member(rows0[se] - {c1});
    var d := Member(rows0[i]);
    var row := rows1[i];
    var g := GimpelRows(rows0, pr, se, c1, c2)[i];
    if c2 in rows0[i] {
      assert c2 in row - {c1} && s in (row - {c1}) - {c2};
    } else {
      assert d in row - {c1} && d in (row - {c1}) - {c2};
    }
    assert (row - {c1}) - {c2} == g;
  }

  lemma GimpelSmaller(rows: Rows, pr: nat, se: nat, c1: nat, c2: nat)
    requires GimpelShape(rows, pr, se, c1, c2)
    ensures |GimpelRows(rows, pr, se, c1, c2)| < |rows|
    ensures Cols(GimpelRows(rows, pr, se, c1, c2)) <= Cols(rows) - {c1, c2}
  {
    hide ColRows;
    var g := GimpelRows(rows, pr, se, c1, c2);
    assert g.Keys <= rows.Keys && pr in rows.Keys && pr !in g.Keys;
    SubsetCard(g.Keys, rows.Keys);
    assert |g| == |g.Keys| && |rows| == |rows.Keys|;
    forall c | c in Cols(g)
      ensures c in Cols(rows) && c != c1 && c != c2
    {
      var i :| i in g && c in g[i];
      NotInColumn(rows, pr, se, c1, c2, i);
      assert c in rows[i] || c in rows[se];
    }
  }

  lemma GimpelAnswer(n: nat, exact: bool, rows: Rows, row0: set<nat>, cost0: int, pr: nat, se: nat, c1: nat, c2: nat,
      lb: int, bound: int, found: bool, row: set<nat>, cost: int, x: set<nat>, c: nat)
    requires ValidRows(rows, n) && GimpelShape(rows, pr, se, c1, c2) && row0 !! Cols(rows)
    requires Answer(Unit, n, exact, GimpelRows(rows, pr, se, c1, c2), row0, cost0, lb - 1, bound - 1, found, row, cost,
        x)
    requires found ==> c == if Intersects(rows[se] - {c1}, row) then c2 else c1
    ensures Answer(Unit, n, exact, rows, row0, cost0, lb, bound, found,
                   if found then row + {c} else row, if found then cost + 1 else cost, if found then x + {c} else x)
  {
    hide Answer, GimpelRows, ValidRows, GimpelShape, Cols;
    if found {
      GimpelFound(n, exact, rows, row0, cost0, pr, se, c1, c2, lb, bound, row, cost, x, c);
    } else {
      GimpelNone(n, exact, rows, row0, cost0, pr, se, c1, c2, lb, bound, row, cost, x);
    }
  }

  lemma GimpelFound(n: nat, exact: bool, rows: Rows, row0: set<nat>, cost0: int, pr: nat, se: nat, c1: nat, c2: nat,
      lb: int, bound: int, row: set<nat>, cost: int, x: set<nat>, c: nat)
    requires ValidRows(rows, n) && GimpelShape(rows, pr, se, c1, c2) && row0 !! Cols(rows)
    requires Answer(Unit, n, exact, GimpelRows(rows, pr, se, c1, c2), row0, cost0, lb - 1, bound - 1, true, row, cost,
        x)
    requires c == if Intersects(rows[se] - {c1}, row) then c2 else c1
    ensures Answer(Unit, n, exact, rows, row0, cost0, lb, bound, true, row + {c}, cost + 1, x + {c})
  {
    hide Hits, Cost, GimpelRows, AtLeast, ColRows, Cols, ValidRows, GimpelShape, Intersects;
    GimpelColumns(n, rows, pr, se, c1, c2);
    GimpelSmaller(rows, pr, se, c1, c2);
    GimpelBound(n, rows, pr, se, c1, c2, cost + 1 - cost0);
    SelectionApart(rows, se, c1, row0, x, row);
    GimpelExtends(rows, pr, se, c1, c2, x);
    CostInsert(Unit, x, c, n);
    assert row0 + x + {c} == row0 + (x + {c});
  }

  lemma GimpelNone(n: nat, exact: bool, rows: Rows, row0: set<nat>, cost0: int, pr: nat, se: nat, c1: nat, c2: nat,
      lb: int, bound: int, row: set<nat>, cost: int, x: set<nat>)
    requires ValidRows(rows, n) && GimpelShape(rows, pr, se, c1, c2)
    requires Answer(Unit, n, exact, GimpelRows(rows, pr, se, c1, c2), row0, cost0, lb - 1, bound - 1, false, row, cost,
        x)
    ensures Answer(Unit, n, exact, rows, row0, cost0, lb, bound, false, row, cost, x)
  {
    hide Hits, Cost, GimpelRows, AtLeast, ColRows, Cols, ValidRows, GimpelShape;
    GimpelColumns(n, rows, pr, se, c1, c2);
    var g := GimpelRows(rows, pr, se, c1, c2);
    GimpelSmaller(rows, pr, se, c1, c2);
    GimpelBound(n, rows, pr, se, c1, c2, bound - cost0);
    CostInsert(Unit, Cols(g), c1, n);
    CostMono(Unit, Cols(g) + {c1}, Cols(rows), n);
  }

  lemma GimpelColumns(n: nat, rows: Rows, pr: nat, se: nat, c1: nat, c2: nat)
    requires ValidRows(rows, n) && GimpelShape(rows, pr, se, c1, c2)
    ensures se in rows && c1 in Cols(rows) && c2 in Cols(rows) && c1 < n && c2 < n && c1 != c2
  {
    assert c1 in rows[pr] && c2 in rows[pr];
  }

  /** The columns selected before do not occur in the matrix, so looking for s1
      in the whole solution or in its new part makes no difference. */
  lemma SelectionApart(rows: Rows, se: nat, c1: nat, row0: set<nat>, x: set<nat>, row: set<nat>)
    requires se in rows && row0 !! Cols(rows) && row == row0 + x
    ensures Intersects(rows[se] - {c1}, row) <==> Intersects(rows[se] - {c1}, x)
  {
    var s1 := rows[se] - {c1};
    assert s1 <= Cols(rows);
    assert s1 * row == s1 * x;
  }

  // ---- blocks

  lemma BlockAnswer(weight: Weights, n: nat, exact: bool, rows: Rows, l: Rows, r: Rows, row0: set<nat>, cost0: int,
      x1: set<nat>, k1: int, lb: int, bound: int, found: bool, row: set<nat>, cost: int, x: set<nat>)
    requires Blocks(rows, l, r)
    requires Hits(l, x1) && x1 <= Cols(l) && k1 == Cost(weight, x1, n)
    requires exact ==> AtLeast(weight, n, l, k1)
    requires Answer(weight, n, exact, r, row0 + x1, cost0 + k1, lb, bound, found, row, cost, x)
    ensures Answer(weight, n, exact, rows, row0, cost0, lb, bound, found, row, cost,
                   if found then x1 + x else x)
  {
    hide Hits, Cost, AtLeast, Cols, Blocks;
    BlockCols(rows, l, r);
    if exact {
      BlockBound(weight, n, rows, l, r, k1, (if found then cost else bound) - (cost0 + k1));
    }
    if found {
      CostDisjoint(weight, x1, x, n);
      HitsMore(l, x1, x1 + x);
      HitsMore(r, x, x1 + x);
      BlockHits(rows, l, r, x1 + x);
      assert row0 + x1 + x == row0 + (x1 + x);
    } else if !exact {
      CostDisjoint(weight, Cols(l), Cols(r), n);
      CostMono(weight, x1, Cols(l), n);
    }
  }

  lemma BlockNone(weight: Weights, n: nat, exact: bool, rows: Rows, l: Rows, r: Rows, row0: set<nat>, cost0: int,
      lb: int, bound: int, row: set<nat>, cost: int, x: set<nat>)
    requires Blocks(rows, l, r) && cost0 < bound
    requires Answer(weight, n, exact, l, {}, 0, 0, bound - cost0, false, row, cost, x)
    ensures Answer(weight, n, exact, rows, row0, cost0, lb, bound, false, row, cost, x)
  {
    hide Hits, Cost, Cols, Blocks;
    BlockCols(rows, l, r);
    if exact {
      forall y | Hits(rows, y)
        ensures Cost(weight, y, n) >= bound - cost0
      {
        BlockHits(rows, l, r, y);
      }
    } else {
      CostMono(weight, Cols(l), Cols(rows), n);
    }
  }

  lemma BlocksSwap(rows: Rows, l: Rows, r: Rows)
    requires Blocks(rows, l, r)
    ensures Blocks(rows, r, l)
  {
    hide Cols;
  }

  lemma TrivialBound(weight: Weights, n: nat, rows: Rows)
    ensures AtLeast(weight, n, rows, 0)
  {
  }

  // ---- branching

  lemma BranchAnswer(weight: Weights, n: nat, rows: Rows, row0: set<nat>, cost0: int, c: nat, lb: int, bound: int,
      found1: bool, row1: set<nat>, cost1: int, x1: set<nat>, found2: bool, row2: set<nat>, cost2: int, x2: set<nat>,
      first: bool)
    requires c < n && c in Cols(rows) && ValidRows(rows, n) && WithoutCol(rows, c).Keys == rows.Keys
    requires Answer(weight, n, true, Uncovered(rows, c), row0 + {c}, cost0 + WeightOf(weight, c), lb, bound, found1,
        row1, cost1, x1)
    requires Answer(weight, n, true, WithoutCol(rows, c), row0, cost0, lb, if found1 then cost1 else bound, found2,
        row2, cost2, x2)
    requires first == (found1 && (!found2 || cost1 <= cost2))
    ensures Answer(weight, n, true, rows, row0, cost0, lb, bound, found1 || found2,
                   if first then row1 else row2, if first then cost1 else cost2,
                   if first then {c} + x1 else x2)
  {
    hide Hits, Cost, Cols, Uncovered, WithoutCol, AtLeast, ValidRows;
    var k := (if first then cost1 else if found2 then cost2 else bound) - cost0;
    BranchBoth(weight, n, rows, c, k, (if found1 then cost1 else bound) - (cost0 + WeightOf(weight, c)),
      (if found2 then cost2 else if found1 then cost1 else bound) - cost0);
    if first {
      UncoveredFacts(rows, c);
      CostDisjoint(weight, {c}, x1, n);
      CostSingle(weight, c, n);
      assert row0 + {c} + x1 == row0 + ({c} + x1);
    } else {
      WithoutFacts(rows, c);
      ColsWithout(rows, c);
    }
  }

  lemma BranchBoth(weight: Weights, n: nat, rows: Rows, c: nat, k: int, k1: int, k2: int)
    requires c < n && c in Cols(rows) && ValidRows(rows, n) && WithoutCol(rows, c).Keys == rows.Keys
    requires AtLeast(weight, n, Uncovered(rows, c), k1) && AtLeast(weight, n, WithoutCol(rows, c), k2)
    requires k - WeightOf(weight, c) <= k1 && k <= k2
    ensures AtLeast(weight, n, rows, k)
  {
    hide Cols, Uncovered, WithoutCol, AtLeast, ValidRows;
    BranchBound(weight, n, rows, c, k);
    WeakerBound(weight, n, Uncovered(rows, c), k1, k - WeightOf(weight, c));
    WeakerBound(weight, n, WithoutCol(rows, c), k2, k);
  }

  lemma WeakerBound(weight: Weights, n: nat, rows: Rows, k: int, k': int)
    requires AtLeast(weight, n, rows, k) && k' <= k
    ensures AtLeast(weight, n, rows, k')
  {
  }

  /** Stopping after the first branch: always in the heuristic search, and in the
      exact one when the lower bound has been reached. */
  lemma FirstBranch(weight: Weights, n: nat, exact: bool, rows: Rows, row0: set<nat>, cost0: int, c: nat, lb: int,
      lbNew: int, bound: int, found1: bool, row1: set<nat>, cost1: int, x1: set<nat>)
    requires c < n && c in Cols(rows)
    requires Answer(weight, n, exact, Uncovered(rows, c), row0 + {c}, cost0 + WeightOf(weight, c), lbNew, bound, found1,
        row1, cost1, x1)
    requires lbNew < bound && AtLeast(weight, n, rows, lbNew - cost0)
    requires exact ==> found1 && cost1 == lbNew
    ensures Answer(weight, n, exact, rows, row0, cost0, lb, bound, found1, row1, cost1,
                   if found1 then {c} + x1 else x1)
  {
    hide Hits, Cost, Cols, Uncovered, AtLeast;
    UncoveredFacts(rows, c);
    CostSingle(weight, c, n);
    if found1 {
      CostDisjoint(weight, {c}, x1, n);
      assert row0 + {c} + x1 == row0 + ({c} + x1);
    } else {
      CostDisjoint(weight, {c}, Cols(Uncovered(rows, c)), n);
      CostMono(weight, {c} + Cols(Uncovered(rows, c)), Cols(rows), n);
    }
  }

  lemma SettledColumn(rows: Rows, c: nat)
    requires forall i :: i in rows ==> |rows[i]| >= 2
    ensures WithoutCol(rows, c).Keys == rows.Keys
  {
    forall i | i in rows
      ensures i in WithoutCol(rows, c)
    {
      if c in rows[i] {
        assert |rows[i] - {c}| == |rows[i]| - 1;
      } else {
        assert rows[i] - {c} == rows[i];
      }
    }
  }

  lemma BranchSmaller(rows: Rows, c: nat)
    requires c in Cols(rows) && WithoutCol(rows, c).Keys == rows.Keys
    ensures |Uncovered(rows, c)| < |rows|
    ensures |WithoutCol(rows, c)| == |rows| && |Cols(WithoutCol(rows, c))| < |Cols(rows)|
    ensures Cols(Uncovered(rows, c)) <= Cols(rows) - {c}
    ensures Cols(WithoutCol(rows, c)) == Cols(rows) - {c}
  {
    hide Cols, Uncovered, WithoutCol;
    UncoveredFacts(rows, c);
    UncoveredFewer(rows, c);
    ColsWithout(rows, c);
    assert |WithoutCol(rows, c)| == |WithoutCol(rows, c).Keys| == |rows|;
    assert |Cols(rows) - {c}| == |Cols(rows)| - 1;
  }

  lemma UncoveredFewer(rows: Rows, c: nat)
    requires c in Cols(rows)
    ensures |Uncovered(rows, c)| < |rows|
  {
    var i :| i in rows && c in rows[i];
    var u := Uncovered(rows, c);
    assert u.Keys <= rows.Keys && i in rows.Keys && i !in u.Keys;
    SubsetCard(u.Keys, rows.Keys);
    assert |u| == |u.Keys| && |rows| == |rows.Keys|;
  }

  /** Some column of an independent row; which one is a matter of heuristics. */
  method SelectColumn(A: Matrix, indep: Solution) returns (pick: nat)
    requires A.Valid() && indep.row <= A.rows.Keys && indep.row != {}
    ensures pick in Cols(A.rows) && pick < A.colsSize
  {
    var i :| i in indep.row;
    pick :| pick in A.rows[i];
  }

  // ---- the search

  /** Gimpel's reduction, if the matrix has the shape for it: solve the rewritten
      matrix with both bounds one lower and put back one of the two columns. */
  method GimpelReduce(A: Matrix, select: Solution, weight: Weights, lb: int, bound: int, exact: bool)
      returns (applied: bool, best: Solution?, ghost x: set<nat>)
    requires A.Valid() && Settled(A.rows) && weight == Unit
    requires select.row !! Cols(A.rows) && AtLeast(weight, A.colsSize, A.rows, lb - select.cost)
    modifies A, select
    ensures best != null ==> fresh(best)
    ensures applied ==> Answer(weight, A.colsSize, exact || Thin(old(A.rows)), old(A.rows), old(select.row),
              old(select.cost), lb, bound,
              best != null, if best == null then {} else best.row, if best == null then 0 else best.cost, x)
    ensures applied && best != null ==> Small(x, old(A.rows))
    ensures !applied ==>
      A.Valid() && A.rows == old(A.rows) && select.row == old(select.row) && select.cost == old(select.cost)
    ensures !applied ==> forall i :: i in A.rows && |A.rows[i]| == 2 ==> NoTwice(A.rows, i)
    decreases |A.rows|, |Cols(A.rows)|, 0
  {
    hide Answer, Cols, AtLeast, Settled, GimpelShape, GimpelRows, ValidRows, Small, NoTwice, Thin, Easy, EasyCore;
    best, x := null, {};
    var pr, se, c1, c2;
    applied, pr, se, c1, c2 := FindGimpel(A);
    if !applied {
      return;
    }
    ghost var rows0, row0, cost0 := A.rows, select.row, select.cost;
    GimpelColumns(A.colsSize, A.rows, pr, se, c1, c2);
    GimpelSmaller(A.rows, pr, se, c1, c2);
    GimpelBound(A.colsSize, A.rows, pr, se, c1, c2, lb - select.cost);
    ghost var sure := exact || Thin(rows0);
    if Thin(rows0) {
      GimpelEasy(rows0, pr, se, c1, c2);
      EasyIsCore(GimpelRows(rows0, pr, se, c1, c2));
    }
    var s1 := GimpelRewrite(A, pr, se, c1, c2);
    ghost var rows1 := A.rows;
    NoEmptyRow(A);
    best, x := Search(A, select, weight, lb - 1, bound - 1, exact);
    SureAnswer(weight, A.colsSize, Sure(weight, exact, rows1), sure, rows1, row0, cost0, lb - 1, bound - 1,
      best != null, if best == null then {} else best.row, if best == null then 0 else best.cost, x);
    ghost var c := c1;
    ghost var row, cost := {}, 0;
    if best != null {
      row, cost := best.row, best.cost;
      if Intersects(s1, best.row) {
        best.Add(weight, c2);
        c := c2;
      } else {
        best.Add(weight, c1);
      }
    }
    GimpelAnswer(A.colsSize, sure, rows0, row0, cost0, pr, se, c1, c2, lb, bound, best != null, row, cost, x, c);
    if best != null {
      SmallMore(x, c, rows1, rows0);
      x := x + {c};
    }
  }

  /** Solve the smaller block first, then the other one with its solution added
      to the selection. */
  method SolveBlocks(L0: Matrix, R0: Matrix, select: Solution, weight: Weights, lb: int, lbNew: int, bound: int,
      exact: bool, ghost rows: Rows) returns (best: Solution?, ghost x: set<nat>)
    requires L0 != R0 && L0.Valid() && R0.Valid() && L0.colsSize == R0.colsSize
    requires Blocks(rows, L0.rows, R0.rows) && |L0.rows| < |rows| && |R0.rows| < |rows|
    requires select.row !! Cols(rows) && select.cost < bound && lbNew < bound
    requires AtLeast(weight, L0.colsSize, rows, lbNew - select.cost)
    modifies L0, R0, select
    ensures best != null ==> fresh(best)
    ensures Answer(weight, L0.colsSize, exact, rows, old(select.row), old(select.cost), lb, bound,
              best != null, if best == null then {} else best.row, if best == null then 0 else best.cost, x)
    ensures best != null ==> Small(x, rows)
    decreases |rows|, 0, 1
  {
    hide Answer, EasyCore, Cols, AtLeast, Blocks, ValidRows, Small;
    BlocksSwap(rows, L0.rows, R0.rows);
    if |Cols(L0.rows)| > |Cols(R0.rows)| {
      best, x := SolveInOrder(R0, L0, select, weight, lb, lbNew, bound, exact, rows);
    } else {
      best, x := SolveInOrder(L0, R0, select, weight, lb, lbNew, bound, exact, rows);
    }
  }

  method SolveInOrder(L: Matrix, R: Matrix, select: Solution, weight: Weights, lb: int, lbNew: int, bound: int,
      exact: bool, ghost rows: Rows) returns (best: Solution?, ghost x: set<nat>)
    requires L != R && L.Valid() && R.Valid() && L.colsSize == R.colsSize
    requires Blocks(rows, L.rows, R.rows) && |L.rows| < |rows| && |R.rows| < |rows|
    requires select.row !! Cols(rows) && select.cost < bound && lbNew < bound
    requires AtLeast(weight, L.colsSize, rows, lbNew - select.cost)
    modifies L, R, select
    ensures best != null ==> fresh(best)
    ensures Answer(weight, L.colsSize, exact, rows, old(select.row), old(select.cost), lb, bound,
              best != null, if best == null then {} else best.row, if best == null then 0 else best.cost, x)
    ensures best != null ==> Small(x, rows)
    decreases |rows|, 0, 0
  {
    hide Answer, EasyCore, Cols, AtLeast, Blocks, ValidRows, Cost, Hits, Small;
    ghost var n, l, r := L.colsSize, L.rows, R.rows;
    ghost var row0, cost0 := select.row, select.cost;
    TrivialBound(weight, n, l);
    BlocksCount(rows, l, r, n);
    NoEmptyRow(L);
    NoEmptyRow(R);
    var select1 := new Solution({}, 0);
    var best1, x1 := Search(L, select1, weight, 0, bound - select.cost, exact);
    SureAnswer(weight, n, Sure(weight, exact, l), exact, l, {}, 0, 0, bound - cost0, best1 != null,
      if best1 == null then {} else best1.row, if best1 == null then 0 else best1.cost, x1);
    if best1 == null {
      BlockNone(weight, n, exact, rows, l, r, row0, cost0, lb, bound, {}, 0, x1);
      return null, x1;
    }
    BlockFirst(weight, n, exact, rows, l, r, row0, cost0, lbNew, bound, best1.row, best1.cost, x1);
    BlockColsBelow(rows, l, r, x1, L);
    AddSolution(select, weight, best1.row, L.colsSize);
    ghost var row1, cost1 := select.row, select.cost;
    best, x := Search(R, select, weight, lbNew, bound, exact);
    SureAnswer(weight, n, Sure(weight, exact, r), exact, r, row1, cost1, lbNew, bound, best != null,
      if best == null then {} else best.row, if best == null then 0 else best.cost, x);
    BlockSecond(weight, n, exact, rows, l, r, row0, cost0, x1, lb, lbNew, bound, best != null,
      if best == null then {} else best.row, if best == null then 0 else best.cost, x);
    if best != null {
      SmallBlocks(x1, x, rows, l, r);
      x := x1 + x;
    }
  }

  lemma BlocksCount(rows: Rows, l: Rows, r: Rows, n: nat)
    requires Blocks(rows, l, r) && ValidRows(l, n)
    ensures |l| + |r| <= |rows|
  {
    hide Cols;
    forall i | i in l.Keys
      ensures i !in r.Keys
    {
      var c := Member(l[i]);
      assert c in Cols(l) && (i in r ==> c in Cols(r));
    }
    assert |l.Keys + r.Keys| == |l.Keys| + |r.Keys|;
    assert |l| == |l.Keys| && |r| == |r.Keys| && |rows| == |rows.Keys|;
  }

  lemma BlockColsBelow(rows: Rows, l: Rows, r: Rows, x: set<nat>, L: Matrix)
    requires Blocks(rows, l, r) && x <= Cols(l) && ValidRows(l, L.colsSize)
    ensures forall c :: c in x ==> c < L.colsSize
  {
  }

  /** The first block solved, its solution joins the selection. */
  lemma BlockFirst(weight: Weights, n: nat, exact: bool, rows: Rows, l: Rows, r: Rows, row0: set<nat>, cost0: int,
      lbNew: int, bound: int, row: set<nat>, cost: int, x: set<nat>)
    requires Blocks(rows, l, r) && row0 !! Cols(rows)
    requires AtLeast(weight, n, rows, lbNew - cost0)
    requires Answer(weight, n, exact, l, {}, 0, 0, bound - cost0, true, row, cost, x)
    ensures row == x && cost == Cost(weight, x, n) && Hits(l, x) && x <= Cols(l)
    ensures exact ==> AtLeast(weight, n, l, cost)
    ensures AtLeast(weight, n, r, lbNew - (cost0 + cost)) && (row0 + row) !! Cols(r)
  {
    hide Answer, AtLeast, Cost, Hits, Cols, Blocks;
    SolutionFacts(weight, n, exact, l, 0, bound - cost0, row, cost, x);
    BlockRest(weight, n, rows, l, r, x, lbNew - cost0);
    BlockCols(rows, l, r);
  }

  lemma BlockSecond(weight: Weights, n: nat, exact: bool, rows: Rows, l: Rows, r: Rows, row0: set<nat>, cost0: int,
      x1: set<nat>, lb: int, lbNew: int, bound: int, found: bool, row: set<nat>, cost: int, x: set<nat>)
    requires Blocks(rows, l, r) && lbNew < bound
    requires Hits(l, x1) && x1 <= Cols(l)
    requires exact ==> AtLeast(weight, n, l, Cost(weight, x1, n))
    requires Answer(weight, n, exact, r, row0 + x1, cost0 + Cost(weight, x1, n), lbNew, bound, found, row, cost, x)
    ensures Answer(weight, n, exact, rows, row0, cost0, lb, bound, found, row, cost, if found then x1 + x else x)
  {
    hide Answer, AtLeast, Cost, Hits, Cols, Blocks;
    AnswerLb(weight, n, exact, r, row0 + x1, cost0 + Cost(weight, x1, n), lbNew, lb, bound, found, row, cost, x);
    BlockAnswer(weight, n, exact, rows, l, r, row0, cost0, x1, Cost(weight, x1, n), lb, bound, found, row, cost, x);
  }

  /** What a found solution says, starting from the empty selection. */
  lemma SolutionFacts(weight: Weights, n: nat, exact: bool, rows: Rows, lb: int, bound: int, row: set<nat>, cost: int,
      x: set<nat>)
    requires Answer(weight, n, exact, rows, {}, 0, lb, bound, true, row, cost, x)
    ensures row == x && cost == Cost(weight, x, n) && Hits(rows, x) && x <= Cols(rows)
    ensures exact ==> AtLeast(weight, n, rows, cost)
  {
  }

  /** A missing answer under one lower bound is one under another, as long as
      that lower bound stays below the bound. */
  lemma AnswerLb(weight: Weights, n: nat, exact: bool, rows: Rows, row0: set<nat>, cost0: int, lb: int, lb': int,
      bound: int, found: bool, row: set<nat>, cost: int, x: set<nat>)
    requires Answer(weight, n, exact, rows, row0, cost0, lb, bound, found, row, cost, x) && lb < bound
    ensures Answer(weight, n, exact, rows, row0, cost0, lb', bound, found, row, cost, x)
  {
  }

  /** Add every column of a solution to the selection, one after the other. */
  method AddSolution(select: Solution, weight: Weights, row: set<nat>, n: nat)
    requires forall c :: c in row ==> c < n
    modifies select
    ensures select.row == old(select.row) + row
    ensures select.cost == old(select.cost) + Cost(weight, row, n)
  {
    var c := 0;
    while c < n
      invariant 0 <= c <= n
      invariant select.row == old(select.row) + set d | d in row && d < c
      invariant select.cost == old(select.cost) + Cost(weight, row, c)
    {
      if c in row {
        select.Add(weight, c);
      }
      c := c + 1;
    }
  }

  /** Find a best cover of A, given that select is selected already.  The search
      is abandoned as soon as no solution can beat the bound, and a solution
      that meets the lower bound ends it. */
  method Search(A: Matrix, select: Solution, weight: Weights, lb: int, bound: int, exact: bool)
      returns (best: Solution?, ghost x: set<nat>)
    requires A.Valid() && select.row !! Cols(A.rows)
    requires AtLeast(weight, A.colsSize, A.rows, lb - select.cost)
    modifies A, select
    ensures best != null ==> fresh(best)
    ensures Answer(weight, A.colsSize, Sure(weight, exact, old(A.rows)), old(A.rows), old(select.row),
              old(select.cost), lb, bound,
              best != null, if best == null then {} else best.row, if best == null then 0 else best.cost, x)
    ensures best != null ==> Small(x, old(A.rows))
    decreases |A.rows|, |Cols(A.rows)|, 4
  {
    hide Answer, Cols, AtLeast, ValidRows, Selected, Settled, Small, EasyCore, ColsClear;
    ghost var n, rows0, row0, cost0 := A.colsSize, A.rows, select.row, select.cost;
    ghost var e := SelectEssential(A, select, weight, bound);
    ghost var rows, row1, cost1 := A.rows, select.row, select.cost;
    ReducedBounds(weight, n, rows0, row0, cost0, e, rows, row1, cost1, lb);
    NoEmptyRow(A);
    best, x := Branch(A, select, weight, lb, bound, exact);
    SureAnswer(weight, n, Sure(weight, exact, rows), Sure(weight, exact, rows0), rows, row1, cost1, lb, bound,
      best != null, if best == null then {} else best.row, if best == null then 0 else best.cost, x);
    ReducedAnswer(weight, n, Sure(weight, exact, rows0), rows0, row0, cost0, e, rows, row1, cost1, lb, bound,
      best != null, if best == null then {} else best.row, if best == null then 0 else best.cost, x);
    if best != null {
      SmallPaid(e, x, rows, rows0);
      x := e + x;
    }
  }

  /** The search once the matrix has been reduced. */
  method Branch(A: Matrix, select: Solution, weight: Weights, lb: int, bound: int, exact: bool)
      returns (best: Solution?, ghost x: set<nat>)
    requires A.Valid() && select.row !! Cols(A.rows)
    requires select.cost < bound ==> Settled(A.rows) && ColsClear(A.rows, weight)
    requires AtLeast(weight, A.colsSize, A.rows, lb - select.cost)
    modifies A, select
    ensures best != null ==> fresh(best)
    ensures Answer(weight, A.colsSize, Sure(weight, exact, old(A.rows)), old(A.rows), old(select.row),
              old(select.cost), lb, bound, best != null, if best == null then {} else best.row,
              if best == null then 0 else best.cost, x)
    ensures best != null ==> Small(x, old(A.rows))
    decreases |A.rows|, |Cols(A.rows)|, 3
  {
    hide Answer, Cols, AtLeast, ValidRows, Settled, Blocks, EasyCore, ColsClear, Thin, NoTwice, Small;
    best, x := null, {};
    ghost var n, rows, row0, cost0 := A.colsSize, A.rows, select.row, select.cost;
    ghost var sure := Sure(weight, exact, rows);
    NoEmptyRow(A);
    if select.cost >= bound {
      NothingBelow(weight, n, rows, cost0 - cost0);
      BoundedNull(weight, n, sure, rows, row0, cost0, lb, cost0, bound);
      return;
    }
    if weight == Unit {
      var applied;
      applied, best, x := GimpelReduce(A, select, weight, lb, bound, exact);
      if applied {
        SureThin(weight, rows);
        SureAnswer(weight, n, exact || Thin(rows), sure, rows, row0, cost0, lb, bound, best != null,
          if best == null then {} else best.row, if best == null then 0 else best.cost, x);
        return;
      }
      NotEasy(rows);
      best, x := null, {};
    }
    best, x := Divide(A, select, weight, lb, bound, exact);
  }

  /** The search once Gimpel's reduction does not apply either: bound the matrix from
      below, then take it apart or branch. */
  method Divide(A: Matrix, select: Solution, weight: Weights, lb: int, bound: int, exact: bool)
      returns (best: Solution?, ghost x: set<nat>)
    requires A.Valid() && select.row !! Cols(A.rows) && select.cost < bound && Settled(A.rows)
    requires AtLeast(weight, A.colsSize, A.rows, lb - select.cost)
    requires weight == Unit && EasyCore(A.rows) ==> A.rows == map[]
    modifies A, select
    ensures best != null ==> fresh(best)
    ensures Answer(weight, A.colsSize, Sure(weight, exact, old(A.rows)), old(A.rows), old(select.row),
              old(select.cost), lb, bound, best != null,
              if best == null then {} else best.row, if best == null then 0 else best.cost, x)
    ensures best != null ==> Small(x, old(A.rows))
    decreases |A.rows|, |Cols(A.rows)|, 2
  {
    hide Answer, Cols, AtLeast, ValidRows, Settled, Blocks, EasyCore, Small, Near, Independent, LeastSum, Intersects;
    best, x := null, {};
    ghost var n, rows, row0, cost0 := A.colsSize, A.rows, select.row, select.cost;
    ghost var sure := Sure(weight, exact, rows);
    NoEmptyRow(A);
    var indep := MaximalIndependentSet(A, weight);
    var lbNew := if select.cost + indep.cost > lb then select.cost + indep.cost else lb;
    if lbNew >= bound {
      BoundedNull(weight, n, sure, rows, row0, cost0, lb, lbNew, bound);
      return;
    }
    if A.rows == map[] {
      best := new Solution(select.row, select.cost);
      LeafAnswer(weight, n, sure, row0, cost0, lb, bound);
      NoneSmall();
      return;
    }
    var found, L, R := BlockPartition(A);
    if found {
      best, x := SolveBlocks(L, R, select, weight, lb, lbNew, bound, exact, rows);
    } else {
      var pick := SelectColumn(A, indep);
      best, x := Split(A, select, weight, lb, lbNew, bound, exact, pick);
    }
  }

  /** What is left of an easy matrix is thin, */
  lemma SureThin(weight: Weights, rows: Rows)
    requires weight == Unit && Settled(rows) && ColsClear(rows, Unit)
    ensures EasyCore(rows) ==> Thin(rows)
  {
    hide Easy, EasyCore, ColsClear;
    if EasyCore(rows) {
      CoreAlone(rows);
      UnitClear(rows);
      EasyReduced(rows);
    }
  }

  /** and some row of it has a column that is in just one other row. */
  lemma NotEasy(rows: Rows)
    requires Settled(rows) && ColsClear(rows, Unit)
    requires forall i :: i in rows && |rows[i]| == 2 ==> NoTwice(rows, i)
    ensures EasyCore(rows) ==> rows == map[]
  {
    hide EasyCore, ColsClear;
    if EasyCore(rows) && rows != map[] {
      SureThin(Unit, rows);
      var i :| i in rows;
      ThinTwice(rows, i);
    }
  }

  lemma ThinTwice(rows: Rows, i: nat)
    requires Thin(rows) && i in rows
    ensures |rows[i]| == 2 && !NoTwice(rows, i)
  {
    hide ColRows;
    var c := Member(rows[i]);
    assert c in Cols(rows);
  }

  lemma NothingBelow(weight: Weights, n: nat, rows: Rows, k: int)
    requires k <= 0
    ensures AtLeast(weight, n, rows, k)
  {
  }

  lemma BoundedNull(weight: Weights, n: nat, exact: bool, rows: Rows, row0: set<nat>, cost0: int, lb: int, lbNew: int,
      bound: int)
    requires AtLeast(weight, n, rows, lbNew - cost0) && lbNew >= bound
    requires forall i :: i in rows ==> rows[i] != {}
    ensures Answer(weight, n, exact, rows, row0, cost0, lb, bound, false, {}, 0, {})
  {
    BoundedAnswer(weight, n, exact, rows, row0, cost0, lb, lbNew, bound);
  }

  /** Search on the assumption that the picked column is in the cover. */
  method SearchWith(A: Matrix, select: Solution, weight: Weights, lb: int, bound: int, exact: bool, pick: nat)
      returns (best: Solution?, ghost x: set<nat>)
    requires A.Valid() && pick in Cols(A.rows) && |Uncovered(A.rows, pick)| < |A.rows|
    requires select.row !! Cols(A.rows) && Cols(Uncovered(A.rows, pick)) <= Cols(A.rows) - {pick}
    requires AtLeast(weight, A.colsSize, Uncovered(A.rows, pick), lb - select.cost - WeightOf(weight, pick))
    ensures best != null ==> fresh(best)
    ensures Answer(weight, A.colsSize, exact, Uncovered(A.rows, pick), select.row + {pick},
              select.cost + WeightOf(weight, pick), lb, bound,
              best != null, if best == null then {} else best.row, if best == null then 0 else best.cost, x)
    ensures best != null ==> Small(x, Uncovered(A.rows, pick))
    decreases |A.rows|, |Cols(A.rows)|, 0
  {
    hide Answer, EasyCore, Cols, AtLeast, ValidRows, Uncovered, Small;
    var A1 := new Matrix(A.rows, A.rowsSize, A.colsSize);
    var select1 := new Solution(select.row, select.cost);
    select1.Accept(A1, weight, pick);
    NoEmptyRow(A1);
    best, x := Search(A1, select1, weight, lb, bound, exact);
    SureAnswer(weight, A.colsSize, Sure(weight, exact, Uncovered(A.rows, pick)), exact, Uncovered(A.rows, pick),
      select.row + {pick}, select.cost + WeightOf(weight, pick), lb, bound,
      best != null, if best == null then {} else best.row, if best == null then 0 else best.cost, x);
  }

  /** Search on the assumption that it is not. */
  method SearchWithout(A: Matrix, select: Solution, weight: Weights, lb: int, bound: int, exact: bool, pick: nat)
      returns (best: Solution?, ghost x: set<nat>)
    requires A.Valid() && |WithoutCol(A.rows, pick)| == |A.rows|
    requires |Cols(WithoutCol(A.rows, pick))| < |Cols(A.rows)| && Cols(WithoutCol(A.rows, pick)) <= Cols(A.rows)
    requires select.row !! Cols(A.rows)
    requires AtLeast(weight, A.colsSize, WithoutCol(A.rows, pick), lb - select.cost)
    ensures best != null ==> fresh(best)
    ensures Answer(weight, A.colsSize, exact, WithoutCol(A.rows, pick), select.row, select.cost, lb, bound,
              best != null, if best == null then {} else best.row, if best == null then 0 else best.cost, x)
    ensures best != null ==> Small(x, A.rows)
    decreases |A.rows|, |Cols(A.rows)|, 0
  {
    hide Answer, EasyCore, Cols, AtLeast, ValidRows, WithoutCol;
    var A2 := new Matrix(A.rows, A.rowsSize, A.colsSize);
    var select2 := new Solution(select.row, select.cost);
    A2.DelCol(pick);
    NoEmptyRow(A2);
    best, x := Search(A2, select2, weight, lb, bound, exact);
    SureAnswer(weight, A.colsSize, Sure(weight, exact, WithoutCol(A.rows, pick)), exact, WithoutCol(A.rows, pick),
      select.row, select.cost, lb, bound,
      best != null, if best == null then {} else best.row, if best == null then 0 else best.cost, x);
  }

  /** Assume the picked column is in the cover, then, unless that settles the
      matter, that it is not. */
  method Split(A: Matrix, select: Solution, weight: Weights, lb: int, lbNew: int, bound0: int, exact: bool, pick: nat)
      returns (best: Solution?, ghost x: set<nat>)
    requires A.Valid() && Settled(A.rows) && pick in Cols(A.rows) && pick < A.colsSize
    requires select.row !! Cols(A.rows) && lbNew < bound0
    requires AtLeast(weight, A.colsSize, A.rows, lbNew - select.cost)
    ensures best != null ==> fresh(best)
    ensures Answer(weight, A.colsSize, exact, A.rows, select.row, select.cost, lb, bound0,
              best != null, if best == null then {} else best.row, if best == null then 0 else best.cost, x)
    ensures best != null ==> Small(x, A.rows)
    decreases |A.rows|, |Cols(A.rows)|, 1
  {
    hide Answer, EasyCore, Cols, AtLeast, ValidRows, Uncovered, WithoutCol, Small;
    ghost var n, rows, row0, cost0 := A.colsSize, A.rows, select.row, select.cost;
    var bound := bound0;
    SettledColumn(rows, pick);
    BranchSmaller(rows, pick);
    BranchBound(weight, n, rows, pick, lbNew - cost0);
    var best1, x1 := SearchWith(A, select, weight, lbNew, bound, exact, pick);
    ghost var found1 := best1 != null;
    ghost var row1, cost1 := if found1 then best1.row else {}, if found1 then best1.cost else 0;
    if best1 != null && bound > best1.cost {
      bound := best1.cost;
    }
    if !exact || (best1 != null && best1.cost == lbNew) {
      if best1 != null {
        SmallMore(x1, pick, Uncovered(rows, pick), rows);
      }
      FirstBranch(weight, n, exact, rows, row0, cost0, pick, lb, lbNew, bound0, found1, row1, cost1, x1);
      return best1, if found1 then {pick} + x1 else x1;
    }
    var best2, x2 := SearchWithout(A, select, weight, lbNew, bound, exact, pick);
    ghost var found2 := best2 != null;
    ghost var row2, cost2 := if found2 then best2.row else {}, if found2 then best2.cost else 0;
    if best1 != null {
      SmallMore(x1, pick, Uncovered(rows, pick), rows);
    }
    var first := best1 != null && (best2 == null || best1.cost <= best2.cost);
    SplitAnswer(weight, n, rows, row0, cost0, pick, lb, lbNew, bound0, bound, found1, row1, cost1, x1,
      found2, row2, cost2, x2, first);
    best := if first then best1 else best2;
    x := if first then {pick} + x1 else x2;
  }

  lemma SplitAnswer(weight: Weights, n: nat, rows: Rows, row0: set<nat>, cost0: int, c: nat, lb: int, lbNew: int,
      bound: int, bound2: int, found1: bool, row1: set<nat>, cost1: int, x1: set<nat>, found2: bool, row2: set<nat>,
      cost2: int, x2: set<nat>, first: bool)
    requires c < n && c in Cols(rows) && ValidRows(rows, n) && WithoutCol(rows, c).Keys == rows.Keys
    requires Answer(weight, n, true, Uncovered(rows, c), row0 + {c}, cost0 + WeightOf(weight, c), lbNew, bound, found1,
        row1, cost1, x1)
    requires bound2 == if found1 && bound > cost1 then cost1 else bound
    requires Answer(weight, n, true, WithoutCol(rows, c), row0, cost0, lbNew, bound2, found2, row2, cost2, x2)
    requires first == (found1 && (!found2 || cost1 <= cost2))
    ensures Answer(weight, n, true, rows, row0, cost0, lb, bound, found1 || found2,
                   if first then row1 else row2, if first then cost1 else cost2,
                   if first then {c} + x1 else x2)
  {
    hide Answer, EasyCore, Cols, ValidRows, Uncovered, WithoutCol;
    ChosenBound(weight, n, rows, c, row0, cost0, lbNew, bound, found1, row1, cost1, x1, bound2);
    AnswerExact(weight, n, Uncovered(rows, c), row0 + {c}, cost0 + WeightOf(weight, c), lbNew, lb, bound, found1, row1,
        cost1, x1);
    AnswerExact(weight, n, WithoutCol(rows, c), row0, cost0, lbNew, lb, bound2, found2, row2, cost2, x2);
    BranchAnswer(weight, n, rows, row0, cost0, c, lb, bound, found1, row1, cost1, x1, found2, row2, cost2, x2, first);
  }

  lemma ChosenBound(weight: Weights, n: nat, rows: Rows, c: nat, row0: set<nat>, cost0: int, lbNew: int, bound: int,
      found1: bool, row1: set<nat>, cost1: int, x1: set<nat>, bound2: int)
    requires Answer(weight, n, true, Uncovered(rows, c), row0 + {c}, cost0 + WeightOf(weight, c), lbNew, bound, found1,
        row1, cost1, x1)
    requires bound2 == if found1 && bound > cost1 then cost1 else bound
    ensures bound2 == if found1 then cost1 else bound
  {
  }

  lemma AnswerExact(weight: Weights, n: nat, rows: Rows, row0: set<nat>, cost0: int, lb: int, lb': int, bound: int,
      found: bool, row: set<nat>, cost: int, x: set<nat>)
    requires Answer(weight, n, true, rows, row0, cost0, lb, bound, found, row, cost, x)
    ensures Answer(weight, n, true, rows, row0, cost0, lb', bound, found, row, cost, x)
  {
  }

  // ---- the whole covering

  /** A cover of least total weight. */
  ghost predicate IsMinimum(weight: Weights, n: nat, rows: Rows, x: set<nat>) {
    && Hits(rows, x) && x <= Cols(rows)
    && forall y :: Hits(rows, y) ==> Cost(weight, x, n) <= Cost(weight, y, n)
  }

  /** A column set that meets every row, with no more columns than there are rows.  In
      the exact mode it is one of least weight; in the heuristic mode too, if there
      are no weights and the matrix is made of stars, paths and cycles, up to rows
      that contain others.  The input is not changed. */
  method MinimumCover(A: Matrix, weight: Weights, heuristic: bool) returns (cover: set<nat>)
    requires A.Valid()
    ensures Hits(A.rows, cover) && cover <= Cols(A.rows) && |cover| <= |A.rows|
    ensures !heuristic || (weight == Unit && EasyCore(A.rows)) ==> IsMinimum(weight, A.colsSize, A.rows, cover)
    ensures weight == Unit ==> forall core, f :: CoreOf(A.rows, core) && Centred(core, f) ==> |cover| == |f.Values|
  {
    hide Cols, AtLeast, ValidRows, Cost, Hits, EasyCore, CoreOf, Centred;
    if A.rows == map[] {
      EmptyMinimum(weight, A.colsSize, A.rows);
      StarsCounted(A.rows, A.colsSize, weight, {});
      return {};
    }
    var bound := 1;
    var c := 0;
    BoundStep(weight, Cols(A.rows), 0);
    while c < A.colsSize
      invariant 0 <= c <= A.colsSize
      invariant bound == 1 + Cost(weight, Cols(A.rows), c)
    {
      BoundStep(weight, Cols(A.rows), c);
      if c in Cols(A.rows) {
        bound := bound + WeightOf(weight, c);
      }
      c := c + 1;
    }
    var select := new Solution({}, 0);
    var dup := new Matrix(A.rows, A.rowsSize, A.colsSize);
    NothingBelow(weight, A.colsSize, A.rows, 0);
    NoEmptyRow(A);
    AllColumnsHit(A.rows);
    var best, x := Search(dup, select, weight, 0, bound, !heuristic);
    SearchFinds(weight, A.colsSize, Sure(weight, !heuristic, A.rows), A.rows, bound, best != null,
      if best == null then {} else best.row, if best == null then 0 else best.cost, x);
    cover := best.row;
    StarsCounted(A.rows, A.colsSize, weight, cover);
  }

  /** A least cover of stars has one column for each. */
  lemma StarsCounted(rows: Rows, n: nat, weight: Weights, x: set<nat>)
    requires ValidRows(rows, n) && (Sure(weight, false, rows) ==> IsMinimum(weight, n, rows, x))
    ensures weight == Unit ==> forall core, f :: CoreOf(rows, core) && Centred(core, f) ==> |x| == |f.Values|
  {
    hide Cols, Cost, Hits, Easy, CoreOf, Centred;
    forall core: Rows, f: map<nat, nat> | weight == Unit && CoreOf(rows, core) && Centred(core, f)
      ensures |x| == |f.Values|
    {
      CentredEasy(core, f);
      CentresHit(core, f);
      CoreHits(rows, core, f.Values);
      CoreHits(rows, core, x);
      CentresNeeded(core, f, x);
      BelowCols(rows, n);
      CostCard(x, n);
      CostCard(f.Values, n);
    }
  }

  lemma BelowCols(rows: Rows, n: nat)
    requires ValidRows(rows, n)
    ensures forall c :: c in Cols(rows) ==> c < n
  {
  }

  lemma EmptyMinimum(weight: Weights, n: nat, rows: Rows)
    requires rows == map[]
    ensures Hits(rows, {}) && {} <= Cols(rows) && IsMinimum(weight, n, rows, {})
  {
    CostEmpty(weight, n);
  }

  lemma BoundStep(weight: Weights, x: set<nat>, c: nat)
    ensures Cost(weight, x, c + 1) == Cost(weight, x, c) + if c in x then WeightOf(weight, c) else 0
    ensures c == 0 ==> Cost(weight, x, c) == 0
  {
  }

  /** Taking every column stays below the initial bound, so a cover is found. */
  lemma SearchFinds(weight: Weights, n: nat, exact: bool, rows: Rows, bound: int, found: bool, row: set<nat>, cost: int,
      x: set<nat>)
    requires Answer(weight, n, exact, rows, {}, 0, 0, bound, found, row, cost, x)
    requires bound == 1 + Cost(weight, Cols(rows), n)
    requires Hits(rows, Cols(rows))
    ensures found && Hits(rows, row) && row <= Cols(rows) && row == x
    ensures exact ==> IsMinimum(weight, n, rows, row)
  {
    hide Hits, Cols, Answer, AtLeast;
    if found {
      SolutionFacts(weight, n, exact, rows, 0, bound, row, cost, x);
      MinimumFacts(weight, n, rows, exact, row, cost);
    } else {
      NothingFound(weight, n, exact, rows, bound, row, cost, x);
    }
  }

  lemma MinimumFacts(weight: Weights, n: nat, rows: Rows, exact: bool, x: set<nat>, k: int)
    requires exact ==> AtLeast(weight, n, rows, k)
    requires Hits(rows, x) && x <= Cols(rows) && k == Cost(weight, x, n)
    ensures exact ==> IsMinimum(weight, n, rows, x)
  {
  }

  lemma NothingFound(weight: Weights, n: nat, exact: bool, rows: Rows, bound: int, row: set<nat>, cost: int,
      x: set<nat>)
    requires Answer(weight, n, exact, rows, {}, 0, 0, bound, false, row, cost, x)
    requires Hits(rows, Cols(rows)) && 0 < bound
    ensures Cost(weight, Cols(rows), n) >= bound
  {
    hide Hits, Cols;
  }
}
