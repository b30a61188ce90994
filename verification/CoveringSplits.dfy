/** How the covers of a matrix relate to those of its parts: branching on a
    column, independent blocks, independent rows, and Gimpel's reduction. */
module CoveringSplits {
  import opened Counting
  import opened Covering

  // ---- branching on a column

  /** Covers with the column come from the uncovered rows, the others from the
      matrix without it. */
  lemma BranchBound(weight: Weights, n: nat, rows: Rows, c: nat, k: int)
    requires c < n && ValidRows(rows, n) && WithoutCol(rows, c).Keys == rows.Keys
    ensures AtLeast(weight, n, rows, k) <==>
      (AtLeast(weight, n, Uncovered(rows, c), k - WeightOf(weight, c)) && AtLeast(weight, n, WithoutCol(rows, c), k))
  {
    hide Cost, Hits, Uncovered, WithoutCol;
    UncoveredFacts(rows, c);
    WithoutFacts(rows, c);
    CostSingle(weight, c, n);
    if AtLeast(weight, n, rows, k) {
      forall x | Hits(Uncovered(rows, c), x)
        ensures Cost(weight, x, n) >= k - WeightOf(weight, c)
      {
        CostUnion(weight, {c}, x, n);
        assert Hits(rows, {c} + x);
      }
      forall x | Hits(WithoutCol(rows, c), x)
        ensures Cost(weight, x, n) >= k
      {
        assert Hits(rows, x);
      }
    }
    if AtLeast(weight, n, Uncovered(rows, c), k - WeightOf(weight, c)) && AtLeast(weight, n, WithoutCol(rows, c), k) {
      forall y | Hits(rows, y)
        ensures Cost(weight, y, n) >= k
      {
        if c in y {
          assert Hits(Uncovered(rows, c), y - {c});
          CostRemove(weight, y, c, n);
        } else {
          assert Hits(WithoutCol(rows, c), y);
        }
      }
    }
  }

  lemma WithoutFacts(rows: Rows, c: nat)
    requires WithoutCol(rows, c).Keys == rows.Keys
    ensures forall x :: Hits(WithoutCol(rows, c), x) ==> Hits(rows, x)
    ensures forall y :: Hits(rows, y) && c !in y ==> Hits(WithoutCol(rows, c), y)
  {
    forall x | Hits(WithoutCol(rows, c), x)
      ensures Hits(rows, x)
    {
      HitsWider(WithoutCol(rows, c), rows, x);
    }
    forall y | Hits(rows, y) && c !in y
      ensures Hits(WithoutCol(rows, c), y)
    {
      forall i | i in rows
        ensures Intersects(rows[i] - {c}, y)
      {
        assert Intersects(rows[i], y);
        var d := Member(rows[i] * y);
        assert d in (rows[i] - {c}) * y;
      }
    }
  }

  // ---- independent blocks

  /** l and r share the rows out between them and have no column in common. */
  ghost predicate Blocks(rows: Rows, l: Rows, r: Rows) {
    && l.Keys + r.Keys == rows.Keys
    && (forall i :: i in l ==> l[i] == rows[i])
    && (forall i :: i in r ==> r[i] == rows[i])
    && Cols(l) !! Cols(r)
  }

  lemma BlockHits(rows: Rows, l: Rows, r: Rows, x: set<nat>)
    requires Blocks(rows, l, r)
    ensures Hits(rows, x) <==> Hits(l, x) && Hits(r, x)
  {
    hide Intersects, Cols;
    if Hits(l, x) && Hits(r, x) {
      forall i | i in rows
        ensures Intersects(rows[i], x)
      {
        assert i in l || i in r;
      }
    }
    if Hits(rows, x) {
      forall i | i in l
        ensures Intersects(l[i], x)
      {
        assert i in rows;
      }
      forall i | i in r
        ensures Intersects(r[i], x)
      {
        assert i in rows;
      }
    }
  }

  lemma HitsRestrict(rows: Rows, x: set<nat>, cols: set<nat>)
    requires Hits(rows, x) && Cols(rows) <= cols
    ensures Hits(rows, x * cols)
  {
    forall i | i in rows
      ensures Intersects(rows[i], x * cols)
    {
      assert Intersects(rows[i], x);
      var c := Member(rows[i] * x);
      assert c in Cols(rows);
      assert c in rows[i] * (x * cols);
    }
  }

  lemma HitsMore(rows: Rows, x: set<nat>, y: set<nat>)
    requires Hits(rows, x) && x <= y
    ensures Hits(rows, y)
  {
    forall i | i in rows
      ensures Intersects(rows[i], y)
    {
      assert Intersects(rows[i], x);
      var c := Member(rows[i] * x);
      assert c in rows[i] * y;
    }
  }

  /** The bounds of the blocks add up. */
  lemma BlockBound(weight: Weights, n: nat, rows: Rows, l: Rows, r: Rows, k1: int, k2: int)
    requires Blocks(rows, l, r)
    requires AtLeast(weight, n, l, k1) && AtLeast(weight, n, r, k2)
    ensures AtLeast(weight, n, rows, k1 + k2)
  {
    hide Hits, Cost, Blocks;
    BlockCols(rows, l, r);
    forall y | Hits(rows, y)
      ensures Cost(weight, y, n) >= k1 + k2
    {
      BlockHits(rows, l, r, y);
      var a, b := y * Cols(l), y * Cols(r);
      HitsRestrict(l, y, Cols(l));
      HitsRestrict(r, y, Cols(r));
      CostDisjoint(weight, a, b, n);
      CostMono(weight, a + b, y, n);
    }
  }

  lemma BlockCols(rows: Rows, l: Rows, r: Rows)
    requires Blocks(rows, l, r)
    ensures Cols(l) !! Cols(r) && Cols(l) + Cols(r) == Cols(rows)
  {
    forall c | c in Cols(rows)
      ensures c in Cols(l) || c in Cols(r)
    {
      var i :| i in rows && c in rows[i];
      assert i in l || i in r;
    }
    forall c | c in Cols(l)
      ensures c in Cols(rows)
    {
      var i :| i in l && c in l[i];
      assert i in rows;
    }
    forall c | c in Cols(r)
      ensures c in Cols(rows)
    {
      var i :| i in r && c in r[i];
      assert i in rows;
    }
  }

  /** A lower bound for the whole, less the weight of a cover of one block,
      bounds the other block. */
  lemma BlockRest(weight: Weights, n: nat, rows: Rows, l: Rows, r: Rows, x: set<nat>, k: int)
    requires Blocks(rows, l, r) && Hits(l, x) && AtLeast(weight, n, rows, k)
    ensures AtLeast(weight, n, r, k - Cost(weight, x, n))
  {
    hide Hits, Cost, Blocks;
    forall y | Hits(r, y)
      ensures Cost(weight, y, n) >= k - Cost(weight, x, n)
    {
      HitsMore(l, x, x + y);
      HitsMore(r, y, x + y);
      BlockHits(rows, l, r, x + y);
      CostUnion(weight, x, y, n);
    }
  }

  // ---- independent rows

  /** Adding a row disjoint from those counted so far: a cover pays at least the
      lightest column of the row on top. */
  lemma IndependentStep(weight: Weights, n: nat, row: set<nat>, u: set<nat>, k: int, least: nat, y: set<nat>)
    requires u !! row && (forall c :: c in row ==> c < n && WeightOf(weight, c) >= least)
    requires Intersects(row, y) && k <= Cost(weight, y * u, n)
    ensures k + least <= Cost(weight, y * (u + row), n)
  {
    var c := Member(row * y);
    CostSingle(weight, c, n);
    CostMono(weight, {c}, y * row, n);
    CostDisjoint(weight, y * u, y * row, n);
    assert y * (u + row) == y * u + y * row;
  }

  // ---- Gimpel's reduction

  /** Row pr is {c1, c2}, and c1 occurs otherwise only in row se, without c2. */
  ghost predicate GimpelShape(rows: Rows, pr: nat, se: nat, c1: nat, c2: nat) {
    && pr in rows && se in rows && pr != se && c1 != c2
    && rows[pr] == {c1, c2}
    && ColRows(rows, c1) == {pr, se}
    && c2 !in rows[se] && rows[se] != {c1}
  }

  /** The rest s1 of row se merged into the other rows of c2, and the two rows
      and two columns deleted. */
  function GimpelRows(rows: Rows, pr: nat, se: nat, c1: nat, c2: nat): Rows
    requires se in rows
  {
    map i | i in rows && i != pr && i != se ::
      if c2 in rows[i] then (rows[i] + rows[se]) - {c1, c2} else rows[i]
  }

  /** A cover of the rewritten matrix extends by c2 if it meets s1, else by c1. */
  lemma GimpelExtends(rows: Rows, pr: nat, se: nat, c1: nat, c2: nat, x: set<nat>)
    requires GimpelShape(rows, pr, se, c1, c2) && Hits(GimpelRows(rows, pr, se, c1, c2), x)
    ensures Hits(rows, x + {if Intersects(rows[se] - {c1}, x) then c2 else c1})
  {
    var s1 := rows[se] - {c1};
    var r1 := GimpelRows(rows, pr, se, c1, c2);
    var y := x + {if Intersects(s1, x) then c2 else c1};
    forall i | i in rows
      ensures Intersects(rows[i], y)
    {
      if i == pr {
        assert (if Intersects(s1, x) then c2 else c1) in rows[pr] * y;
      } else if i == se {
        GimpelSecond(rows, pr, se, c1, c2, x, y);
      } else {
        assert Intersects(r1[i], x);
        var d := Member(r1[i] * x);
        if d in rows[i] {
          assert d in rows[i] * y;
        } else {
          assert d in s1 * x;
          assert c2 in rows[i] * y;
        }
      }
    }
  }

  lemma GimpelSecond(rows: Rows, pr: nat, se: nat, c1: nat, c2: nat, x: set<nat>, y: set<nat>)
    requires GimpelShape(rows, pr, se, c1, c2)
    requires y == x + {if Intersects(rows[se] - {c1}, x) then c2 else c1}
    ensures Intersects(rows[se], y)
  {
    var s1 := rows[se] - {c1};
    if Intersects(s1, x) {
      var d := Member(s1 * x);
      assert d in rows[se] * y;
    } else {
      assert se in ColRows(rows, c1);
      assert c1 in rows[se] * y;
    }
  }

  /** Every cover of the matrix yields a cover of the rewritten one with a
      column less. */
  lemma GimpelShrinks(n: nat, rows: Rows, pr: nat, se: nat, c1: nat, c2: nat, y: set<nat>)
    requires ValidRows(rows, n) && GimpelShape(rows, pr, se, c1, c2) && Hits(rows, y)
    ensures Within(Unit, n, GimpelRows(rows, pr, se, c1, c2), 1, Cost(Unit, y, n))
  {
    hide Hits, GimpelRows, Cost, ColRows;
    var r1 := GimpelRows(rows, pr, se, c1, c2);
    assert c1 < n && c2 < n by { assert c1 in rows[pr] && c2 in rows[pr]; }
    var base := y - {c1, c2};
    if c1 in y && c2 in y {
      GimpelNonempty(rows, pr, se, c1, c2);
      var s := Member(rows[se] - {c1});
      GimpelBoth(rows, pr, se, c1, c2, y, s);
      CostRemove(Unit, y, c1, n);
      CostRemove(Unit, y - {c1}, c2, n);
      assert y - {c1} - {c2} == base;
      CostUnion(Unit, base, {s}, n);
      CostSingle(Unit, s, n);
      IsCheap(Unit, n, r1, 1, Cost(Unit, y, n), base + {s});
    } else {
      GimpelPrimary(rows, pr, se, c1, c2, y);
      GimpelOne(rows, pr, se, c1, c2, y);
      var c := if c1 in y then c1 else c2;
      CostRemove(Unit, y, c, n);
      assert y - {c} == base;
      IsCheap(Unit, n, r1, 1, Cost(Unit, y, n), base);
    }
  }

  lemma GimpelNonempty(rows: Rows, pr: nat, se: nat, c1: nat, c2: nat)
    requires GimpelShape(rows, pr, se, c1, c2)
    ensures rows[se] - {c1} != {}
  {
    assert se in ColRows(rows, c1);
    SubsetCard({c1}, rows[se]);
    assert |rows[se] - {c1}| == |rows[se]| - 1;
  }

  lemma GimpelPrimary(rows: Rows, pr: nat, se: nat, c1: nat, c2: nat, y: set<nat>)
    requires GimpelShape(rows, pr, se, c1, c2) && Hits(rows, y)
    ensures c1 in y || c2 in y
  {
    assert Intersects(rows[pr], y);
    var d := Member(rows[pr] * y);
  }

  lemma NotInColumn(rows: Rows, pr: nat, se: nat, c1: nat, c2: nat, i: nat)
    requires GimpelShape(rows, pr, se, c1, c2) && i in rows && i != pr && i != se
    ensures c1 !in rows[i]
  {
    assert i in ColRows(rows, c1) <==> c1 in rows[i];
  }

  lemma GimpelBoth(rows: Rows, pr: nat, se: nat, c1: nat, c2: nat, y: set<nat>, s: nat)
    requires GimpelShape(rows, pr, se, c1, c2) && Hits(rows, y) && s in rows[se] - {c1}
    ensures Hits(GimpelRows(rows, pr, se, c1, c2), (y - {c1, c2}) + {s})
  {
    hide ColRows;
    var r1 := GimpelRows(rows, pr, se, c1, c2);
    var x := (y - {c1, c2}) + {s};
    forall i | i in r1
      ensures Intersects(r1[i], x)
    {
      if c2 in rows[i] {
        assert s in r1[i] * x;
      } else {
        NotInColumn(rows, pr, se, c1, c2, i);
        assert Intersects(rows[i], y);
        var d := Member(rows[i] * y);
        assert d in r1[i] * x;
      }
    }
  }

  lemma GimpelOne(rows: Rows, pr: nat, se: nat, c1: nat, c2: nat, y: set<nat>)
    requires GimpelShape(rows, pr, se, c1, c2) && Hits(rows, y) && !(c1 in y && c2 in y)
    ensures Hits(GimpelRows(rows, pr, se, c1, c2), y - {c1, c2})
  {
    hide ColRows;
    var r1 := GimpelRows(rows, pr, se, c1, c2);
    var x := y - {c1, c2};
    forall i | i in r1
      ensures Intersects(r1[i], x)
    {
      NotInColumn(rows, pr, se, c1, c2, i);
      assert Intersects(rows[i], y) && Intersects(rows[se], y);
      var d := Member(rows[i] * y);
      if d != c2 {
        assert d in r1[i] * x;
      } else {
        var e := Member(rows[se] * y);
        assert e in r1[i] * x;
      }
    }
  }

  /** The optimum of the matrix is that of the rewritten one plus 1. */
  lemma GimpelBound(n: nat, rows: Rows, pr: nat, se: nat, c1: nat, c2: nat, k: int)
    requires ValidRows(rows, n) && GimpelShape(rows, pr, se, c1, c2)
    ensures AtLeast(Unit, n, rows, k) <==> AtLeast(Unit, n, GimpelRows(rows, pr, se, c1, c2), k - 1)
  {
    hide Hits, Cost, GimpelRows, Within;
    var r1 := GimpelRows(rows, pr, se, c1, c2);
    if AtLeast(Unit, n, rows, k) {
      forall x | Hits(r1, x)
        ensures Cost(Unit, x, n) >= k - 1
      {
        GimpelExtends(rows, pr, se, c1, c2, x);
        var c := if Intersects(rows[se] - {c1}, x) then c2 else c1;
        CostUnion(Unit, x, {c}, n);
        CostSingle(Unit, c, n);
      }
    }
    if AtLeast(Unit, n, r1, k - 1) {
      forall y | Hits(rows, y)
        ensures Cost(Unit, y, n) >= k
      {
        GimpelShrinks(n, rows, pr, se, c1, c2, y);
        var x := CheapCover(Unit, n, r1, 1, Cost(Unit, y, n));
      }
    }
  }
}
