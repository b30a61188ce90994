/** The unate covering problem: choose columns of least total weight that meet
    every row.  This module holds the mathematics; Mincov holds the search. */
module Covering {
  import opened Counting

  /** Row number to the columns of the row. */
  type Rows = map<nat, set<nat>>

  /** The weight table; without one every column weighs 1. */
  datatype Weights = Unit | Table(w: seq<nat>)

  function WeightOf(weight: Weights, c: nat): nat {
    match weight
    case Unit => 1
    case Table(w) => if c < |w| then w[c] else 0
  }

  /** Total weight of the columns below n in x. */
  ghost function Cost(weight: Weights, x: set<nat>, n: nat): nat {
    if n == 0 then 0
    else Cost(weight, x, n - 1) + if n - 1 in x then WeightOf(weight, n - 1) else 0
  }

  function Cols(rows: Rows): (cols: set<nat>)
    ensures forall c :: c in cols <==> exists i :: i in rows && c in rows[i]
  {
    set i, c | i in rows && c in rows[i] :: c
  }

  /** The rows that hold column c. */
  function ColRows(rows: Rows, c: nat): (r: set<nat>)
    ensures forall i :: i in r <==> i in rows && c in rows[i]
  {
    set i | i in rows && c in rows[i]
  }

  predicate Intersects(a: set<nat>, b: set<nat>) {
    a * b != {}
  }

  /** x meets every row. */
  ghost predicate Hits(rows: Rows, x: set<nat>) {
    forall i :: i in rows ==> Intersects(rows[i], x)
  }

  /** No row is empty and all columns are below n. */
  ghost predicate ValidRows(rows: Rows, n: nat) {
    forall i :: i in rows ==> rows[i] != {} && forall c :: c in rows[i] ==> c < n
  }

  /** Every cover of the rows weighs at least k. */
  ghost predicate AtLeast(weight: Weights, n: nat, rows: Rows, k: int) {
    forall y :: Hits(rows, y) ==> Cost(weight, y, n) >= k
  }

  // ---- weights of sets

  lemma {:induction false} CostMono(weight: Weights, x: set<nat>, y: set<nat>, n: nat)
    requires x <= y
    ensures Cost(weight, x, n) <= Cost(weight, y, n)
  {
    if n > 0 {
      CostMono(weight, x, y, n - 1);
    }
  }

  lemma {:induction false} CostDisjoint(weight: Weights, x: set<nat>, y: set<nat>, n: nat)
    requires x !! y
    ensures Cost(weight, x + y, n) == Cost(weight, x, n) + Cost(weight, y, n)
  {
    if n > 0 {
      CostDisjoint(weight, x, y, n - 1);
    }
  }

  lemma {:induction false} CostUnion(weight: Weights, x: set<nat>, y: set<nat>, n: nat)
    ensures Cost(weight, x + y, n) <= Cost(weight, x, n) + Cost(weight, y, n)
  {
    if n > 0 {
      CostUnion(weight, x, y, n - 1);
    }
  }

  lemma {:induction false} CostSingle(weight: Weights, c: nat, n: nat)
    ensures Cost(weight, {c}, n) == if c < n then WeightOf(weight, c) else 0
  {
    if n > 0 {
      CostSingle(weight, c, n - 1);
    }
  }

  lemma {:induction false} CostEmpty(weight: Weights, n: nat)
    ensures Cost(weight, {}, n) == 0
  {
    if n > 0 {
      CostEmpty(weight, n - 1);
    }
  }

  lemma CostInsert(weight: Weights, x: set<nat>, c: nat, n: nat)
    requires c !in x && c < n
    ensures Cost(weight, x + {c}, n) == Cost(weight, x, n) + WeightOf(weight, c)
  {
    CostDisjoint(weight, x, {c}, n);
    CostSingle(weight, c, n);
  }

  lemma CostRemove(weight: Weights, x: set<nat>, c: nat, n: nat)
    requires c in x && c < n
    ensures Cost(weight, x - {c}, n) == Cost(weight, x, n) - WeightOf(weight, c)
  {
    assert x == (x - {c}) + {c};
    CostInsert(weight, x - {c}, c, n);
  }

  // ---- reductions

  /** Some cover of the rows weighs at most b - k. */
  ghost predicate Within(weight: Weights, n: nat, rows: Rows, k: int, b: int) {
    exists y :: Hits(rows, y) && k + Cost(weight, y, n) <= b
  }

  lemma CheapCover(weight: Weights, n: nat, rows: Rows, k: int, b: int) returns (y: set<nat>)
    requires Within(weight, n, rows, k, b)
    ensures Hits(rows, y) && k + Cost(weight, y, n) <= b
  {
    y :| Hits(rows, y) && k + Cost(weight, y, n) <= b;
  }

  lemma IsCheap(weight: Weights, n: nat, rows: Rows, k: int, b: int, y: set<nat>)
    requires Hits(rows, y) && k + Cost(weight, y, n) <= b
    ensures Within(weight, n, rows, k, b)
  {
  }

  /** The rows r0 have been reduced to r1 by selecting the columns e: covers of
      r1 extend to covers of r0 by e, and no cover of r0 is cheaper than that. */
  ghost predicate Reduces(weight: Weights, n: nat, r0: Rows, e: set<nat>, r1: Rows) {
    && e <= Cols(r0) && Cols(r1) <= Cols(r0) && e !! Cols(r1)
    && (forall x :: Hits(r1, x) ==> Hits(r0, e + x))
    && (forall y :: Hits(r0, y) ==> Within(weight, n, r1, Cost(weight, e, n), Cost(weight, y, n)))
  }

  lemma ReducesSelf(weight: Weights, n: nat, r: Rows)
    ensures Reduces(weight, n, r, {}, r)
  {
    CostEmpty(weight, n);
    forall x | Hits(r, x)
      ensures Hits(r, {} + x)
    {
      assert {} + x == x;
    }
    forall y | Hits(r, y)
      ensures Within(weight, n, r, Cost(weight, {}, n), Cost(weight, y, n))
    {
    }
  }

  lemma ReducesTrans(weight: Weights, n: nat, r0: Rows, e1: set<nat>, r1: Rows, e2: set<nat>, r2: Rows)
    requires Reduces(weight, n, r0, e1, r1) && Reduces(weight, n, r1, e2, r2)
    ensures Reduces(weight, n, r0, e1 + e2, r2)
  {
    hide Cols, Hits, Cost, Within;
    CostDisjoint(weight, e1, e2, n);
    forall x | Hits(r2, x)
      ensures Hits(r0, (e1 + e2) + x)
    {
      assert e1 + (e2 + x) == (e1 + e2) + x;
      assert Hits(r1, e2 + x);
    }
    forall y | Hits(r0, y)
      ensures Within(weight, n, r2, Cost(weight, e1 + e2, n), Cost(weight, y, n))
    {
      var y1 := CheapCover(weight, n, r1, Cost(weight, e1, n), Cost(weight, y, n));
      var y2 := CheapCover(weight, n, r2, Cost(weight, e2, n), Cost(weight, y1, n));
      IsCheap(weight, n, r2, Cost(weight, e1 + e2, n), Cost(weight, y, n), y2);
    }
  }

  /** Two reductions that select nothing. */
  lemma ReducesOn(weight: Weights, n: nat, r0: Rows, r1: Rows, r2: Rows)
    requires Reduces(weight, n, r0, {}, r1) && Reduces(weight, n, r1, {}, r2)
    ensures Reduces(weight, n, r0, {}, r2)
  {
    hide Reduces;
    var none: set<nat> := {};
    ReducesTrans(weight, n, r0, none, r1, none, r2);
    assert none + none == none;
  }

  /** A bound on the covers of r0 carries over to those of r1, and back. */
  lemma ReducesBound(weight: Weights, n: nat, r0: Rows, e: set<nat>, r1: Rows, k: int)
    requires Reduces(weight, n, r0, e, r1)
    ensures AtLeast(weight, n, r0, k) <==> AtLeast(weight, n, r1, k - Cost(weight, e, n))
  {
    hide Cols, Hits, Cost, Within;
    if AtLeast(weight, n, r0, k) {
      forall x | Hits(r1, x)
        ensures Cost(weight, x, n) >= k - Cost(weight, e, n)
      {
        CostUnion(weight, e, x, n);
        assert Hits(r0, e + x);
      }
    }
    if AtLeast(weight, n, r1, k - Cost(weight, e, n)) {
      forall y | Hits(r0, y)
        ensures Cost(weight, y, n) >= k
      {
        var y1 := CheapCover(weight, n, r1, Cost(weight, e, n), Cost(weight, y, n));
      }
    }
  }

  /** A row that contains another row can go. */
  lemma RowDominated(weight: Weights, n: nat, rows: Rows, i: nat, k: nat)
    requires i in rows && k in rows && i != k && rows[i] <= rows[k]
    ensures Reduces(weight, n, rows, {}, rows - {k})
  {
    var r1 := rows - {k};
    CostEmpty(weight, n);
    assert Cols(r1) <= Cols(rows);
    forall x | Hits(r1, x)
      ensures Hits(rows, {} + x)
    {
      assert {} + x == x;
      assert i in r1 && Intersects(r1[i], x);
      var c := Member(rows[i] * x);
      assert c in rows[k] * x;
      forall j | j in rows
        ensures Intersects(rows[j], x)
      {
        if j != k {
          assert j in r1;
        }
      }
    }
    forall y | Hits(rows, y)
      ensures Within(weight, n, r1, Cost(weight, {}, n), Cost(weight, y, n))
    {
      assert Hits(r1, y);
    }
  }

  /** The rows with column c taken out; rows that become empty disappear. */
  function WithoutCol(rows: Rows, c: nat): Rows {
    map i | i in rows && rows[i] - {c} != {} :: rows[i] - {c}
  }

  /** A column whose rows all hold another, no heavier column can go. */
  lemma ColDominated(weight: Weights, n: nat, rows: Rows, p: nat, q: nat)
    requires ValidRows(rows, n) && p != q && p in Cols(rows) && WeightOf(weight, q) <= WeightOf(weight, p)
    requires ColRows(rows, p) <= ColRows(rows, q)
    ensures WithoutCol(rows, p).Keys == rows.Keys
    ensures Reduces(weight, n, rows, {}, WithoutCol(rows, p))
  {
    var r1 := WithoutCol(rows, p);
    forall i | i in rows
      ensures i in r1
    {
      if p in rows[i] {
        assert i in ColRows(rows, p);
        assert q in rows[i] - {p};
      } else {
        assert rows[i] - {p} == rows[i];
      }
    }
    CostEmpty(weight, n);
    ColsWithout(rows, p);
    forall x | Hits(r1, x)
      ensures Hits(rows, {} + x)
    {
      assert {} + x == x;
      HitsWider(r1, rows, x);
    }
    var i :| i in rows && p in rows[i];
    assert i in ColRows(rows, q);
    forall y | Hits(rows, y)
      ensures Within(weight, n, r1, Cost(weight, {}, n), Cost(weight, y, n))
    {
      var y' := if p in y then (y - {p}) + {q} else y;
      ColSwap(weight, n, rows, p, q, y, y');
    }
  }

  lemma ColsWithout(rows: Rows, c: nat)
    ensures Cols(WithoutCol(rows, c)) == Cols(rows) - {c}
  {
    forall d | d in Cols(rows) && d != c
      ensures d in Cols(WithoutCol(rows, c))
    {
      var i :| i in rows && d in rows[i];
      assert d in rows[i] - {c};
      assert i in WithoutCol(rows, c);
    }
  }

  lemma HitsWider(r1: Rows, r0: Rows, x: set<nat>)
    requires r1.Keys == r0.Keys && forall i :: i in r1 ==> r1[i] <= r0[i]
    requires Hits(r1, x)
    ensures Hits(r0, x)
  {
    forall i | i in r0
      ensures Intersects(r0[i], x)
    {
      assert Intersects(r1[i], x);
      var c := Member(r1[i] * x);
      assert c in r0[i] * x;
    }
  }

  lemma ColSwap(weight: Weights, n: nat, rows: Rows, p: nat, q: nat, y: set<nat>, y': set<nat>)
    requires p != q && p < n && q < n && WeightOf(weight, q) <= WeightOf(weight, p)
    requires ColRows(rows, p) <= ColRows(rows, q)
    requires Hits(rows, y) && y' == if p in y then (y - {p}) + {q} else y
    ensures Hits(WithoutCol(rows, p), y') && Cost(weight, y', n) <= Cost(weight, y, n)
  {
    var r1 := WithoutCol(rows, p);
    forall i | i in r1
      ensures Intersects(r1[i], y')
    {
      assert Intersects(rows[i], y);
      var c := Member(rows[i] * y);
      if c == p {
        assert i in ColRows(rows, p);
        assert q in r1[i] * y';
      } else {
        assert c in r1[i] * y';
      }
    }
    if p in y {
      CostRemove(weight, y, p, n);
      CostUnion(weight, y - {p}, {q}, n);
      CostSingle(weight, q, n);
    }
  }

  /** The rows left when column c has been selected. */
  function Uncovered(rows: Rows, c: nat): Rows {
    map i | i in rows && c !in rows[i] :: rows[i]
  }

  lemma UncoveredFacts(rows: Rows, c: nat)
    ensures Cols(Uncovered(rows, c)) <= Cols(rows) - {c}
    ensures forall x :: Hits(Uncovered(rows, c), x) ==> Hits(rows, {c} + x)
    ensures forall y :: Hits(rows, y) ==> Hits(Uncovered(rows, c), y - {c})
  {
    var r1 := Uncovered(rows, c);
    forall x | Hits(r1, x)
      ensures Hits(rows, {c} + x)
    {
      forall i | i in rows
        ensures Intersects(rows[i], {c} + x)
      {
        if c in rows[i] {
          assert c in rows[i] * ({c} + x);
        } else {
          assert i in r1 && Intersects(r1[i], x);
          var d := Member(rows[i] * x);
          assert d in rows[i] * ({c} + x);
        }
      }
    }
    forall y | Hits(rows, y)
      ensures Hits(r1, y - {c})
    {
      forall i | i in r1
        ensures Intersects(r1[i], y - {c})
      {
        assert Intersects(rows[i], y);
        var d := Member(rows[i] * y);
        assert d in r1[i] * (y - {c});
      }
    }
  }

  /** The only column of some row must be selected. */
  lemma Essential(weight: Weights, n: nat, rows: Rows, c: nat, i: nat)
    requires ValidRows(rows, n) && i in rows && rows[i] == {c}
    ensures Reduces(weight, n, rows, {c}, Uncovered(rows, c))
  {
    hide Hits, Cost, Within, Uncovered;
    var r1 := Uncovered(rows, c);
    UncoveredFacts(rows, c);
    assert c in rows[i];
    CostSingle(weight, c, n);
    forall y | Hits(rows, y)
      ensures Within(weight, n, r1, Cost(weight, {c}, n), Cost(weight, y, n))
    {
      SingletonHit(rows, i, c, y);
      CostRemove(weight, y, c, n);
      IsCheap(weight, n, r1, Cost(weight, {c}, n), Cost(weight, y, n), y - {c});
    }
  }

  lemma SingletonHit(rows: Rows, i: nat, c: nat, y: set<nat>)
    requires i in rows && rows[i] == {c} && Hits(rows, y)
    ensures c in y
  {
    assert Intersects(rows[i], y);
    var d := Member(rows[i] * y);
  }
}
