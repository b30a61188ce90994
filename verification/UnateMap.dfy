/** From a unate cube list to a family of sets and back. */
module UnateMap {
  import opened Cubes
  import opened Counting
  import opened CubeLists
  import opened Families
  import Unate

  /** The variables below n that some cube leaves a part of out. */
  ghost function ActiveVars(s: Space, T: CubeList, n: nat): (vs: seq<nat>)
    requires n <= |s.sizes|
    ensures forall j :: 0 <= j < |vs| ==> vs[j] < n
    ensures |vs| <= n
  {
    if n == 0 then []
    else if ActiveParts(s, T, n - 1) != {} then ActiveVars(s, T, n - 1) + [n - 1]
    else ActiveVars(s, T, n - 1)
  }

  ghost predicate UnateList(s: Space, T: CubeList) {
    forall v :: 0 <= v < |s.sizes| ==> |ActiveParts(s, T, v)| <= 1
  }

  /** The columns are the active parts, the j-th one in the j-th active variable. */
  ghost predicate ColumnsOf(s: Space, T: CubeList, cols: seq<Part>) {
    && |cols| == |ActiveVars(s, T, |s.sizes|)|
    && (forall j :: 0 <= j < |cols| ==> cols[j].v == ActiveVars(s, T, |s.sizes|)[j])
    && (forall j :: 0 <= j < |cols| ==> cols[j].v < |s.sizes| && cols[j] in ActiveParts(s, T, cols[j].v))
    && (forall v, p :: 0 <= v < |s.sizes| && p in ActiveParts(s, T, v) ==> p in cols)
  }

  /** While looking at variable v, before its value k. */
  ghost predicate ColumnsSoFar(s: Space, T: CubeList, v: nat, k: nat, cols: seq<Part>)
    requires v <= |s.sizes|
  {
    && |cols| == |ActiveVars(s, T, v)| + (if v < |s.sizes| then |PartsBelow(ActiveParts(s, T, v), k)| else 0)
    && (forall j :: 0 <= j < |ActiveVars(s, T, v)| ==> cols[j].v == ActiveVars(s, T, v)[j])
    && (forall j :: |ActiveVars(s, T, v)| <= j < |cols| ==> cols[j].v == v)
    && (forall j :: 0 <= j < |cols| ==> cols[j].v < |s.sizes| && cols[j] in ActiveParts(s, T, cols[j].v))
    && (forall u, p :: 0 <= u < v && p in ActiveParts(s, T, u) ==> p in cols)
    && (v < |s.sizes| ==> forall p :: p in ActiveParts(s, T, v) && p.k < k ==> p in cols)
  }

  lemma ColumnsStart(s: Space, T: CubeList)
    ensures ColumnsSoFar(s, T, 0, 0, [])
  {
    assert PartsBelow(ActiveParts(s, T, 0), 0) == {};
  }

  lemma ColumnStep(s: Space, T: CubeList, v: nat, k: nat, cols: seq<Part>)
    requires v < |s.sizes| && ColumnsSoFar(s, T, v, k, cols)
    ensures Part(v, k) in ActiveParts(s, T, v) ==> ColumnsSoFar(s, T, v, k + 1, cols + [Part(v, k)])
    ensures Part(v, k) !in ActiveParts(s, T, v) ==> ColumnsSoFar(s, T, v, k + 1, cols)
  {
    hide ActiveVars;
    ActiveShape(s, T, v);
    PartsBelowStep(ActiveParts(s, T, v), v, k);
    forall p | p in ActiveParts(s, T, v) && p.k < k + 1
      ensures p == Part(v, k) || p.k < k
    {
    }
  }

  lemma ActiveShape(s: Space, T: CubeList, v: nat)
    requires v < |s.sizes|
    ensures forall p :: p in ActiveParts(s, T, v) ==> p.v == v && p.k < s.sizes[v]
  {
  }

  lemma ColumnsNext(s: Space, T: CubeList, v: nat, cols: seq<Part>)
    requires UnateList(s, T) && v < |s.sizes| && ColumnsSoFar(s, T, v, s.sizes[v], cols)
    ensures ColumnsSoFar(s, T, v + 1, 0, cols)
  {
    hide ActiveParts;
    ActiveShape(s, T, v);
    assert PartsBelow(ActiveParts(s, T, v), s.sizes[v]) == ActiveParts(s, T, v);
    if v + 1 < |s.sizes| {
      assert PartsBelow(ActiveParts(s, T, v + 1), 0) == {};
    }
    assert |ActiveParts(s, T, v)| <= 1;
  }

  /** The missing parts of the list, in order. */
  method Columns(s: Space, T: CubeList, d: CData) returns (cols: seq<Part>)
    requires CountsOf(s, T, d) && UnateList(s, T)
    ensures ColumnsOf(s, T, cols)
  {
    hide ActiveParts, ActiveVars, ColumnsSoFar, UnateList, Zeros, CountsOf, Full;
    cols := [];
    ColumnsStart(s, T);
    var v := 0;
    while v < |s.sizes|
      invariant 0 <= v <= |s.sizes| && ColumnsSoFar(s, T, v, 0, cols)
    {
      var k := 0;
      while k < s.sizes[v]
        invariant 0 <= k <= s.sizes[v] && ColumnsSoFar(s, T, v, k, cols)
      {
        CountedZero(s, T, d, Part(v, k));
        ColumnStep(s, T, v, k, cols);
        if d.partZeros[Part(v, k)] > 0 {
          cols := cols + [Part(v, k)];
        }
        k := k + 1;
      }
      ColumnsNext(s, T, v, cols);
      v := v + 1;
    }
    ColumnsDone(s, T, cols);
  }

  lemma CountedZero(s: Space, T: CubeList, d: CData, p: Part)
    requires CountsOf(s, T, d) && p in Full(s)
    ensures p in d.partZeros && (d.partZeros[p] > 0 <==> p in ActiveParts(s, T, p.v))
  {
    hide ActiveParts, Zeros;
    ZerosActive(s, T, p);
  }

  lemma ColumnsDone(s: Space, T: CubeList, cols: seq<Part>)
    requires ColumnsSoFar(s, T, |s.sizes|, 0, cols)
    ensures ColumnsOf(s, T, cols)
  {
    hide ActiveParts, ActiveVars;
  }

  /** The columns of a cube: those it leaves out. */
  function RowOf(cols: seq<Part>, c: Cube): (r: set<nat>)
    ensures forall j: nat :: j in r <==> j < |cols| && cols[j] !in c
  {
    set j: nat | j in Range(|cols|) && cols[j] !in c
  }

  /** The family of a unate list: for each cube the columns it leaves out. */
  method MapCoverToUnate(T: CubeList, cols: seq<Part>) returns (A: seq<set<nat>>)
    ensures |A| == |T.items| && forall i :: 0 <= i < |A| ==> A[i] == RowOf(cols, T.items[i].cube)
  {
    A := [];
    var i := 0;
    while i < |T.items|
      invariant 0 <= i <= |T.items| && |A| == i
      invariant forall k :: 0 <= k < i ==> A[k] == RowOf(cols, T.items[k].cube)
    {
      A := A + [RowOf(cols, T.items[i].cube)];
      i := i + 1;
    }
  }

  /** The cube of a set of columns: in each of their variables only the active part
      is left. */
  ghost predicate CubeOf(s: Space, cols: seq<Part>, y: set<nat>, c: Cube) {
    forall p :: p in c <==> p in Full(s) && forall j :: j in y && j < |cols| && cols[j].v == p.v ==> p == cols[j]
  }

  /** Turn one set of columns into a cube: for the ncol-th unate variable, remove
      the parts no cube leaves out. */
  method CubeFor(s: Space, T: CubeList, d: CData, ghost cols: seq<Part>, unate: seq<nat>, y: set<nat>) returns (c: Cube)
    requires CountsOf(s, T, d) && UnateList(s, T) && ColumnsOf(s, T, cols) && unate == ActiveVars(s, T, |s.sizes|)
    ensures CubeOf(s, cols, y, c)
  {
    hide ActiveParts, ActiveVars, CountsOf, UnateList;
    c := Full(s);
    var ncol := 0;
    while ncol < |unate|
      invariant 0 <= ncol <= |unate|
      invariant forall p :: p in c <==>
        p in Full(s) && forall j :: j in y && j < ncol && j < |cols| && cols[j].v == p.v ==> p == cols[j]
    {
      if ncol in y {
        var zeros := set p | p in Full(s) && p.v == unate[ncol] && p in d.partZeros && d.partZeros[p] == 0;
        OnlyActive(s, T, d, cols, ncol, zeros);
        c := c - zeros;
      }
      ncol := ncol + 1;
    }
  }

  lemma OnlyActive(s: Space, T: CubeList, d: CData, cols: seq<Part>, j: nat, zeros: Cube)
    requires CountsOf(s, T, d) && UnateList(s, T) && ColumnsOf(s, T, cols) && j < |cols|
    requires forall p :: p in zeros <==> p in Full(s) && p.v == cols[j].v && p in d.partZeros && d.partZeros[p] == 0
    ensures forall p :: p in Full(s) && p.v == cols[j].v ==> (p in zeros <==> p != cols[j])
  {
    hide ActiveParts, ActiveVars, CountsOf, Full;
    forall p | p in Full(s) && p.v == cols[j].v
      ensures p in zeros <==> p != cols[j]
    {
      CountedZero(s, T, d, p);
      if p in ActiveParts(s, T, p.v) {
        SameActive(s, T, p, cols[j]);
      }
    }
  }

  lemma SameActive(s: Space, T: CubeList, p: Part, q: Part)
    requires UnateList(s, T) && p.v == q.v && p.v < |s.sizes|
    requires p in ActiveParts(s, T, p.v) && q in ActiveParts(s, T, p.v)
    ensures p == q
  {
    hide ActiveParts;
    SubsetCard({p}, ActiveParts(s, T, p.v));
    SingletonCard(ActiveParts(s, T, p.v), p, q);
  }

  /** The unate variables, in order. */
  method UnateVars(s: Space, T: CubeList, d: CData) returns (unate: seq<nat>)
    requires CountsOf(s, T, d) && UnateList(s, T)
    ensures unate == ActiveVars(s, T, |s.sizes|)
  {
    hide ActiveParts, UnateList, CountsOf;
    unate := [];
    var v := 0;
    while v < |s.sizes|
      invariant 0 <= v <= |s.sizes| && unate == ActiveVars(s, T, v)
    {
      UnateFlag(s, T, d, v);
      if d.vars[v].unate {
        unate := unate + [v];
      }
      v := v + 1;
    }
  }

  lemma UnateFlag(s: Space, T: CubeList, d: CData, v: nat)
    requires CountsOf(s, T, d) && UnateList(s, T) && v < |s.sizes|
    ensures |d.vars| == |s.sizes| && (d.vars[v].unate <==> ActiveParts(s, T, v) != {})
  {
    hide ActiveParts, ZeroSum, Zeros;
    assert VarCountOf(s, T, v, d.vars[v]);
    assert |ActiveParts(s, T, v)| <= 1;
  }

  /** The columns a minterm goes through. */
  ghost function Through(cols: seq<Part>, m: Minterm): (x: set<nat>)
    ensures forall j: nat :: j in x <==> j < |cols| && cols[j].v < |m| && m[cols[j].v] == cols[j].k
  {
    set j: nat | j in Range(|cols|) && cols[j].v < |m| && m[cols[j].v] == cols[j].k
  }

  /** A minterm lies in the cube of a set of columns exactly when it goes through
      all of them. */
  lemma CubeHolds(s: Space, cols: seq<Part>, y: set<nat>, c: Cube, m: Minterm)
    requires CubeOf(s, cols, y, c) && IsMinterm(s, m)
    requires forall j :: j in y ==> j < |cols| && cols[j].v < |s.sizes|
    ensures In(m, c) <==> y <= Through(cols, m)
  {
    if In(m, c) {
      forall j | j in y
        ensures j in Through(cols, m)
      {
        assert Part(cols[j].v, m[cols[j].v]) in c;
      }
    }
    if y <= Through(cols, m) {
      forall v | 0 <= v < |m|
        ensures Part(v, m[v]) in c
      {
        forall j | j in y && cols[j].v == v
          ensures Part(v, m[v]) == cols[j]
        {
          assert j in Through(cols, m);
        }
      }
    }
  }

  /** A minterm of the subspace is uncovered exactly when its columns meet every
      set of the family. */
  lemma UncoveredMeets(s: Space, T: CubeList, cols: seq<Part>, A: seq<set<nat>>, m: Minterm)
    requires ColumnsOf(s, T, cols) && Outside(s, T.cof, m)
    requires |A| == |T.items| && forall i :: 0 <= i < |A| ==> A[i] == RowOf(cols, T.items[i].cube)
    ensures !Covers(T.items, m) <==> Unate.MeetsAll(A, Through(cols, m))
  {
    hide ColumnsOf;
    if !Covers(T.items, m) {
      forall i | 0 <= i < |A|
        ensures A[i] * Through(cols, m) != {}
      {
        MissedColumn(s, T, cols, i, m);
      }
    }
    if Unate.MeetsAll(A, Through(cols, m)) {
      forall it | it in T.items
        ensures !In(m, it.cube)
      {
        var i :| 0 <= i < |T.items| && T.items[i] == it;
        var j := Member(A[i] * Through(cols, m));
        NotThrough(m, it.cube, cols[j]);
      }
    }
  }

  lemma NotThrough(m: Minterm, c: Cube, p: Part)
    requires p !in c && p.v < |m| && m[p.v] == p.k
    ensures !In(m, c)
  {
    assert p == Part(p.v, m[p.v]);
  }

  lemma MissedColumn(s: Space, T: CubeList, cols: seq<Part>, i: nat, m: Minterm)
    requires ColumnsOf(s, T, cols) && Outside(s, T.cof, m) && !Covers(T.items, m) && i < |T.items|
    ensures RowOf(cols, T.items[i].cube) * Through(cols, m) != {}
  {
    var it := T.items[i];
    assert it in T.items && !In(m, it.cube);
    var v :| 0 <= v < |m| && Part(v, m[v]) !in it.cube;
    assert Part(v, m[v]) in ActiveParts(s, T, v);
    assert Part(v, m[v]) in cols;
    var j :| 0 <= j < |cols| && cols[j] == Part(v, m[v]);
    assert j in RowOf(cols, it.cube) * Through(cols, m);
  }

  /** Inside a set that meets all of A there is a smallest one. */
  lemma {:induction false} SmallestInside(A: seq<set<nat>>, x: set<nat>) returns (y: set<nat>)
    requires Unate.MeetsAll(A, x)
    ensures y <= x && Unate.MinimalTransversal(A, y)
    decreases |x|
  {
    hide Unate.MeetsAll;
    if z :| z < x && Unate.MeetsAll(A, z) {
      ProperCard(z, x);
      y := SmallestInside(A, z);
    } else {
      y := x;
    }
  }

  lemma ProperCard(a: set<nat>, b: set<nat>)
    requires a < b
    ensures |a| < |b|
  {
    SubsetCard(a, b);
  }

  /** The cubes of the smallest sets. */
  ghost predicate CubesFor(s: Space, cols: seq<Part>, M: seq<set<nat>>, B: Cover) {
    |B| == |M| && forall i :: 0 <= i < |M| ==> CubeOf(s, cols, M[i], B[i].cube)
  }

  /** The complement of a unate list, outside the parts cofactored away. */
  lemma UnateMeaning(s: Space, T: CubeList, cols: seq<Part>, A: seq<set<nat>>, M: seq<set<nat>>, B: Cover, m: Minterm)
    requires ColumnsOf(s, T, cols) && Outside(s, T.cof, m)
    requires |A| == |T.items| && forall i :: 0 <= i < |A| ==> A[i] == RowOf(cols, T.items[i].cube)
    requires forall x :: x in M <==> Unate.MinimalTransversal(A, x)
    requires forall i :: 0 <= i < |M| ==> M[i] <= Range(|cols|)
    requires CubesFor(s, cols, M, B)
    ensures Has(B, m) <==> !Covers(T.items, m)
  {
    hide Unate.MinimalTransversal, Unate.MeetsAll, CubeOf, In, Covers, Outside, ColumnsOf;
    UncoveredMeets(s, T, cols, A, m);
    ColumnsBelow(s, T, cols);
    var x := Through(cols, m);
    OutsideMinterm(s, T.cof, m);
    if i :| 0 <= i < |B| && In(m, B[i].cube) {
      CubeHolds(s, cols, M[i], B[i].cube, m);
      assert M[i] in M;
      WiderMeets(A, M[i], x);
    }
    if Unate.MeetsAll(A, x) {
      var y := SmallestInside(A, x);
      var i :| 0 <= i < |M| && M[i] == y;
      CubeHolds(s, cols, M[i], B[i].cube, m);
    }
  }

  lemma OutsideMinterm(s: Space, cof: Cube, m: Minterm)
    requires Outside(s, cof, m)
    ensures IsMinterm(s, m)
  {
  }

  lemma ColumnsBelow(s: Space, T: CubeList, cols: seq<Part>)
    requires ColumnsOf(s, T, cols)
    ensures forall j :: 0 <= j < |cols| ==> cols[j].v < |s.sizes|
  {
    hide ActiveParts, ActiveVars;
  }

  lemma WiderMeets(A: seq<set<nat>>, y: set<nat>, x: set<nat>)
    requires Unate.MinimalTransversal(A, y) && y <= x
    ensures Unate.MeetsAll(A, x)
  {
    forall i | 0 <= i < |A|
      ensures A[i] * x != {}
    {
      var c := Member(A[i] * y);
      assert c in A[i] * x;
    }
  }
}
