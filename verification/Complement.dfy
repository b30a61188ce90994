/** The complement and the simplification of a cube list. */
module Complement {
  import opened Cubes
  import opened Counting
  import opened CubeLists
  import opened Splitting
  import opened Rows
  import opened Families
  import opened Merging
  import Unate
  import UnateMap
  import Containment

  /** In each of the variables, the subspace has a value, and so does every cube of
      the list in it. */
  ghost predicate Alive(s: Space, live: set<nat>, T: CubeList) {
    ValuedIn(s, live, Full(s) - T.cof) && forall it :: it in T.items ==> ValuedIn(s, live, it.cube - T.cof)
  }

  /** The variables for which that is so. */
  ghost function AliveVars(s: Space, T: CubeList): (live: set<nat>)
    ensures Alive(s, live, T)
  {
    set v: nat | v < |s.sizes| && (Full(s) - T.cof) * Mask(s, v) != {} &&
      forall it :: it in T.items ==> (it.cube - T.cof) * Mask(s, v) != {}
  }

  lemma AliveMost(s: Space, live: set<nat>, T: CubeList)
    requires Alive(s, live, T)
    ensures live <= AliveVars(s, T)
  {
    hide Mask;
    forall v | v in live
      ensures v in AliveVars(s, T)
    {
      forall it | it in T.items
        ensures (it.cube - T.cof) * Mask(s, v) != {}
      {
        assert ValuedIn(s, live, it.cube - T.cof);
      }
    }
  }

  lemma FewerLive(s: Space, live': set<nat>, live: set<nat>, cof: Cube, B: Cover)
    requires LiveCubes(s, live', cof, B) && live <= live'
    ensures LiveCubes(s, live, cof, B)
  {
    forall i | 0 <= i < |B|
      ensures ValuedIn(s, live, B[i].cube - cof)
    {
      assert ValuedIn(s, live', B[i].cube - cof);
    }
  }

  ghost predicate InSpace(s: Space, T: CubeList) {
    T.cof <= Full(s) && forall it :: it in T.items ==> it.cube <= Full(s)
  }

  /** What the complement and the simplification promise: an exact cover, whose
      cubes have values in the variables in which the list is alive. */
  ghost predicate Answer(s: Space, T: CubeList, pos: bool, B: Cover) {
    Valid(s, B) && Exact(s, T, pos, B) && LiveCubes(s, AliveVars(s, T), T.cof, B)
  }

  // ---- De Morgan's law

  /** The parts of variable v outside p, and everything in the other variables. */
  function Opposite(s: Space, p: Cube, v: nat): Cube
    requires v < |s.sizes|
  {
    (Full(s) - p) * Mask(s, v) + (Full(s) - Mask(s, v))
  }

  /** Each cube is the opposite of p in a variable that p does not fill. */
  ghost predicate Opposites(s: Space, p: Cube, n: nat, B: Cover)
    requires n <= |s.sizes|
  {
    && (forall i :: 0 <= i < |B| ==> IsOpposite(s, p, n, B[i].cube))
    && (forall v :: 0 <= v < n && (Full(s) - p) * Mask(s, v) != {} ==> IsShape(Opposite(s, p, v), B))
  }

  ghost predicate IsOpposite(s: Space, p: Cube, n: nat, c: Cube)
    requires n <= |s.sizes|
  {
    exists v :: 0 <= v < n && (Full(s) - p) * Mask(s, v) != {} && c == Opposite(s, p, v)
  }

  /** The complement of a single cube. */
  method ComplCube(s: Space, p: Cube) returns (B: Cover)
    ensures Opposites(s, p, |s.sizes|, B)
  {
    hide Full, Mask, Opposite;
    B := [];
    var v := 0;
    while v < |s.sizes|
      invariant 0 <= v <= |s.sizes| && Opposites(s, p, v, B)
    {
      OppositesStep(s, p, v, B);
      if (Full(s) - p) * Mask(s, v) != {} {
        B := B + [Plain(Opposite(s, p, v))];
      }
      v := v + 1;
    }
  }

  lemma OppositesStep(s: Space, p: Cube, v: nat, B: Cover)
    requires v < |s.sizes| && Opposites(s, p, v, B)
    ensures (Full(s) - p) * Mask(s, v) == {} ==> Opposites(s, p, v + 1, B)
    ensures (Full(s) - p) * Mask(s, v) != {} ==> Opposites(s, p, v + 1, B + [Plain(Opposite(s, p, v))])
  {
    hide Full, Mask, Opposite;
    forall i | 0 <= i < |B|
      ensures IsOpposite(s, p, v + 1, B[i].cube)
    {
      assert IsOpposite(s, p, v, B[i].cube);
      var u :| 0 <= u < v && (Full(s) - p) * Mask(s, u) != {} && B[i].cube == Opposite(s, p, u);
      assert u < v + 1;
    }
    if (Full(s) - p) * Mask(s, v) != {} {
      var N := B + [Plain(Opposite(s, p, v))];
      assert N[|B|].cube == Opposite(s, p, v);
      forall u | 0 <= u < v && (Full(s) - p) * Mask(s, u) != {}
        ensures IsShape(Opposite(s, p, u), N)
      {
        var k :| 0 <= k < |B| && B[k].cube == Opposite(s, p, u);
        assert N[k] == B[k];
      }
    }
  }

  lemma OppositeHolds(s: Space, p: Cube, v: nat, m: Minterm)
    requires v < |s.sizes| && IsMinterm(s, m)
    ensures In(m, Opposite(s, p, v)) <==> Part(v, m[v]) !in p
  {
    var c := Opposite(s, p, v);
    if Part(v, m[v]) !in p {
      forall u | 0 <= u < |m|
        ensures Part(u, m[u]) in c
      {
        assert Part(u, m[u]) in Full(s);
        assert u == v ==> Part(u, m[u]) in Mask(s, v);
      }
    }
    if In(m, c) {
      assert Part(v, m[v]) in c && Part(v, m[v]) in Mask(s, v);
    }
  }

  /** By De Morgan's law the opposites hold exactly the minterms outside p. */
  lemma DeMorgan(s: Space, p: Cube, B: Cover, m: Minterm)
    requires Opposites(s, p, |s.sizes|, B) && IsMinterm(s, m)
    ensures Has(B, m) <==> !In(m, p)
  {
    hide Opposite, Mask, Full;
    if i :| 0 <= i < |B| && In(m, B[i].cube) {
      assert IsOpposite(s, p, |s.sizes|, B[i].cube);
      var v :| 0 <= v < |s.sizes| && (Full(s) - p) * Mask(s, v) != {} && B[i].cube == Opposite(s, p, v);
      OppositeHolds(s, p, v, m);
    }
    if v :| 0 <= v < |m| && Part(v, m[v]) !in p {
      MintermPart(s, m, v);
      assert Part(v, m[v]) in (Full(s) - p) * Mask(s, v);
      OppositeHolds(s, p, v, m);
      assert IsShape(Opposite(s, p, v), B);
      var k :| 0 <= k < |B| && B[k].cube == Opposite(s, p, v);
    }
  }

  lemma MintermPart(s: Space, m: Minterm, v: nat)
    requires IsMinterm(s, m) && v < |m|
    ensures Part(v, m[v]) in Full(s) && Part(v, m[v]) in Mask(s, v)
  {
  }

  lemma OppositesShape(s: Space, live: set<nat>, cof: Cube, p: Cube, B: Cover)
    requires Opposites(s, p, |s.sizes|, B) && cof <= p && ValuedIn(s, live, Full(s) - cof)
    ensures LiveCubes(s, live, cof, B)
  {
    hide Full, Mask, Opposite, ValuedIn;
    forall i | 0 <= i < |B|
      ensures ValuedIn(s, live, B[i].cube - cof)
    {
      assert IsOpposite(s, p, |s.sizes|, B[i].cube);
      var v :| 0 <= v < |s.sizes| && (Full(s) - p) * Mask(s, v) != {} && B[i].cube == Opposite(s, p, v);
      OppositeLive(s, live, cof, p, v);
    }
  }

  lemma OppositeLive(s: Space, live: set<nat>, cof: Cube, p: Cube, v: nat)
    requires v < |s.sizes| && (Full(s) - p) * Mask(s, v) != {} && cof <= p && ValuedIn(s, live, Full(s) - cof)
    ensures ValuedIn(s, live, Opposite(s, p, v) - cof)
  {
    hide Full;
    forall u | u in live
      ensures u < |s.sizes| && (Opposite(s, p, v) - cof) * Mask(s, u) != {}
    {
      if u == v {
        var q := Member((Full(s) - p) * Mask(s, v));
        assert q in (Opposite(s, p, v) - cof) * Mask(s, u);
      } else {
        assert (Full(s) - cof) * Mask(s, u) != {};
        var q := Member((Full(s) - cof) * Mask(s, u));
        assert q in (Opposite(s, p, v) - cof) * Mask(s, u);
      }
    }
  }

  lemma OppositesValid(s: Space, p: Cube, B: Cover)
    requires Opposites(s, p, |s.sizes|, B)
    ensures Valid(s, B)
  {
    hide Full, Mask;
    forall i | 0 <= i < |B|
      ensures B[i].cube <= Full(s)
    {
      assert IsOpposite(s, p, |s.sizes|, B[i].cube);
    }
  }

  // ---- the special cases

  function Whole(s: Space): Cover {
    [Plain(Full(s))]
  }

  lemma WholeHas(s: Space, m: Minterm)
    requires IsMinterm(s, m)
    ensures Has(Whole(s), m)
  {
    assert In(m, Whole(s)[0].cube);
  }

  lemma WholeFacts(s: Space, live: set<nat>, cof: Cube)
    requires ValuedIn(s, live, Full(s) - cof)
    ensures Valid(s, Whole(s)) && LiveCubes(s, live, cof, Whole(s))
    ensures Valid(s, []) && LiveCubes(s, live, cof, [])
  {
    hide Full;
  }

  /** No cubes: the complement is everything. */
  lemma NoCubes(s: Space, T: CubeList)
    requires T.items == []
    ensures Answer(s, T, false, Whole(s)) && Answer(s, T, true, [])
  {
    hide Full, ValuedIn, Valid, In, LiveCubes, AliveVars;
    WholeFacts(s, AliveVars(s, T), T.cof);
    forall m | Outside(s, T.cof, m)
      ensures Has(Whole(s), m) && !Has([], m) && !Covers(T.items, m)
    {
      WholeHas(s, m);
    }
  }

  /** One cube: De Morgan's law. */
  lemma OneCube(s: Space, T: CubeList, B: Cover)
    requires InSpace(s, T) && |T.items| == 1 && Opposites(s, T.cof + T.items[0].cube, |s.sizes|, B)
    ensures Answer(s, T, false, B)
    ensures Answer(s, T, true, [Plain(T.cof + T.items[0].cube)])
  {
    hide Full, ValuedIn, In, LiveCubes, Opposites, Has, AliveVars;
    var c := T.items[0].cube;
    var p := T.cof + c;
    var live := AliveVars(s, T);
    OppositesValid(s, p, B);
    OppositesShape(s, live, T.cof, p, B);
    OneLive(s, live, T);
    forall m | Outside(s, T.cof, m)
      ensures Has(B, m) <==> !Covers(T.items, m)
      ensures Has([Plain(p)], m) <==> Covers(T.items, m)
    {
      OutsideLength(s, T.cof, m);
      DeMorgan(s, p, B, m);
      OneCovers(s, T, m);
      OneHas(p, m);
    }
  }

  lemma OneCovers(s: Space, T: CubeList, m: Minterm)
    requires |T.items| == 1 && Outside(s, T.cof, m)
    ensures Covers(T.items, m) <==> In(m, T.cof + T.items[0].cube)
  {
    var c := T.items[0].cube;
    if In(m, T.cof + c) {
      forall v | 0 <= v < |m|
        ensures Part(v, m[v]) in c
      {
        assert Part(v, m[v]) in T.cof + c && Part(v, m[v]) !in T.cof;
      }
      assert T.items[0] in T.items;
    }
  }

  lemma OneHas(c: Cube, m: Minterm)
    ensures Has([Plain(c)], m) <==> In(m, c)
  {
    hide In;
    assert [Plain(c)][0].cube == c;
  }

  lemma OneLive(s: Space, live: set<nat>, T: CubeList)
    requires Alive(s, live, T) && |T.items| == 1
    ensures LiveCubes(s, live, T.cof, [Plain(T.cof + T.items[0].cube)])
  {
    hide ValuedIn;
    var c := T.items[0].cube;
    assert T.items[0] in T.items;
    WiderLive(s, live, c, T.cof + c, T.cof);
  }

  /** Every minterm is covered. */
  lemma AllCovered(s: Space, T: CubeList)
    requires forall m :: Outside(s, T.cof, m) ==> Covers(T.items, m)
    ensures Answer(s, T, false, []) && Answer(s, T, true, Whole(s))
  {
    hide Full, ValuedIn, Valid, In, LiveCubes, Covers, Whole, AliveVars;
    WholeFacts(s, AliveVars(s, T), T.cof);
    forall m | Outside(s, T.cof, m)
      ensures Has(Whole(s), m) && !Has([], m)
    {
      OutsideLength(s, T.cof, m);
      WholeHas(s, m);
    }
  }

  lemma FullRowAll(s: Space, T: CubeList)
    requires !NoFullRow(s, T)
    ensures forall m :: Outside(s, T.cof, m) ==> Covers(T.items, m)
  {
    hide FullRow, In;
    var it :| it in T.items && FullRow(s, it.cube, T.cof);
    forall m | Outside(s, T.cof, m)
      ensures Covers(T.items, m)
    {
      FullRowCovers(s, T.cof, it.cube, m);
    }
  }

  /** One active variable, and no empty column: every minterm is covered. */
  lemma SingleActive(s: Space, T: CubeList, ceil: Cube)
    requires NumActive(s, T, |s.sizes|) == 1 && Full(s) <= ceil
    requires forall p :: p in ceil <==> p in T.cof || exists it :: it in T.items && p in it.cube
    ensures forall m :: Outside(s, T.cof, m) ==> Covers(T.items, m)
  {
    hide ActiveParts, Full;
    var u := TheActive(s, T);
    forall m | Outside(s, T.cof, m)
      ensures Covers(T.items, m)
    {
      OutsideLength(s, T.cof, m);
      MintermPart(s, m, u);
      NotCof(s, T.cof, m, u);
      assert Part(u, m[u]) in ceil;
      var it :| it in T.items && Part(u, m[u]) in it.cube;
      forall v | 0 <= v < |m|
        ensures Part(v, m[v]) in it.cube
      {
        if v != u {
          InactivePart(s, T, it, v, m);
        }
      }
    }
  }

  lemma ActiveCount(s: Space, T: CubeList, d: CData)
    requires CountsOf(s, T, d)
    ensures d.varsActive == NumActive(s, T, |s.sizes|) && d.varsUnate == NumUnate(s, T, |s.sizes|)
  {
    hide ActiveParts, Zeros;
  }

  lemma TheActive(s: Space, T: CubeList) returns (u: nat)
    requires NumActive(s, T, |s.sizes|) == 1
    ensures u < |s.sizes| && forall v :: 0 <= v < |s.sizes| && v != u ==> ActiveParts(s, T, v) == {}
  {
    hide ActiveParts;
    NumFacts(s, T, |s.sizes|);
    u :| 0 <= u < |s.sizes| && |ActiveParts(s, T, u)| > 0;
    forall v | 0 <= v < |s.sizes| && v != u
      ensures ActiveParts(s, T, v) == {}
    {
      assert |ActiveParts(s, T, v)| == 0;
    }
  }

  lemma NotCof(s: Space, cof: Cube, m: Minterm, v: nat)
    requires Outside(s, cof, m) && v < |m|
    ensures Part(v, m[v]) !in cof
  {
  }

  lemma InactivePart(s: Space, T: CubeList, it: Item, v: nat, m: Minterm)
    requires it in T.items && v < |s.sizes| && ActiveParts(s, T, v) == {} && Outside(s, T.cof, m)
    ensures Part(v, m[v]) in it.cube
  {
    assert Part(v, m[v]) !in ActiveParts(s, T, v);
  }

  // ---- factoring out empty columns

  /** The list with the empty columns cofactored away. */
  function CeilList(s: Space, T: CubeList, ceil: Cube): CubeList {
    CubeList(T.cof + (Full(s) - ceil), T.items)
  }

  ghost predicate CeilOf(T: CubeList, ceil: Cube) {
    forall p :: p in ceil <==> p in T.cof || exists it :: it in T.items && p in it.cube
  }

  lemma CeilSmaller(s: Space, T: CubeList, ceil: Cube)
    requires InSpace(s, T) && CeilOf(T, ceil) && ceil != Full(s)
    ensures ceil <= Full(s) && InSpace(s, CeilList(s, T, ceil))
    ensures |Full(s) - CeilList(s, T, ceil).cof| < |Full(s) - T.cof|
  {
    hide Full;
    forall p | p in ceil
      ensures p in Full(s)
    {
      if p !in T.cof {
        var it :| it in T.items && p in it.cube;
      }
    }
    var q :| q in Full(s) && q !in ceil;
    Fewer(Full(s), T.cof, CeilList(s, T, ceil).cof, q);
  }

  lemma Fewer(full: Cube, a: Cube, b: Cube, q: Part)
    requires a <= b && q in full && q !in a && q in b
    ensures |full - b| < |full - a|
  {
    SubsetCard(full - b, full - a - {q});
  }

  /** Minterms below the ceiling are those of the smaller subspace; the others are
      covered by no cube. */
  lemma CeilSides(s: Space, T: CubeList, ceil: Cube, m: Minterm)
    requires CeilOf(T, ceil) && Outside(s, T.cof, m)
    ensures In(m, ceil) <==> Outside(s, CeilList(s, T, ceil).cof, m)
    ensures !In(m, ceil) ==> !Covers(T.items, m)
  {
    if !In(m, ceil) {
      var v :| 0 <= v < |m| && Part(v, m[v]) !in ceil;
      assert Part(v, m[v]) in Full(s) - ceil;
    }
  }

  lemma CeilAlive(s: Space, T: CubeList, ceil: Cube)
    requires CeilOf(T, ceil) && T.items != [] && ceil <= Full(s)
    ensures AliveVars(s, T) <= AliveVars(s, CeilList(s, T, ceil))
  {
    hide ValuedIn, Full, AliveVars;
    var T' := CeilList(s, T, ceil);
    var live := AliveVars(s, T);
    forall it | it in T.items
      ensures ValuedIn(s, live, it.cube - T'.cof)
    {
      BelowCeil(s, T, ceil, it);
      assert it.cube - T'.cof == it.cube - T.cof;
    }
    var it := T.items[0];
    assert it in T.items;
    BelowCeil(s, T, ceil, it);
    WiderLive(s, live, it.cube, Full(s), T'.cof);
    AliveMost(s, live, T');
  }

  lemma BelowCeil(s: Space, T: CubeList, ceil: Cube, it: Item)
    requires CeilOf(T, ceil) && it in T.items
    ensures it.cube <= ceil
  {
  }

  /** The complement below the ceiling, and the complement of the ceiling. */
  lemma CeilComplement(s: Space, T: CubeList, ceil: Cube, B: Cover, C: Cover)
    requires InSpace(s, T) && CeilOf(T, ceil) && T.items != [] && ceil <= Full(s) && T.cof <= ceil
    requires Answer(s, CeilList(s, T, ceil), false, B) && Opposites(s, ceil, |s.sizes|, C)
    ensures Answer(s, T, false, B + C)
  {
    hide Full, ValuedIn, In, LiveCubes, Opposites, Has, Covers, Outside, Alive, AliveVars, Valid;
    OppositesValid(s, ceil, C);
    ValidAppend(s, B, C);
    forall m | Outside(s, T.cof, m)
      ensures Has(B + C, m) <==> !Covers(T.items, m)
    {
      OutsideLength(s, T.cof, m);
      CeilSides(s, T, ceil, m);
      DeMorgan(s, ceil, C, m);
      HasAppend(B, C, m);
    }
    var T' := CeilList(s, T, ceil);
    var live := AliveVars(s, T);
    CeilAlive(s, T, ceil);
    FewerLive(s, AliveVars(s, T'), live, T'.cof, B);
    AliveSubspace(s, live, T);
    OppositesShape(s, live, T.cof, ceil, C);
    LiveAppend(s, live, T.cof, T'.cof, B, C);
  }

  lemma AliveSubspace(s: Space, live: set<nat>, T: CubeList)
    requires Alive(s, live, T)
    ensures ValuedIn(s, live, Full(s) - T.cof)
  {
  }

  lemma ValidAppend(s: Space, B: Cover, C: Cover)
    requires Valid(s, B) && Valid(s, C)
    ensures Valid(s, B + C)
  {
    hide Full;
  }

  lemma HasAppend(B: Cover, C: Cover, m: Minterm)
    ensures Has(B + C, m) <==> Has(B, m) || Has(C, m)
  {
    hide In;
    var A := B + C;
    if i :| 0 <= i < |B| && In(m, B[i].cube) {
      assert A[i] == B[i];
    }
    if j :| 0 <= j < |C| && In(m, C[j].cube) {
      assert A[|B| + j] == C[j];
    }
    if i :| 0 <= i < |A| && In(m, A[i].cube) {
      assert if i < |B| then In(m, B[i].cube) else In(m, C[i - |B|].cube);
    }
  }

  lemma LiveAppend(s: Space, live: set<nat>, cof: Cube, wider: Cube, B: Cover, C: Cover)
    requires cof <= wider && LiveCubes(s, live, wider, B) && LiveCubes(s, live, cof, C)
    ensures LiveCubes(s, live, cof, B + C)
  {
    hide ValuedIn;
    forall i | 0 <= i < |B + C|
      ensures ValuedIn(s, live, (B + C)[i].cube - cof)
    {
      if i < |B| {
        SmallerCof(s, live, B[i].cube, cof, wider);
      }
    }
  }

  lemma SmallerCof(s: Space, live: set<nat>, c: Cube, cof: Cube, wider: Cube)
    requires cof <= wider && ValuedIn(s, live, c - wider)
    ensures ValuedIn(s, live, c - cof)
  {
    forall v | v in live
      ensures v < |s.sizes| && (c - cof) * Mask(s, v) != {}
    {
      assert (c - wider) * Mask(s, v) != {};
      var p := Member((c - wider) * Mask(s, v));
      assert p in (c - cof) * Mask(s, v);
    }
  }

  // ---- the unate case

  lemma UnateCubesLive(s: Space, live: set<nat>, T: CubeList, cols: seq<Part>, M: seq<set<nat>>, B: Cover)
    requires UnateMap.UnateList(s, T) && UnateMap.ColumnsOf(s, T, cols) && UnateMap.CubesFor(s, cols, M, B)
    requires ValuedIn(s, live, Full(s) - T.cof)
    ensures Valid(s, B) && LiveCubes(s, live, T.cof, B)
  {
    hide Full, ValuedIn, UnateMap.CubeOf, UnateMap.ColumnsOf, UnateMap.UnateList;
    forall i | 0 <= i < |B|
      ensures B[i].cube <= Full(s) && ValuedIn(s, live, B[i].cube - T.cof)
    {
      UnateCubeLive(s, live, T, cols, M[i], B[i].cube);
    }
  }

  lemma UnateCubesValid(s: Space, cols: seq<Part>, M: seq<set<nat>>, B: Cover)
    requires UnateMap.CubesFor(s, cols, M, B)
    ensures Valid(s, B)
  {
    hide Full;
    forall i | 0 <= i < |B|
      ensures B[i].cube <= Full(s)
    {
      assert UnateMap.CubeOf(s, cols, M[i], B[i].cube);
    }
  }

  lemma UnateCubeLive(s: Space, live: set<nat>, T: CubeList, cols: seq<Part>, y: set<nat>, c: Cube)
    requires UnateMap.UnateList(s, T) && UnateMap.ColumnsOf(s, T, cols) && UnateMap.CubeOf(s, cols, y, c)
    requires ValuedIn(s, live, Full(s) - T.cof)
    ensures c <= Full(s) && ValuedIn(s, live, c - T.cof)
  {
    hide UnateMap.UnateList, UnateMap.ColumnsOf, ActiveParts;
    forall v | v in live
      ensures v < |s.sizes| && (c - T.cof) * Mask(s, v) != {}
    {
      if j :| j in y && j < |cols| && cols[j].v == v {
        ColumnInCube(s, T, cols, y, c, j);
        assert cols[j] in (c - T.cof) * Mask(s, v);
      } else {
        assert (Full(s) - T.cof) * Mask(s, v) != {};
        var p := Member((Full(s) - T.cof) * Mask(s, v));
        assert p in (c - T.cof) * Mask(s, v);
      }
    }
  }

  lemma ColumnInCube(s: Space, T: CubeList, cols: seq<Part>, y: set<nat>, c: Cube, j: nat)
    requires UnateMap.UnateList(s, T) && UnateMap.ColumnsOf(s, T, cols) && UnateMap.CubeOf(s, cols, y, c) && j < |cols|
    ensures cols[j] in c && cols[j] !in T.cof && cols[j].v < |s.sizes| && cols[j] in Mask(s, cols[j].v)
  {
    hide UnateMap.UnateList, UnateMap.ColumnsOf;
    ColumnFacts(s, T, cols, j);
    forall k | k in y && k < |cols| && cols[k].v == cols[j].v
      ensures cols[j] == cols[k]
    {
      ColumnFacts(s, T, cols, k);
      UnateMap.SameActive(s, T, cols[j], cols[k]);
    }
  }

  lemma ColumnFacts(s: Space, T: CubeList, cols: seq<Part>, j: nat)
    requires UnateMap.ColumnsOf(s, T, cols) && j < |cols|
    ensures cols[j].v < |s.sizes| && cols[j] in ActiveParts(s, T, cols[j].v) && cols[j] in Full(s) && cols[j] !in T.cof
  {
    ActivePartFacts(s, T, cols[j].v, cols[j]);
  }

  /** Complement a unate list through the family of its missing parts. */
  method UnateCase(s: Space, T: CubeList, d: CData) returns (ok: bool, B: Cover)
    requires CountsOf(s, T, d) && d.varsUnate == d.varsActive
    ensures |s.sizes| <= 1025 ==> ok
    ensures ok ==> Answer(s, T, false, B)
  {
    hide ActiveParts, CountsOf, UnateMap.ColumnsOf, UnateMap.CubeOf, Unate.MinimalTransversal, Full, ValuedIn,
      AliveVars, LiveCubes, Valid, Covers, Has, Outside;
    AllUnate(s, T, d);
    B := [];
    var cols := UnateMap.Columns(s, T, d);
    ColumnCount(s, T, cols);
    var A := UnateMap.MapCoverToUnate(T, cols);
    var M;
    ok, M := Unate.UnateCompl(A, |cols|);
    if !ok {
      return;
    }
    B := MapUnateToCover(s, T, d, cols, M);
    forall m | Outside(s, T.cof, m)
      ensures Has(B, m) <==> !Covers(T.items, m)
    {
      UnateMap.UnateMeaning(s, T, cols, A, M, B, m);
    }
    UnateCubesValid(s, cols, M, B);
    UnateCubesLive(s, AliveVars(s, T), T, cols, M, B);
  }

  method MapUnateToCover(s: Space, T: CubeList, d: CData, ghost cols: seq<Part>, M: seq<set<nat>>) returns (B: Cover)
    requires CountsOf(s, T, d) && UnateMap.UnateList(s, T) && UnateMap.ColumnsOf(s, T, cols)
    ensures UnateMap.CubesFor(s, cols, M, B)
  {
    hide CountsOf, UnateMap.UnateList, UnateMap.ColumnsOf, UnateMap.CubeOf;
    var unate := UnateMap.UnateVars(s, T, d);
    B := [];
    var i := 0;
    while i < |M|
      invariant 0 <= i <= |M| && |B| == i
      invariant forall k :: 0 <= k < i ==> UnateMap.CubeOf(s, cols, M[k], B[k].cube)
    {
      var c := UnateMap.CubeFor(s, T, d, cols, unate, M[i]);
      B := B + [Plain(c)];
      i := i + 1;
    }
  }

  lemma AllUnate(s: Space, T: CubeList, d: CData)
    requires CountsOf(s, T, d) && d.varsUnate == d.varsActive
    ensures UnateMap.UnateList(s, T)
  {
    hide ActiveParts, CountsOf;
    ActiveCount(s, T, d);
    NumFacts(s, T, |s.sizes|);
  }

  lemma ColumnCount(s: Space, T: CubeList, cols: seq<Part>)
    requires UnateMap.ColumnsOf(s, T, cols)
    ensures |cols| <= |s.sizes|
  {
    hide ActiveParts;
  }

  // ---- splitting

  /** Not unate, so some variable has two active parts, and the best one does. */
  lemma BestHasTwo(s: Space, T: CubeList, d: CData)
    requires CountsOf(s, T, d) && d.varsUnate != d.varsActive
    ensures HasActivePair(s, T, d)
  {
    hide ActiveParts, Zeros, ZeroSum;
    NumFacts(s, T, |s.sizes|);
    var v :| 0 <= v < |s.sizes| && |ActiveParts(s, T, v)| > 1;
    assert VarCountOf(s, T, v, d.vars[v]) && VarCountOf(s, T, d.best, d.vars[d.best]);
    assert d.vars[v].active <= d.vars[d.best].active;
  }

  /** Both halves of the best variable. */
  method Halves(s: Space, T: CubeList, d: CData) returns (cl: Cube, cr: Cube, L: CubeList, R: CubeList)
    requires InSpace(s, T) && HasActivePair(s, T, d)
    ensures 0 <= d.best < |s.sizes| && SplitOf(s, T.cof, d.best, cl, cr)
    ensures |cl * Mask(s, d.best)| == |LiveParts(s, T.cof, d.best, s.sizes[d.best])| / 2
    ensures forall p, q :: p in cl * Mask(s, d.best) && q in cr * Mask(s, d.best) ==> p.k < q.k
    ensures HalfOf(s, T, cl, d.best, L) && HalfOf(s, T, cr, d.best, R)
    ensures L.items == Filter(T.items, Touches(Mask(s, d.best) * cl))
    ensures R.items == Filter(T.items, Touches(Mask(s, d.best) * cr))
    ensures InSpace(s, L) && InSpace(s, R)
    ensures AliveVars(s, T) <= AliveVars(s, L) && AliveVars(s, T) <= AliveVars(s, R)
    ensures |Full(s) - L.cof| < |Full(s) - T.cof| && |Full(s) - R.cof| < |Full(s) - T.cof|
    ensures |L.items| <= |T.items| && |R.items| <= |T.items|
  {
    hide HasActivePair, HalfOf, Full, SplitOf, InSpace, AliveVars;
    TwoLive(s, T, d);
    cl, cr := BinateSplitSelect(s, T, d.best);
    L := Scofactor(s, T, cl, d.best);
    R := Scofactor(s, T, cr, d.best);
    SplitSym(s, T.cof, d.best, cl, cr);
    HalfIs(s, T, d.best, cl, cr, L);
    HalfIs(s, T, d.best, cr, cl, R);
  }

  lemma TwoLive(s: Space, T: CubeList, d: CData)
    requires HasActivePair(s, T, d)
    ensures 0 <= d.best < |s.sizes|
    ensures |LiveParts(s, T.cof, d.best, s.sizes[d.best])| >= 2
  {
    assert ActiveParts(s, T, d.best) <= LiveParts(s, T.cof, d.best, s.sizes[d.best]);
    SubsetCard(ActiveParts(s, T, d.best), LiveParts(s, T.cof, d.best, s.sizes[d.best]));
  }

  lemma HalfIs(s: Space, T: CubeList, v: nat, c: Cube, other: Cube, H: CubeList)
    requires v < |s.sizes| && InSpace(s, T) && SplitOf(s, T.cof, v, c, other)
    requires H.cof == T.cof + (Full(s) - c)
    requires H.items == Filter(T.items, Touches(Mask(s, v) * c))
    ensures HalfOf(s, T, c, v, H) && InSpace(s, H)
    ensures AliveVars(s, T) <= AliveVars(s, H)
    ensures |Full(s) - H.cof| < |Full(s) - T.cof|
  {
    hide Full, ValuedIn, SplitOf, AliveVars;
    HalfFewer(s, T.cof, v, c, other);
    HalfInSpace(s, T, v, c, other, H);
    HalfAlive(s, T, v, c, other, H);
  }

  lemma HalfInSpace(s: Space, T: CubeList, v: nat, c: Cube, other: Cube, H: CubeList)
    requires v < |s.sizes| && InSpace(s, T) && SplitOf(s, T.cof, v, c, other)
    requires H.cof == T.cof + (Full(s) - c)
    requires H.items == Filter(T.items, Touches(Mask(s, v) * c))
    ensures InSpace(s, H)
  {
    hide Full, SplitOf;
  }

  lemma HalfFewer(s: Space, cof: Cube, v: nat, c: Cube, other: Cube)
    requires v < |s.sizes| && SplitOf(s, cof, v, c, other)
    ensures |Full(s) - (cof + (Full(s) - c))| < |Full(s) - cof|
  {
    var q := Member(other * Mask(s, v));
    assert q in Full(s) && q !in cof && q !in c;
    Fewer(Full(s), cof, cof + (Full(s) - c), q);
  }

  lemma HalfAlive(s: Space, T: CubeList, v: nat, c: Cube, other: Cube, H: CubeList)
    requires v < |s.sizes| && InSpace(s, T) && SplitOf(s, T.cof, v, c, other)
    requires H.cof == T.cof + (Full(s) - c)
    requires H.items == Filter(T.items, Touches(Mask(s, v) * c))
    ensures AliveVars(s, T) <= AliveVars(s, H)
  {
    hide Full, ValuedIn, SplitOf, AliveVars, InSpace;
    var live := AliveVars(s, T);
    forall it | it in H.items
      ensures ValuedIn(s, live, it.cube - H.cof)
    {
      CubeAlive(s, live, T.cof, v, c, other, it.cube);
    }
    SideLive(s, live, T.cof, v, c, other);
    AliveMost(s, live, H);
  }

  lemma CubeAlive(s: Space, live: set<nat>, cof: Cube, v: nat, c: Cube, other: Cube, a: Cube)
    requires v < |s.sizes| && SplitOf(s, cof, v, c, other) && ValuedIn(s, live, a - cof)
    requires a * (Mask(s, v) * c) != {}
    ensures ValuedIn(s, live, a - (cof + (Full(s) - c)))
  {
    var rest := a - (cof + (Full(s) - c));
    forall u | u in live
      ensures u < |s.sizes| && rest * Mask(s, u) != {}
    {
      if u == v {
        var p := Member(a * (Mask(s, v) * c));
        assert p in rest * Mask(s, u);
      } else {
        assert (a - cof) * Mask(s, u) != {};
        var p := Member((a - cof) * Mask(s, u));
        assert p in rest * Mask(s, u);
      }
    }
  }

  lemma SideLive(s: Space, live: set<nat>, cof: Cube, v: nat, c: Cube, other: Cube)
    requires v < |s.sizes| && SplitOf(s, cof, v, c, other) && ValuedIn(s, live, Full(s) - cof)
    ensures ValuedIn(s, live, Full(s) - (cof + (Full(s) - c)))
  {
    hide ValuedIn;
    assert Full(s) * (Mask(s, v) * c) != {} by {
      var p := Member(c * Mask(s, v));
      assert p in Full(s) * (Mask(s, v) * c);
    }
    CubeAlive(s, live, cof, v, c, other, Full(s));
  }

  // ---- the complement

  /** The complement of a cube list, exact outside the parts cofactored away, and
      without void cubes if the list has none.  It fails only if a unate list has
      more than 1025 active variables. */
  method Complement(s: Space, T: CubeList) returns (ok: bool, Tbar: Cover)
    requires InSpace(s, T)
    ensures |s.sizes| <= 1025 ==> ok
    ensures ok ==> Answer(s, T, false, Tbar)
    decreases |Full(s) - T.cof|, 1
  {
    hide InSpace, Answer, Full, FullRow, CountsOf, ActiveParts, Opposites, Mask, Live, NoFullRow;
    if T.items == [] {
      NoCubes(s, T);
      return true, Whole(s);
    }
    if |T.items| == 1 {
      Tbar := ComplCube(s, T.cof + T.items[0].cube);
      OneCube(s, T, Tbar);
      return true, Tbar;
    }
    var full := HasFullRow(s, T);
    if full {
      FullRowAll(s, T);
      AllCovered(s, T);
      return true, [];
    }
    var ceil := Ceiling(T);
    if ceil != Full(s) {
      ok, Tbar := ComplementBelow(s, T, ceil);
      return;
    }
    var d := MassiveCount(s, T);
    if d.varsActive == 1 {
      ActiveCount(s, T, d);
      SingleActive(s, T, ceil);
      AllCovered(s, T);
      return true, [];
    }
    if d.varsUnate == d.varsActive {
      ok, Tbar := UnateCase(s, T, d);
      return;
    }
    ok, Tbar := ComplementSplit(s, T, d);
  }

  method ComplementBelow(s: Space, T: CubeList, ceil: Cube) returns (ok: bool, Tbar: Cover)
    requires InSpace(s, T) && CeilOf(T, ceil) && T.items != [] && ceil != Full(s)
    ensures |s.sizes| <= 1025 ==> ok
    ensures ok ==> Answer(s, T, false, Tbar)
    decreases |Full(s) - T.cof|, 0
  {
    hide InSpace, Answer, Full, Opposites, Mask;
    CeilSmaller(s, T, ceil);
    var ceilCompl := ComplCube(s, ceil);
    ok, Tbar := Complement(s, CeilList(s, T, ceil));
    if ok {
      CeilComplement(s, T, ceil, Tbar, ceilCompl);
      Tbar := Tbar + ceilCompl;
    }
  }

  lemma AnswerParts(s: Space, T: CubeList, pos: bool, B: Cover)
    requires Answer(s, T, pos, B)
    ensures Valid(s, B) && Exact(s, T, pos, B) && LiveCubes(s, AliveVars(s, T), T.cof, B)
  {
  }

  lemma MergedAnswer(s: Space, T: CubeList, pos: bool, B: Cover)
    requires Exact(s, T, pos, B) && AllGood(s, T, pos, AliveVars(s, T), B)
    ensures Answer(s, T, pos, B)
  {
    hide Full, Sound, ValuedIn, Exact, AliveVars;
    forall i | 0 <= i < |B|
      ensures B[i].cube <= Full(s) && ValuedIn(s, AliveVars(s, T), B[i].cube - T.cof)
    {
      assert Good(s, T, pos, AliveVars(s, T), B[i].cube);
    }
  }

  method ComplementSplit(s: Space, T: CubeList, d: CData) returns (ok: bool, Tbar: Cover)
    requires InSpace(s, T) && CountsOf(s, T, d) && d.varsUnate != d.varsActive
    ensures |s.sizes| <= 1025 ==> ok
    ensures ok ==> Answer(s, T, false, Tbar)
    decreases |Full(s) - T.cof|, 0
  {
    hide InSpace, Answer, Full, CountsOf, HasActivePair, HalfOf, SplitOf, Exact, AllGood, Valid, LiveCubes, AliveVars;
    BestHasTwo(s, T, d);
    var cl, cr, L, R := Halves(s, T, d);
    var Tl, Tr;
    Tbar := [];
    ok, Tl := Complement(s, L);
    if !ok {
      return;
    }
    ok, Tr := Complement(s, R);
    if !ok {
      return;
    }
    AnswerParts(s, L, false, Tl);
    AnswerParts(s, R, false, Tr);
    var lifting := if |Tr| * |Tl| > (|Tr| + |Tl|) * |T.items| then UseComplLiftOnset else UseComplLift;
    FewerLive(s, AliveVars(s, L), AliveVars(s, T), L.cof, Tl);
    FewerLive(s, AliveVars(s, R), AliveVars(s, T), R.cof, Tr);
    Tbar := ComplMerge(s, T, false, AliveVars(s, T), Tl, Tr, cl, cr, d.best, lifting, L, R);
    MergedAnswer(s, T, false, Tbar);
  }

  /** The complement of a whole cover: it meets no minterm of the cover, together
      they are the universe, and no cube of it is void. */
  method ComplementCover(s: Space, F: Cover, D: Cover) returns (ok: bool, R: Cover)
    requires Valid(s, F) && Valid(s, D)
    ensures |s.sizes| <= 1025 ==> ok
    ensures ok ==> Valid(s, R) && forall m :: IsMinterm(s, m) ==> (Has(R, m) <==> !(Has(F, m) || Has(D, m)))
    ensures ok ==> KeepsValues(s, F + D, R)
    ensures ok && AllNonVoid(s, F) && AllNonVoid(s, D) ==> AllNonVoid(s, R)
  {
    hide Full, Valid, Has, AllNonVoid, KeepsValues, Answer, InSpace, AliveVars;
    var T := Cube2List(F, D);
    WholeList(s, F, D);
    ok, R := Complement(s, T);
    if ok {
      AnswerParts(s, T, false, R);
      forall m | IsMinterm(s, m)
        ensures Has(R, m) <==> !(Has(F, m) || Has(D, m))
      {
        WholeExact(s, F, D, false, R, m);
      }
      AnswerKeeps(s, F, D, R);
      if AllNonVoid(s, F) && AllNonVoid(s, D) {
        NonVoidAppend(s, F, D);
        NonVoidKept(s, F + D, R);
      }
    }
  }

  lemma WholeList(s: Space, F: Cover, D: Cover)
    requires Valid(s, F) && Valid(s, D)
    ensures InSpace(s, Cube2List(F, D)) && Cube2List(F, D).cof == {}
  {
    hide Full;
    Cube2ListValid(s, F, D);
  }

  lemma WholeExact(s: Space, F: Cover, D: Cover, pos: bool, B: Cover, m: Minterm)
    requires Exact(s, Cube2List(F, D), pos, B) && IsMinterm(s, m)
    ensures Has(B, m) <==> ((Has(F, m) || Has(D, m)) <==> pos)
  {
    hide Has, Covers;
    var T := Cube2List(F, D);
    assert Outside(s, T.cof, m);
    ListCovers(F, D, m);
  }

  lemma ListCovers(F: Cover, D: Cover, m: Minterm)
    ensures Covers(Cube2List(F, D).items, m) <==> Has(F, m) || Has(D, m)
  {
    hide In, Cube2List;
    ListItems(F, D);
    var items := Cube2List(F, D).items;
    if it :| it in items && In(m, it.cube) {
      var n :| 0 <= n < |items| && items[n] == it;
      assert if n < |F| then In(m, F[n].cube) else In(m, D[n - |F|].cube);
    }
    if Has(F, m) {
      var i :| 0 <= i < |F| && In(m, F[i].cube);
      assert items[i] in items && items[i].cube == F[i].cube;
    } else if Has(D, m) {
      var j :| 0 <= j < |D| && In(m, D[j].cube);
      assert items[|F| + j] in items && items[|F| + j].cube == D[j].cube;
    }
  }

  lemma NonVoidAppend(s: Space, F: Cover, G: Cover)
    requires AllNonVoid(s, F) && AllNonVoid(s, G)
    ensures AllNonVoid(s, F + G)
  {
    hide NonVoid;
  }

  /** A list with nothing cofactored is alive in every variable in which all its
      cubes have a value. */
  lemma ValuedAlive(s: Space, F: Cover, D: Cover, v: nat)
    requires v < |s.sizes| && Valued(s, F + D, v)
    ensures v in AliveVars(s, Cube2List(F, D))
  {
    hide Full, Mask;
    var T := Cube2List(F, D);
    forall it | it in T.items
      ensures (it.cube - T.cof) * Mask(s, v) != {}
    {
      var n :| 0 <= n < |T.items| && T.items[n] == it;
      assert (F + D)[n].cube == it.cube;
      assert it.cube - T.cof == it.cube;
    }
    FullValued(s, v);
    assert Full(s) - T.cof == Full(s);
  }

  lemma FullNonVoid(s: Space)
    ensures NonVoid(s, Full(s))
  {
    hide Full, Mask;
    forall v | 0 <= v < |s.sizes|
      ensures Full(s) * Mask(s, v) != {}
    {
      FullValued(s, v);
    }
  }

  lemma FullValued(s: Space, v: nat)
    requires v < |s.sizes|
    ensures Full(s) * Mask(s, v) != {}
  {
    assert Part(v, 0) in Full(s) * Mask(s, v);
  }

  lemma AnswerKeeps(s: Space, F: Cover, D: Cover, B: Cover)
    requires LiveCubes(s, AliveVars(s, Cube2List(F, D)), {}, B)
    ensures KeepsValues(s, F + D, B)
  {
    hide Mask, AliveVars;
    forall v, i | 0 <= v < |s.sizes| && Valued(s, F + D, v) && 0 <= i < |B|
      ensures B[i].cube * Mask(s, v) != {}
    {
      ValuedAlive(s, F, D, v);
      assert B[i].cube - {} == B[i].cube;
      assert ValuedIn(s, AliveVars(s, Cube2List(F, D)), B[i].cube - {});
    }
  }

  // ---- simplification

  /** The cubes of the list, with the parts cofactored away (cubeunlist). */
  function CubeUnlist(T: CubeList): (B: Cover)
    ensures |B| == |T.items| && forall i :: 0 <= i < |B| ==> B[i] == Plain(T.items[i].cube + T.cof)
  {
    seq(|T.items|, i requires 0 <= i < |T.items| => Plain(T.items[i].cube + T.cof))
  }

  lemma UnlistAnswer(s: Space, T: CubeList)
    requires InSpace(s, T)
    ensures Answer(s, T, true, CubeUnlist(T))
  {
    hide Full, ValuedIn, In, AliveVars;
    var B := CubeUnlist(T);
    forall m | Outside(s, T.cof, m)
      ensures Has(B, m) <==> Covers(T.items, m)
    {
      if i :| 0 <= i < |B| && In(m, B[i].cube) {
        InOutside(s, T.cof, T.items[i].cube, m);
      }
      if it :| it in T.items && In(m, it.cube) {
        var i :| 0 <= i < |T.items| && T.items[i] == it;
        InOutside(s, T.cof, T.items[i].cube, m);
        assert In(m, B[i].cube);
      }
    }
    forall i | 0 <= i < |B|
      ensures ValuedIn(s, AliveVars(s, T), B[i].cube - T.cof)
    {
      WiderLive(s, AliveVars(s, T), T.items[i].cube, B[i].cube, T.cof);
    }
  }

  lemma InOutside(s: Space, cof: Cube, c: Cube, m: Minterm)
    requires Outside(s, cof, m)
    ensures In(m, c + cof) <==> In(m, c)
  {
    if In(m, c + cof) {
      forall v | 0 <= v < |m|
        ensures Part(v, m[v]) in c
      {
        assert Part(v, m[v]) in c + cof && Part(v, m[v]) !in cof;
      }
    }
  }

  /** Dropping contained cubes keeps the answer. */
  lemma ContainedAnswer(s: Space, T: CubeList, F: Cover, B: Cover)
    requires Answer(s, T, true, F) && Inside(F, B) && forall i :: 0 <= i < |B| ==> B[i] in F
    ensures Answer(s, T, true, B)
  {
    hide Full, ValuedIn, In, Has, Valid, LiveCubes, Covers, Outside, Inside, AliveVars;
    ElementsFrom(B, F);
    SubcoverFacts(s, F, B);
    forall m | Has(F, m)
      ensures Has(B, m)
    {
      InsideHas(F, B, m);
    }
    ElementsLive(s, AliveVars(s, T), T.cof, F, B);
  }

  lemma ElementsFrom(B: Cover, F: Cover)
    requires forall i :: 0 <= i < |B| ==> B[i] in F
    ensures forall c :: c in B ==> c in F
  {
  }

  lemma ElementsLive(s: Space, live: set<nat>, cof: Cube, F: Cover, B: Cover)
    requires LiveCubes(s, live, cof, F) && forall c :: c in B ==> c in F
    ensures LiveCubes(s, live, cof, B)
  {
    hide ValuedIn;
    forall i | 0 <= i < |B|
      ensures ValuedIn(s, live, B[i].cube - cof)
    {
      assert B[i] in F;
      var j :| 0 <= j < |F| && F[j] == B[i];
    }
  }

  /** Every cube cut down to the ceiling. */
  function CutAll(A: Cover, ceil: Cube): (B: Cover)
    ensures |B| == |A| && forall i :: 0 <= i < |A| ==> B[i].cube == A[i].cube * ceil
  {
    seq(|A|, i requires 0 <= i < |A| => A[i].(cube := A[i].cube * ceil))
  }

  lemma CutAnswer(s: Space, T: CubeList, ceil: Cube, A: Cover)
    requires InSpace(s, T) && CeilOf(T, ceil) && T.items != [] && ceil <= Full(s)
    requires Answer(s, CeilList(s, T, ceil), true, A)
    ensures Answer(s, T, true, CutAll(A, ceil))
  {
    hide Full, ValuedIn, In, Covers, Outside, AliveVars, Has, Valid, LiveCubes, InSpace;
    var B := CutAll(A, ceil);
    CutValid(s, A, ceil);
    forall m | Outside(s, T.cof, m)
      ensures Has(B, m) <==> Covers(T.items, m)
    {
      CeilSides(s, T, ceil, m);
      CutHas(A, ceil, m);
    }
    CeilAlive(s, T, ceil);
    FewerLive(s, AliveVars(s, CeilList(s, T, ceil)), AliveVars(s, T), CeilList(s, T, ceil).cof, A);
    CutLive(s, AliveVars(s, T), T, ceil, A);
  }

  lemma CutValid(s: Space, A: Cover, ceil: Cube)
    requires Valid(s, A)
    ensures Valid(s, CutAll(A, ceil))
  {
    hide Full;
    forall i | 0 <= i < |A|
      ensures A[i].cube * ceil <= Full(s)
    {
      assert A[i].cube <= Full(s);
    }
  }

  lemma CutHas(A: Cover, ceil: Cube, m: Minterm)
    ensures Has(CutAll(A, ceil), m) <==> Has(A, m) && In(m, ceil)
  {
    var B := CutAll(A, ceil);
    if i :| 0 <= i < |B| && In(m, B[i].cube) {
      assert In(m, A[i].cube) && In(m, ceil);
    }
    if i :| 0 <= i < |A| && In(m, A[i].cube) && In(m, ceil) {
      assert In(m, B[i].cube);
    }
  }

  lemma CutLive(s: Space, live: set<nat>, T: CubeList, ceil: Cube, A: Cover)
    requires LiveCubes(s, live, CeilList(s, T, ceil).cof, A) && Valid(s, A)
    ensures LiveCubes(s, live, T.cof, CutAll(A, ceil))
  {
    hide ValuedIn, Full;
    var B := CutAll(A, ceil);
    forall i | 0 <= i < |B|
      ensures ValuedIn(s, live, B[i].cube - T.cof)
    {
      assert A[i].cube <= Full(s);
      var rest := A[i].cube - CeilList(s, T, ceil).cof;
      assert rest - T.cof == rest;
      WiderLive(s, live, rest, B[i].cube, T.cof);
    }
  }

  /** No cube lies inside another, and each holds the parts factored out before. */
  ghost predicate Uncontained(T: CubeList, B: Cover) {
    Containment.Antichain(B) && forall i :: 0 <= i < |B| ==> T.cof <= B[i].cube
  }

  lemma WholeUncontained(s: Space, T: CubeList)
    requires InSpace(s, T)
    ensures Uncontained(T, Whole(s))
  {
    hide Full;
  }

  /** Factoring out the columns of zeros leaves a unate list unate. */
  lemma CeilUnate(s: Space, T: CubeList, ceil: Cube)
    requires UnateMap.UnateList(s, T)
    ensures UnateMap.UnateList(s, CeilList(s, T, ceil))
  {
    hide Mask, Full;
    forall v | 0 <= v < |s.sizes|
      ensures |ActiveParts(s, CeilList(s, T, ceil), v)| <= 1
    {
      SubsetCard(ActiveParts(s, CeilList(s, T, ceil), v), ActiveParts(s, T, v));
    }
  }

  /** Cutting cubes that agree outside the ceiling puts none inside another. */
  lemma CutUncontained(s: Space, T: CubeList, ceil: Cube, A: Cover)
    requires InSpace(s, T) && CeilOf(T, ceil) && Valid(s, A) && Uncontained(CeilList(s, T, ceil), A)
    ensures Uncontained(T, CutAll(A, ceil))
  {
    hide Full, InSpace;
    var B := CutAll(A, ceil);
    forall i, j | 0 <= i < |B| && 0 <= j < |B| && i != j
      ensures !(B[i].cube <= B[j].cube)
    {
      assert !(A[i].cube <= A[j].cube);
      var p :| p in A[i].cube && p !in A[j].cube;
      assert A[i].cube <= Full(s) && Full(s) - ceil <= A[j].cube;
      assert p in B[i].cube && p !in B[j].cube;
    }
    forall i, p | 0 <= i < |B| && p in T.cof
      ensures p in B[i].cube
    {
      assert CeilList(s, T, ceil).cof <= A[i].cube;
    }
  }

  lemma UnlistUncontained(T: CubeList, B: Cover)
    requires Containment.Antichain(B) && forall i :: 0 <= i < |B| ==> B[i] in CubeUnlist(T)
    ensures Uncontained(T, B)
  {
    hide Containment.Antichain;
    var F := CubeUnlist(T);
    forall i | 0 <= i < |B|
      ensures T.cof <= B[i].cube
    {
      assert B[i] in F;
      var j :| 0 <= j < |F| && F[j] == B[i];
    }
  }

  /** A quick simplification: an exact cover of the same minterms, without containment
      if the list is unate. */
  method Simplify(s: Space, T: CubeList) returns (Tnew: Cover)
    requires InSpace(s, T)
    ensures Answer(s, T, true, Tnew) && |Tnew| <= |T.items|
    ensures UnateMap.UnateList(s, T) ==> Uncontained(T, Tnew)
    decreases |Full(s) - T.cof|, 1
  {
    hide InSpace, Answer, Full, FullRow, CountsOf, ActiveParts, Mask, Live, NoFullRow, Opposites, UnateMap.UnateList,
      Containment.Antichain, Uncontained;
    WholeUncontained(s, T);
    if T.items == [] {
      NoCubes(s, T);
      FewUncontained(T, []);
      return [];
    }
    if |T.items| == 1 {
      ghost var compl := ComplOne(s, T);
      OneCube(s, T, compl);
      FewUncontained(T, [Plain(T.cof + T.items[0].cube)]);
      return [Plain(T.cof + T.items[0].cube)];
    }
    var full := HasFullRow(s, T);
    if full {
      FullRowAll(s, T);
      AllCovered(s, T);
      return Whole(s);
    }
    var ceil := Ceiling(T);
    if ceil != Full(s) {
      CeilSmaller(s, T, ceil);
      Tnew := Simplify(s, CeilList(s, T, ceil));
      CutAnswer(s, T, ceil, Tnew);
      if UnateMap.UnateList(s, T) {
        CeilUnate(s, T, ceil);
        AnswerParts(s, CeilList(s, T, ceil), true, Tnew);
        CutUncontained(s, T, ceil, Tnew);
      }
      Tnew := CutAll(Tnew, ceil);
      return;
    }
    var d := MassiveCount(s, T);
    if d.varsActive == 1 {
      ActiveCount(s, T, d);
      SingleActive(s, T, ceil);
      AllCovered(s, T);
      return Whole(s);
    }
    UnlistAnswer(s, T);
    if d.varsUnate == d.varsActive {
      Tnew := Containment.SfContain(CubeUnlist(T));
      ContainedAnswer(s, T, CubeUnlist(T), Tnew);
      UnlistUncontained(T, Tnew);
      return;
    }
    NotUnate(s, T, d);
    Tnew := SimplifySplit(s, T, d);
    if |Tnew| > |T.items| {
      Tnew := CubeUnlist(T);
    }
  }

  lemma FewUncontained(T: CubeList, B: Cover)
    requires |B| <= 1 && forall i :: 0 <= i < |B| ==> T.cof <= B[i].cube
    ensures Uncontained(T, B)
  {
  }

  lemma NotUnate(s: Space, T: CubeList, d: CData)
    requires CountsOf(s, T, d) && d.varsUnate != d.varsActive
    ensures !UnateMap.UnateList(s, T)
  {
    hide ActiveParts;
    NumFacts(s, T, |s.sizes|);
  }

  lemma ComplOne(s: Space, T: CubeList) returns (B: Cover)
    requires |T.items| == 1
    ensures Opposites(s, T.cof + T.items[0].cube, |s.sizes|, B)
  {
    B := OppositesUpTo(s, T.cof + T.items[0].cube, |s.sizes|);
  }

  lemma {:induction false} OppositesUpTo(s: Space, p: Cube, n: nat) returns (B: Cover)
    requires n <= |s.sizes|
    ensures Opposites(s, p, n, B)
  {
    hide Full, Mask, Opposite;
    if n == 0 {
      B := [];
    } else {
      B := OppositesUpTo(s, p, n - 1);
      OppositesStep(s, p, n - 1, B);
      if (Full(s) - p) * Mask(s, n - 1) != {} {
        B := B + [Plain(Opposite(s, p, n - 1))];
      }
    }
  }

  method SimplifySplit(s: Space, T: CubeList, d: CData) returns (Tnew: Cover)
    requires InSpace(s, T) && CountsOf(s, T, d) && d.varsUnate != d.varsActive
    ensures Answer(s, T, true, Tnew)
    decreases |Full(s) - T.cof|, 0
  {
    hide InSpace, Answer, Full, CountsOf, HasActivePair, HalfOf, SplitOf, Exact, AllGood, Valid, LiveCubes, AliveVars;
    BestHasTwo(s, T, d);
    var cl, cr, L, R := Halves(s, T, d);
    var Tl := Simplify(s, L);
    var Tr := Simplify(s, R);
    AnswerParts(s, L, true, Tl);
    AnswerParts(s, R, true, Tr);
    FewerLive(s, AliveVars(s, L), AliveVars(s, T), L.cof, Tl);
    FewerLive(s, AliveVars(s, R), AliveVars(s, T), R.cof, Tr);
    Tnew := ComplMerge(s, T, true, AliveVars(s, T), Tl, Tr, cl, cr, d.best, UseComplLift, L, R);
    MergedAnswer(s, T, true, Tnew);
  }
}
