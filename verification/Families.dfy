/** Covers: set families of cubes with the flags kept in their header words. */
module Families {
  import opened Cubes
  import opened CubeLists

  /** A cube with its flags. */
  datatype FCube = FCube(cube: Cube, prime: bool, nonEssen: bool, active: bool, covered: bool, relEssen: bool)

  type Cover = seq<FCube>

  /** A cube without any flag set. */
  function Plain(c: Cube): FCube {
    FCube(c, false, false, false, false, false)
  }

  ghost predicate Valid(s: Space, F: Cover) {
    forall i :: 0 <= i < |F| ==> F[i].cube <= Full(s)
  }

  /** No cube of the cover is void. */
  ghost predicate AllNonVoid(s: Space, F: Cover) {
    forall i :: 0 <= i < |F| ==> NonVoid(s, F[i].cube)
  }

  /** Every cube of the cover has a value in variable v. */
  ghost predicate Valued(s: Space, F: Cover, v: nat)
    requires v < |s.sizes|
  {
    forall i :: 0 <= i < |F| ==> F[i].cube * Mask(s, v) != {}
  }

  /** In every variable in which all cubes of F have a value, all cubes of G do. */
  ghost predicate KeepsValues(s: Space, F: Cover, G: Cover) {
    forall v :: 0 <= v < |s.sizes| && Valued(s, F, v) ==> Valued(s, G, v)
  }

  /** No cube of R that denotes anything has all the values of variable v. */
  ghost predicate NoneFull(s: Space, R: Cover, v: nat)
    requires v < |s.sizes|
  {
    forall j :: 0 <= j < |R| && NonVoid(s, R[j].cube) ==> !(Mask(s, v) <= R[j].cube)
  }

  /** The cover fits the OFF-set: no binary variable is empty in a cube of F and
      full in a cube of R that denotes anything. */
  ghost predicate Fitting(s: Space, F: Cover, R: Cover) {
    forall v :: 0 <= v < s.numBinary ==> Valued(s, F, v) || NoneFull(s, R, v)
  }

  lemma FittingKept(s: Space, F: Cover, G: Cover, R: Cover)
    requires Fitting(s, F, R) && KeepsValues(s, F, G)
    ensures Fitting(s, G, R)
  {
    hide Valued, NoneFull;
  }

  lemma NonVoidKept(s: Space, F: Cover, G: Cover)
    requires AllNonVoid(s, F) && KeepsValues(s, F, G)
    ensures AllNonVoid(s, G)
  {
    hide Mask;
    forall i, v | 0 <= i < |G| && 0 <= v < |s.sizes|
      ensures G[i].cube * Mask(s, v) != {}
    {
      NonVoidValued(s, F, v);
      assert Valued(s, G, v);
    }
  }

  lemma NonVoidValued(s: Space, F: Cover, v: nat)
    requires AllNonVoid(s, F) && v < |s.sizes|
    ensures Valued(s, F, v)
  {
    hide Mask, NonVoid;
    forall i | 0 <= i < |F|
      ensures F[i].cube * Mask(s, v) != {}
    {
      assert NonVoid(s, F[i].cube);
      ValueIn(s, F[i].cube, v);
    }
  }

  lemma ValueIn(s: Space, c: Cube, v: nat)
    requires NonVoid(s, c) && v < |s.sizes|
    ensures c * Mask(s, v) != {}
  {
  }

  lemma NonVoidFitting(s: Space, F: Cover, R: Cover)
    requires AllNonVoid(s, F)
    ensures Fitting(s, F, R)
  {
    hide AllNonVoid, Valued;
    forall v | 0 <= v < s.numBinary
      ensures Valued(s, F, v)
    {
      NonVoidValued(s, F, v);
    }
  }

  lemma KeepsSelf(s: Space, F: Cover)
    ensures KeepsValues(s, F, F)
  {
  }

  lemma KeepsTrans(s: Space, F: Cover, G: Cover, H: Cover)
    requires KeepsValues(s, F, G) && KeepsValues(s, G, H)
    ensures KeepsValues(s, F, H)
  {
    hide Valued;
  }

  lemma KeepsAppend(s: Space, F: Cover, G: Cover, H: Cover)
    requires KeepsValues(s, F, G) && KeepsValues(s, F, H)
    ensures KeepsValues(s, F, G + H)
  {
    hide Mask;
    forall v | 0 <= v < |s.sizes| && Valued(s, F, v)
      ensures Valued(s, G + H, v)
    {
      assert Valued(s, G, v) && Valued(s, H, v);
    }
  }

  /** Some cube of F has no value that c lacks: it is empty wherever c is. */
  ghost predicate Emptier(s: Space, F: Cover, c: Cube) {
    exists i :: 0 <= i < |F| && NoEmptier(s, F[i].cube, c)
  }

  /** c has a value in every variable in which a has one. */
  ghost predicate NoEmptier(s: Space, a: Cube, c: Cube) {
    forall v :: 0 <= v < |s.sizes| && a * Mask(s, v) != {} ==> c * Mask(s, v) != {}
  }

  lemma WiderNoEmptier(s: Space, a: Cube, c: Cube)
    requires a <= c
    ensures NoEmptier(s, a, c)
  {
    forall v | 0 <= v < |s.sizes| && a * Mask(s, v) != {}
      ensures c * Mask(s, v) != {}
    {
      assert a * Mask(s, v) <= c * Mask(s, v);
    }
  }

  lemma EmptierTrans(s: Space, F: Cover, a: Cube, c: Cube)
    requires Emptier(s, F, a) && NoEmptier(s, a, c)
    ensures Emptier(s, F, c)
  {
    hide Mask;
    var i :| 0 <= i < |F| && NoEmptier(s, F[i].cube, a);
    assert NoEmptier(s, F[i].cube, c);
  }

  lemma NonVoidNoEmptier(s: Space, a: Cube, c: Cube)
    requires NonVoid(s, c)
    ensures NoEmptier(s, a, c)
  {
    hide Mask;
  }

  /** If every cube of G has values wherever some cube of F has them, values are
      kept. */
  lemma EmptierKeeps(s: Space, F: Cover, G: Cover)
    requires forall i :: 0 <= i < |G| ==> Emptier(s, F, G[i].cube)
    ensures KeepsValues(s, F, G)
  {
    hide Mask;
    forall v, i | 0 <= v < |s.sizes| && Valued(s, F, v) && 0 <= i < |G|
      ensures G[i].cube * Mask(s, v) != {}
    {
      assert Emptier(s, F, G[i].cube);
      var j :| 0 <= j < |F| && NoEmptier(s, F[j].cube, G[i].cube);
      assert F[j].cube * Mask(s, v) != {};
    }
  }

  lemma ShapesKeep(s: Space, G: Cover, F: Cover)
    requires SameShapes(G, F)
    ensures KeepsValues(s, F, G)
  {
    hide NoEmptier;
    forall i | 0 <= i < |G|
      ensures Emptier(s, F, G[i].cube)
    {
      assert IsShape(G[i].cube, F);
      var j :| 0 <= j < |F| && F[j].cube == G[i].cube;
      WiderNoEmptier(s, F[j].cube, G[i].cube);
    }
    EmptierKeeps(s, F, G);
  }

  /** The minterm lies in some cube of the cover. */
  ghost predicate Has(F: Cover, m: Minterm) {
    exists i :: 0 <= i < |F| && In(m, F[i].cube)
  }

  /** No cube of F meets a cube of R. */
  ghost predicate Disjoint(s: Space, F: Cover, R: Cover) {
    forall i, j :: 0 <= i < |F| && 0 <= j < |R| ==> !Meets(s, F[i].cube, R[j].cube)
  }

  /** The cube lies inside some cube of the cover. */
  ghost predicate Within(c: Cube, G: Cover) {
    exists j :: 0 <= j < |G| && c <= G[j].cube
  }

  /** Every cube of F lies inside a cube of G. */
  ghost predicate Inside(F: Cover, G: Cover) {
    forall i :: 0 <= i < |F| ==> Within(F[i].cube, G)
  }

  /** Every minterm of F is one of G or D. */
  ghost predicate CoveredBy(s: Space, F: Cover, G: Cover, D: Cover) {
    forall m :: IsMinterm(s, m) && Has(F, m) ==> Has(G, m) || Has(D, m)
  }

  /** The cube is one of F, flags aside. */
  ghost predicate IsShape(c: Cube, F: Cover) {
    exists j :: 0 <= j < |F| && F[j].cube == c
  }

  ghost predicate SameShapes(G: Cover, F: Cover) {
    forall i :: 0 <= i < |G| ==> IsShape(G[i].cube, F)
  }

  lemma InsideHas(F: Cover, G: Cover, m: Minterm)
    requires Inside(F, G) && Has(F, m)
    ensures Has(G, m)
  {
    var i :| 0 <= i < |F| && In(m, F[i].cube);
    assert Within(F[i].cube, G);
    var j :| 0 <= j < |G| && F[i].cube <= G[j].cube;
  }

  lemma WithinInside(c: Cube, P: Cover, R: Cover)
    requires Within(c, P) && Inside(P, R)
    ensures Within(c, R)
  {
    var i :| 0 <= i < |P| && c <= P[i].cube;
    assert Within(P[i].cube, R);
    var j :| 0 <= j < |R| && P[i].cube <= R[j].cube;
    assert c <= R[j].cube;
  }

  lemma InsideTrans(F: Cover, G: Cover, H: Cover)
    requires Inside(F, G) && Inside(G, H)
    ensures Inside(F, H)
  {
    forall i | 0 <= i < |F|
      ensures Within(F[i].cube, H)
    {
      assert Within(F[i].cube, G);
      var j :| 0 <= j < |G| && F[i].cube <= G[j].cube;
      assert Within(G[j].cube, H);
      var k :| 0 <= k < |H| && G[j].cube <= H[k].cube;
      assert F[i].cube <= H[k].cube;
    }
  }

  lemma ValidAt(s: Space, F: Cover, k: nat)
    requires Valid(s, F) && k < |F|
    ensures F[k].cube <= Full(s)
  {
  }

  lemma InsideDisjoint(s: Space, F: Cover, G: Cover, R: Cover)
    requires Inside(F, G) && Disjoint(s, G, R)
    ensures Disjoint(s, F, R)
  {
    hide Meets;
    forall i, j | 0 <= i < |F| && 0 <= j < |R|
      ensures !Meets(s, F[i].cube, R[j].cube)
    {
      if Meets(s, F[i].cube, R[j].cube) {
        assert Within(F[i].cube, G);
        var k :| 0 <= k < |G| && F[i].cube <= G[k].cube;
        MeetsMonotone(s, F[i].cube, R[j].cube, G[k].cube, R[j].cube);
      }
    }
  }

  // ---- cube lists over covers: the identity of a cube is its position

  function Items(F: Cover, base: nat): (r: seq<Item>)
    ensures |r| == |F|
    ensures forall i :: 0 <= i < |F| ==> r[i] == Item(F[i].cube, base + i)
  {
    seq(|F|, i requires 0 <= i < |F| => Item(F[i].cube, base + i))
  }

  /** The list of F and D with nothing cofactored yet (cube2list). */
  function Cube2List(F: Cover, D: Cover): (T: CubeList) {
    CubeList({}, Items(F, 0) + Items(D, |F|))
  }

  /** Some cube other than the k-th of F covers m. */
  ghost predicate HasOther(F: Cover, D: Cover, k: int, m: Minterm) {
    || (exists i :: 0 <= i < |F| && i != k && In(m, F[i].cube))
    || (exists j :: 0 <= j < |D| && |F| + j != k && In(m, D[j].cube))
  }

  lemma ListItems(F: Cover, D: Cover)
    ensures |Cube2List(F, D).items| == |F| + |D|
    ensures forall i :: 0 <= i < |F| ==> Cube2List(F, D).items[i] == Item(F[i].cube, i)
    ensures forall j :: 0 <= j < |D| ==> Cube2List(F, D).items[|F| + j] == Item(D[j].cube, |F| + j)
  {
  }

  lemma Cube2ListOthers(F: Cover, D: Cover, k: int, m: Minterm)
    ensures OtherCovers(Cube2List(F, D), k, m) <==> HasOther(F, D, k, m)
  {
    hide Cube2List, In;
    ListItems(F, D);
    if HasOther(F, D, k, m) {
      OtherListed(F, D, k, m);
    }
    var items := Cube2List(F, D).items;
    if it :| it in items && it.id != k && In(m, it.cube) {
      var n :| 0 <= n < |items| && items[n] == it;
      if n < |F| {
        assert In(m, F[n].cube) && n != k;
      } else {
        assert In(m, D[n - |F|].cube) && |F| + (n - |F|) != k;
      }
    }
  }

  lemma OtherListed(F: Cover, D: Cover, k: int, m: Minterm)
    requires HasOther(F, D, k, m)
    ensures OtherCovers(Cube2List(F, D), k, m)
  {
    hide Cube2List, In;
    ListItems(F, D);
    var items := Cube2List(F, D).items;
    if i :| 0 <= i < |F| && i != k && In(m, F[i].cube) {
      assert items[i] in items && items[i].id != k && In(m, items[i].cube);
    } else {
      var j :| 0 <= j < |D| && |F| + j != k && In(m, D[j].cube);
      assert items[|F| + j] in items && items[|F| + j].id != k && In(m, items[|F| + j].cube);
    }
  }

  lemma Cube2ListValid(s: Space, F: Cover, D: Cover)
    requires Valid(s, F) && Valid(s, D)
    ensures forall it :: it in Cube2List(F, D).items ==> it.cube <= Full(s)
  {
    hide Full;
    var items := Cube2List(F, D).items;
    forall it | it in items
      ensures it.cube <= Full(s)
    {
      var n :| 0 <= n < |items| && items[n] == it;
    }
  }

  // ---- ordering and filtering

  /** Put the cubes in some order; the heuristics decide which one.  Every
      order is possible here. */
  method Reorder(F: Cover) returns (G: Cover)
    ensures |G| == |F| && multiset(G) == multiset(F)
  {
    G := F;
    var i := |F|;
    while i > 1
      invariant |G| == |F| && multiset(G) == multiset(F)
    {
      i := i - 1;
      var k :| 0 <= k <= i < |G|;
      G := G[i := G[k]][k := G[i]];
    }
  }

  /** Reordering keeps the cubes, and with them every property of the set. */
  lemma ReorderedFacts(s: Space, F: Cover, G: Cover)
    requires multiset(G) == multiset(F)
    ensures forall c :: c in F <==> c in G
    ensures Valid(s, F) ==> Valid(s, G)
    ensures forall m :: Has(F, m) <==> Has(G, m)
    ensures Inside(F, G) && Inside(G, F)
  {
    hide Valid, Has, Inside;
    forall c
      ensures c in F <==> c in G
    {
      assert c in F <==> c in multiset(F);
      assert c in G <==> c in multiset(G);
    }
    SubcoverFacts(s, F, G);
    SubcoverFacts(s, G, F);
  }

  lemma SubcoverFacts(s: Space, F: Cover, G: Cover)
    requires forall c :: c in G ==> c in F
    ensures Valid(s, F) ==> Valid(s, G)
    ensures forall m :: Has(G, m) ==> Has(F, m)
    ensures Inside(G, F)
  {
    hide Full, In;
    forall i | 0 <= i < |G|
      ensures exists j :: 0 <= j < |F| && F[j] == G[i]
    {
      assert G[i] in F;
    }
  }

  /** Cubes taken from F cover no more than F. */
  lemma ShapesHas(G: Cover, F: Cover)
    requires SameShapes(G, F)
    ensures forall m :: Has(G, m) ==> Has(F, m)
    ensures Inside(G, F)
  {
    hide In;
    forall i | 0 <= i < |G|
      ensures IsShape(G[i].cube, F)
    {
    }
    forall m | Has(G, m)
      ensures Has(F, m)
    {
      var i :| 0 <= i < |G| && In(m, G[i].cube);
      var j :| 0 <= j < |F| && F[j].cube == G[i].cube;
    }
  }

  lemma ShapesValid(s: Space, G: Cover, F: Cover)
    requires SameShapes(G, F) && Valid(s, F)
    ensures Valid(s, G)
  {
    hide Full;
    forall i | 0 <= i < |G|
      ensures G[i].cube <= Full(s)
    {
      assert IsShape(G[i].cube, F);
      var j :| 0 <= j < |F| && F[j].cube == G[i].cube;
    }
  }

  /** Delete the inactive cubes. */
  method Inactive(F: Cover) returns (G: Cover, ghost from: seq<nat>)
    ensures |from| == |G| <= |F|
    ensures forall j :: 0 <= j < |G| ==> from[j] < |F| && G[j] == F[from[j]] && G[j].active
    ensures forall i, j :: 0 <= i < j < |from| ==> from[i] < from[j]
    ensures forall i :: 0 <= i < |F| && F[i].active ==> i in from
  {
    G, from := [], [];
    var i := 0;
    while i < |F|
      invariant 0 <= i <= |F|
      invariant |from| == |G| <= i
      invariant forall j :: 0 <= j < |G| ==> from[j] < i && G[j] == F[from[j]] && G[j].active
      invariant forall i, j :: 0 <= i < j < |from| ==> from[i] < from[j]
      invariant forall j :: 0 <= j < i && F[j].active ==> j in from
    {
      if F[i].active {
        G := G + [F[i]];
        from := from + [i];
      }
      i := i + 1;
    }
  }

  /** The flags do not matter to what a cover covers. */
  lemma SameCubesFacts(s: Space, F: Cover, G: Cover)
    requires |G| == |F| && forall i :: 0 <= i < |F| ==> G[i].cube == F[i].cube
    ensures Valid(s, F) ==> Valid(s, G)
    ensures forall m :: Has(F, m) <==> Has(G, m)
    ensures Inside(F, G) && Inside(G, F)
  {
    hide Full, In, Has, Within;
    forall m
      ensures Has(F, m) <==> Has(G, m)
    {
      SameCubesHas(F, G, m);
      SameCubesHas(G, F, m);
    }
    forall i | 0 <= i < |F|
      ensures Within(F[i].cube, G) && Within(G[i].cube, F)
    {
      WithinAt(F[i].cube, G, i);
      WithinAt(G[i].cube, F, i);
    }
  }

  lemma SameCubesHas(F: Cover, G: Cover, m: Minterm)
    requires |G| == |F| && forall i :: 0 <= i < |F| ==> G[i].cube == F[i].cube
    ensures Has(F, m) ==> Has(G, m)
  {
    hide In;
    if Has(F, m) {
      var i :| 0 <= i < |F| && In(m, F[i].cube);
      assert In(m, G[i].cube);
    }
  }

  lemma WithinAt(c: Cube, G: Cover, i: nat)
    requires i < |G| && c <= G[i].cube
    ensures Within(c, G)
  {
  }

  /** What deleting the inactive cubes leaves. */
  lemma InactiveFacts(s: Space, F: Cover, G: Cover, from: seq<nat>)
    requires |from| == |G|
    requires forall j :: 0 <= j < |G| ==> from[j] < |F| && G[j] == F[from[j]]
    ensures Valid(s, F) ==> Valid(s, G)
    ensures forall m :: Has(G, m) ==> Has(F, m)
    ensures Inside(G, F)
  {
    hide Full, In, Valid, Has, Inside;
    forall c | c in G
      ensures c in F
    {
      var j :| 0 <= j < |G| && G[j] == c;
      assert F[from[j]] == c;
    }
    SubcoverFacts(s, F, G);
  }
}
