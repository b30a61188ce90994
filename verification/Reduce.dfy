/** The reduction step: every cube shrinks to the smallest cube that still
    covers the minterms no other cube covers. */
module Reduce {
  import opened Cubes
  import opened Counting
  import opened CubeLists
  import opened Sccc
  import opened Families

  /** Some minterm of c through p is covered by no other cube of the list. */
  ghost predicate Needs(s: Space, T: CubeList, self: int, c: Cube, p: Part) {
    exists m :: IsMinterm(s, m) && In(m, c) && p.v < |m| && m[p.v] == p.k && !OtherCovers(T, self, m)
  }

  /** The maximal reduction of c: the smallest cube containing the minterms of c
      that no other cube covers.  A void cube is returned as it is. */
  method ReduceCube(s: Space, T: CubeList, c: Cube, self: int) returns (r: Cube)
    requires T.cof == {} && c <= Full(s)
    requires forall it :: it in T.items ==> it.cube <= Full(s)
    ensures r <= c
    ensures NonVoid(s, c) ==> forall p :: p in c ==> (p in r <==> Needs(s, T, self, c, p))
    ensures !NonVoid(s, c) ==> r == c
  {
    hide Full, IsSccc;
    var T' := Cofactor(s, T, c, self);
    CofactorMeaning(s, T, c, self, T');
    var cunder := SmallestCube(s, T');
    r := cunder * c;
    ReduceMeaning(s, T, c, self, T', cunder);
  }

  lemma ReduceMeaning(s: Space, T: CubeList, c: Cube, self: int, T': CubeList, r: Cube)
    requires T.cof == {} && c <= Full(s) && T'.cof == T.cof + (Full(s) - c)
    requires Live(s, T'.cof) <==> NonVoid(s, c)
    requires forall m :: Outside(s, T'.cof, m) <==> IsMinterm(s, m) && In(m, c)
    requires forall m :: IsMinterm(s, m) && In(m, c) ==> (Covers(T'.items, m) <==> OtherCovers(T, self, m))
    requires IsSccc(s, T', r)
    ensures NonVoid(s, c) ==> forall p :: p in c ==> (p in r <==> Needs(s, T, self, c, p))
    ensures !NonVoid(s, c) ==> c <= r
  {
    hide Full, Covers, OtherCovers, In, NonVoid, Live, Outside;
    forall p | p in c
      ensures Escapes(s, T', p) <==> Needs(s, T, self, c, p)
    {
      if m :| Outside(s, T'.cof, m) && p.v < |m| && m[p.v] == p.k && !Covers(T'.items, m) {
        assert IsMinterm(s, m) && In(m, c);
      }
      if m :| IsMinterm(s, m) && In(m, c) && p.v < |m| && m[p.v] == p.k && !OtherCovers(T, self, m) {
        assert Outside(s, T'.cof, m);
      }
    }
  }

  /** What makes it the smallest: r holds those minterms, and every cube that
      holds them all contains r. */
  lemma SmallestReduction(s: Space, T: CubeList, c: Cube, self: int, r: Cube)
    requires NonVoid(s, c) && r <= c
    requires forall p :: p in c ==> (p in r <==> Needs(s, T, self, c, p))
    ensures forall m :: IsMinterm(s, m) && In(m, c) && !OtherCovers(T, self, m) ==> In(m, r)
    ensures forall r' ::
      (forall m :: IsMinterm(s, m) && In(m, c) && !OtherCovers(T, self, m) ==> In(m, r')) ==> r <= r'
  {
    hide OtherCovers, NonVoid;
    forall m | IsMinterm(s, m) && In(m, c) && !OtherCovers(T, self, m)
      ensures In(m, r)
    {
      forall v | 0 <= v < |m|
        ensures Part(v, m[v]) in r
      {
        assert Needs(s, T, self, c, Part(v, m[v]));
      }
    }
    forall r' | forall m :: IsMinterm(s, m) && In(m, c) && !OtherCovers(T, self, m) ==> In(m, r')
      ensures r <= r'
    {
      forall p | p in r
        ensures p in r'
      {
        var m :| IsMinterm(s, m) && In(m, c) && p.v < |m| && m[p.v] == p.k && !OtherCovers(T, self, m);
        assert Part(p.v, m[p.v]) in r';
      }
    }
  }

  // ---- the pass over a cover

  /** Some minterm of c through p is covered by no cube but the k-th of F. */
  ghost predicate Alone(s: Space, F: Cover, D: Cover, k: nat, c: Cube, p: Part) {
    exists m :: IsMinterm(s, m) && In(m, c) && p.v < |m| && m[p.v] == p.k && !HasOther(F, D, k, m)
  }

  /** No part of the k-th cube can be given up: each lies on a minterm that only
      this cube covers. */
  ghost predicate Irreducible(s: Space, F: Cover, D: Cover, k: nat)
    requires k < |F|
  {
    NonVoid(s, F[k].cube) ==> forall p :: p in F[k].cube ==> Alone(s, F, D, k, F[k].cube, p)
  }

  /** F' is F with the k-th cube replaced by its maximal reduction. */
  ghost predicate Reduced(s: Space, F: Cover, D: Cover, k: nat, F': Cover)
    requires k < |F|
  {
    && |F'| == |F|
    && (forall i :: 0 <= i < |F| && i != k ==> F'[i] == F[i])
    && F'[k].cube <= F[k].cube
    && (NonVoid(s, F[k].cube) ==> forall p :: p in F[k].cube ==>
          (p in F'[k].cube <==> Alone(s, F, D, k, F[k].cube, p)))
    && (!NonVoid(s, F[k].cube) ==> F'[k].cube == F[k].cube)
  }

  lemma ReducedHasOther(s: Space, F: Cover, D: Cover, k: nat, F': Cover, j: nat, m: Minterm)
    requires k < |F| && Reduced(s, F, D, k, F') && HasOther(F', D, j, m)
    ensures HasOther(F, D, j, m)
  {
    if i :| 0 <= i < |F'| && i != j && In(m, F'[i].cube) {
      assert In(m, F[i].cube);
    }
  }

  lemma ReducedSelf(s: Space, F: Cover, D: Cover, k: nat, F': Cover, m: Minterm)
    requires k < |F| && Reduced(s, F, D, k, F')
    ensures HasOther(F', D, k, m) <==> HasOther(F, D, k, m)
  {
  }

  /** Reducing one cube keeps the minterms of the whole cover. */
  lemma ReducedKeeps(s: Space, F: Cover, D: Cover, k: nat, F': Cover, m: Minterm)
    requires k < |F| && Reduced(s, F, D, k, F') && IsMinterm(s, m)
    ensures Has(F', m) || Has(D, m) <==> Has(F, m) || Has(D, m)
  {
    if i :| 0 <= i < |F'| && In(m, F'[i].cube) {
      assert In(m, F[i].cube);
    }
    if i :| 0 <= i < |F| && In(m, F[i].cube) {
      if i != k {
        assert In(m, F'[i].cube);
      } else if !HasOther(F, D, k, m) {
        MintermMakesNonVoid(s, m, F[k].cube);
        forall v | 0 <= v < |m|
          ensures Part(v, m[v]) in F'[k].cube
        {
          assert Alone(s, F, D, k, F[k].cube, Part(v, m[v]));
        }
        assert In(m, F'[k].cube);
      } else {
        ReducedSelf(s, F, D, k, F', m);
        OtherIsHas(F', D, k, m);
      }
    }
  }

  lemma OtherIsHas(F: Cover, D: Cover, k: int, m: Minterm)
    requires HasOther(F, D, k, m)
    ensures Has(F, m) || Has(D, m)
  {
  }

  /** A reduced cube is irreducible, and the irreducible ones stay so. */
  lemma ReducedIrreducible(s: Space, F: Cover, D: Cover, k: nat, F': Cover)
    requires k < |F| && Reduced(s, F, D, k, F')
    ensures Irreducible(s, F', D, k)
    ensures forall j :: 0 <= j < |F| && j != k && Irreducible(s, F, D, j) ==> Irreducible(s, F', D, j)
  {
    hide HasOther, NonVoid, In;
    ReducedIsIrreducible(s, F, D, k, F');
    forall j | 0 <= j < |F| && j != k && Irreducible(s, F, D, j)
      ensures Irreducible(s, F', D, j)
    {
      forall p | NonVoid(s, F'[j].cube) && p in F'[j].cube
        ensures Alone(s, F', D, j, F'[j].cube, p)
      {
        assert Alone(s, F, D, j, F[j].cube, p);
        var m :| IsMinterm(s, m) && In(m, F[j].cube) && p.v < |m| && m[p.v] == p.k && !HasOther(F, D, j, m);
        if HasOther(F', D, j, m) {
          ReducedHasOther(s, F, D, k, F', j, m);
        }
      }
    }
  }

  lemma ReducedIsIrreducible(s: Space, F: Cover, D: Cover, k: nat, F': Cover)
    requires k < |F| && Reduced(s, F, D, k, F')
    ensures Irreducible(s, F', D, k)
  {
    hide HasOther;
    forall p | NonVoid(s, F'[k].cube) && p in F'[k].cube
      ensures Alone(s, F', D, k, F'[k].cube, p)
    {
      WiderNonVoid(s, F'[k].cube, F[k].cube);
      assert Alone(s, F, D, k, F[k].cube, p);
      var m :| IsMinterm(s, m) && In(m, F[k].cube) && p.v < |m| && m[p.v] == p.k && !HasOther(F, D, k, m);
      ReducedSelf(s, F, D, k, F', m);
      forall v | 0 <= v < |m|
        ensures Part(v, m[v]) in F'[k].cube
      {
        assert Alone(s, F, D, k, F[k].cube, Part(v, m[v]));
      }
    }
  }

  /** The cubes marked prime are cubes of F0 that were not reduced. */
  ghost predicate Unreduced(F0: Cover, G: Cover) {
    forall k :: 0 <= k < |G| && G[k].prime ==> IsShape(G[k].cube, F0)
  }

  /** Replace each cube of F by its reduction, in place, so that later cubes see
      the earlier reductions; then delete the cubes that became empty.  The
      minterms of F and D together stay the same, and no cube of the result can
      be reduced any further. */
  method ReduceCover(s: Space, F0: Cover, D: Cover) returns (G: Cover)
    requires Valid(s, F0) && Valid(s, D)
    ensures Valid(s, G) && |G| <= |F0| && Inside(G, F0)
    ensures forall m :: IsMinterm(s, m) ==> (Has(G, m) || Has(D, m) <==> Has(F0, m) || Has(D, m))
    ensures forall k :: 0 <= k < |G| ==> Irreducible(s, G, D, k)
    ensures KeepsValues(s, F0, G) && Unreduced(F0, G)
  {
    hide Full, Reduced, Has, NonVoid, Valid, Inside, KeepsValues, PassTo, Needs, Cube2List;
    var F := Reorder(F0);
    PassStart(s, F0, D, F);
    ghost var F1 := F;
    var k := 0;
    while k < |F|
      invariant 0 <= k <= |F| == |F0| == |F1| && PassTo(s, F0, D, F, k)
      invariant forall i :: k <= i < |F| ==> F[i] == F1[i]
      invariant forall i :: 0 <= i < k && F[i].prime ==> F[i].cube == F1[i].cube
    {
      PassReady(s, F0, D, F, k);
      var cunder := ReduceCube(s, Cube2List(F, D), F[k].cube, k);
      var F' := F[k := if cunder == F[k].cube
                       then F[k].(active := true, prime := true)
                       else F[k].(cube := cunder, prime := false, active := cunder != {})];
      ReduceStep(s, F, D, k, F', cunder);
      PassStep(s, F0, D, F, k, F');
      F := F';
      k := k + 1;
    }
    ghost var from;
    G, from := Inactive(F);
    PassEnd(s, F0, D, F, G, from);
    UnreducedEnd(F0, F1, F, G, from);
  }

  lemma UnreducedEnd(F0: Cover, F1: Cover, F: Cover, G: Cover, from: seq<nat>)
    requires multiset(F1) == multiset(F0) && |F1| == |F| && |from| == |G|
    requires forall i :: 0 <= i < |F| && F[i].prime ==> F[i].cube == F1[i].cube
    requires forall j :: 0 <= j < |G| ==> from[j] < |F| && G[j] == F[from[j]]
    ensures Unreduced(F0, G)
  {
    forall j | 0 <= j < |G| && G[j].prime
      ensures IsShape(G[j].cube, F0)
    {
      assert F1[from[j]] in multiset(F1);
      var i :| 0 <= i < |F0| && F0[i] == F1[from[j]];
    }
  }

  /** The cubes before k have been reduced in place. */
  ghost predicate PassTo(s: Space, F0: Cover, D: Cover, F: Cover, k: nat) {
    && k <= |F| && Valid(s, F) && Inside(F, F0) && NoneEmptier(s, F0, F, k)
    && (forall m :: IsMinterm(s, m) ==> (Has(F, m) || Has(D, m) <==> Has(F0, m) || Has(D, m)))
    && (forall j :: 0 <= j < k ==> Irreducible(s, F, D, j) && (F[j].active || F[j].cube == {}))
  }

  lemma PassStart(s: Space, F0: Cover, D: Cover, F: Cover)
    requires Valid(s, F0) && multiset(F) == multiset(F0)
    ensures PassTo(s, F0, D, F, 0)
  {
    hide Valid, Inside, NoneEmptier, Has;
    ReorderedFacts(s, F0, F);
    ReorderedEmptier(s, F0, F);
  }

  lemma PassReady(s: Space, F0: Cover, D: Cover, F: Cover, k: nat)
    requires PassTo(s, F0, D, F, k) && k < |F| && Valid(s, D)
    ensures F[k].cube <= Full(s) && Valid(s, F)
    ensures Cube2List(F, D).cof == {} && forall it :: it in Cube2List(F, D).items ==> it.cube <= Full(s)
  {
    hide Full, Valid, Inside, NoneEmptier, Has, Irreducible;
    Cube2ListValid(s, F, D);
    ValidAt(s, F, k);
  }

  lemma PassStep(s: Space, F0: Cover, D: Cover, F: Cover, k: nat, F': Cover)
    requires PassTo(s, F0, D, F, k) && k < |F| && Reduced(s, F, D, k, F') && F'[k].cube <= F[k].cube
    requires F'[k].active || F'[k].cube == {}
    requires F'[k].active ==> F'[k].cube != {} || F[k].cube == {}
    requires forall i :: 0 <= i < |F| && i != k ==> F'[i] == F[i]
    ensures PassTo(s, F0, D, F', k + 1)
  {
    hide Full, Valid, Inside, NoneEmptier, Has, Irreducible, Reduced;
    ReducedLength(s, F, D, k, F');
    ReducedIrreducible(s, F, D, k, F');
    forall m | IsMinterm(s, m)
      ensures Has(F', m) || Has(D, m) <==> Has(F, m) || Has(D, m)
    {
      ReducedKeeps(s, F, D, k, F', m);
    }
    InsideStep(s, F, k, F', F0);
    EmptierStep(s, F0, F, D, k, F');
  }

  lemma ReducedLength(s: Space, F: Cover, D: Cover, k: nat, F': Cover)
    requires k < |F| && Reduced(s, F, D, k, F')
    ensures |F'| == |F|
  {
    hide NonVoid, Alone;
  }

  lemma PassEnd(s: Space, F0: Cover, D: Cover, F: Cover, G: Cover, from: seq<nat>)
    requires PassTo(s, F0, D, F, |F|) && |from| == |G|
    requires forall j :: 0 <= j < |G| ==> from[j] < |F| && G[j] == F[from[j]] && G[j].active
    requires forall i, j :: 0 <= i < j < |from| ==> from[i] < from[j]
    requires forall i :: 0 <= i < |F| && F[i].active ==> i in from
    ensures Valid(s, G) && Inside(G, F0) && KeepsValues(s, F0, G)
    ensures forall m :: IsMinterm(s, m) ==> (Has(G, m) || Has(D, m) <==> Has(F0, m) || Has(D, m))
    ensures forall k :: 0 <= k < |G| ==> Irreducible(s, G, D, k)
  {
    hide Valid, Inside, NoneEmptier, Has, Irreducible, KeepsValues;
    EmptiesDropped(s, F, D, G, from);
    SubcoverFacts(s, F, G);
    InsideTrans(G, F, F0);
    EmptierLeft(s, F0, F, G, from);
  }

  /** The cubes from k on and the active ones before have values wherever some cube
      of F0 has them. */
  ghost predicate NoneEmptier(s: Space, F0: Cover, F: Cover, k: nat) {
    forall j :: 0 <= j < |F| && (k <= j || F[j].active) ==> Emptier(s, F0, F[j].cube)
  }

  lemma ReorderedEmptier(s: Space, F0: Cover, F: Cover)
    requires multiset(F) == multiset(F0)
    ensures NoneEmptier(s, F0, F, 0)
  {
    hide NoEmptier;
    forall j | 0 <= j < |F|
      ensures Emptier(s, F0, F[j].cube)
    {
      assert F[j] in multiset(F);
      assert F[j] in F0;
      var i :| 0 <= i < |F0| && F0[i] == F[j];
      WiderNoEmptier(s, F0[i].cube, F[j].cube);
    }
  }

  lemma EmptierStep(s: Space, F0: Cover, F: Cover, D: Cover, k: nat, F': Cover)
    requires k < |F| && Reduced(s, F, D, k, F') && (F'[k].active ==> F'[k].cube != {} || F[k].cube == {})
    ensures NoneEmptier(s, F0, F, k) ==> NoneEmptier(s, F0, F', k + 1)
  {
    hide NonVoid, Alone, NoEmptier;
    if NoneEmptier(s, F0, F, k) && F'[k].active {
      if NonVoid(s, F[k].cube) {
        NonVoidNonEmpty(s, F[k].cube);
        ReducedNonVoid(s, F, D, k, F');
        NonVoidNoEmptier(s, F[k].cube, F'[k].cube);
      } else {
        WiderNoEmptier(s, F[k].cube, F'[k].cube);
      }
      EmptierTrans(s, F0, F[k].cube, F'[k].cube);
    }
  }

  lemma NonVoidNonEmpty(s: Space, c: Cube)
    requires NonVoid(s, c)
    ensures c != {}
  {
    assert c * Mask(s, 0) != {};
  }

  /** A cube that is not void reduces to nothing or to a cube that is not void. */
  lemma ReducedNonVoid(s: Space, F: Cover, D: Cover, k: nat, F': Cover)
    requires k < |F| && Reduced(s, F, D, k, F') && NonVoid(s, F[k].cube) && F'[k].cube != {}
    ensures NonVoid(s, F'[k].cube)
  {
    hide HasOther;
    var p := Member(F'[k].cube);
    assert Alone(s, F, D, k, F[k].cube, p);
    var m :| IsMinterm(s, m) && In(m, F[k].cube) && p.v < |m| && m[p.v] == p.k && !HasOther(F, D, k, m);
    forall v | 0 <= v < |m|
      ensures Part(v, m[v]) in F'[k].cube
    {
      assert Alone(s, F, D, k, F[k].cube, Part(v, m[v]));
    }
    MintermMakesNonVoid(s, m, F'[k].cube);
  }

  lemma EmptierLeft(s: Space, F0: Cover, F: Cover, G: Cover, from: seq<nat>)
    requires NoneEmptier(s, F0, F, |F|) && |from| == |G|
    requires forall j :: 0 <= j < |G| ==> from[j] < |F| && G[j] == F[from[j]] && G[j].active
    ensures KeepsValues(s, F0, G)
  {
    hide Emptier, KeepsValues;
    EmptierKeeps(s, F0, G);
  }

  lemma ReduceStep(s: Space, F: Cover, D: Cover, k: nat, F': Cover, r: Cube)
    requires k < |F| && |F'| == |F| && (forall i :: 0 <= i < |F| && i != k ==> F'[i] == F[i])
    requires F'[k].cube == r && r <= F[k].cube
    requires var c, T := F[k].cube, Cube2List(F, D);
             && (NonVoid(s, c) ==> forall p :: p in c ==> (p in r <==> Needs(s, T, k, c, p)))
             && (!NonVoid(s, c) ==> r == c)
    ensures Reduced(s, F, D, k, F')
  {
    hide HasOther, OtherCovers, NonVoid, Cube2List;
    forall m
      ensures OtherCovers(Cube2List(F, D), k, m) <==> HasOther(F, D, k, m)
    {
      Cube2ListOthers(F, D, k, m);
    }
  }

  lemma InsideStep(s: Space, F: Cover, k: nat, F': Cover, F0: Cover)
    requires k < |F| && |F'| == |F| && (forall i :: 0 <= i < |F| && i != k ==> F'[i] == F[i])
    requires F'[k].cube <= F[k].cube && Inside(F, F0) && Valid(s, F)
    ensures Inside(F', F0) && Valid(s, F')
  {
    hide Full;
  }

  /** Deleting the empty cubes changes nothing else. */
  lemma EmptiesDropped(s: Space, F: Cover, D: Cover, G: Cover, from: seq<nat>)
    requires |from| == |G|
    requires forall j :: 0 <= j < |G| ==> from[j] < |F| && G[j] == F[from[j]] && G[j].active
    requires forall i, j :: 0 <= i < j < |from| ==> from[i] < from[j]
    requires forall i :: 0 <= i < |F| && F[i].active ==> i in from
    requires forall j :: 0 <= j < |F| ==> Irreducible(s, F, D, j) && (F[j].active || F[j].cube == {})
    ensures forall c :: c in G ==> c in F
    ensures forall m :: IsMinterm(s, m) ==> (Has(G, m) <==> Has(F, m))
    ensures forall k :: 0 <= k < |G| ==> Irreducible(s, G, D, k)
  {
    hide Irreducible, In;
    forall m | IsMinterm(s, m) && Has(F, m)
      ensures Has(G, m)
    {
      var i :| 0 <= i < |F| && In(m, F[i].cube);
      InNonEmpty(s, m, F[i].cube);
      var j :| 0 <= j < |from| && from[j] == i;
    }
    forall k | 0 <= k < |G|
      ensures Irreducible(s, G, D, k)
    {
      StaysIrreducible(s, F, D, G, from, k);
    }
  }

  lemma InNonEmpty(s: Space, m: Minterm, c: Cube)
    requires IsMinterm(s, m) && In(m, c)
    ensures c != {}
  {
    assert Part(0, m[0]) in c;
  }

  lemma StaysIrreducible(s: Space, F: Cover, D: Cover, G: Cover, from: seq<nat>, k: nat)
    requires |from| == |G| && k < |G|
    requires forall j :: 0 <= j < |G| ==> from[j] < |F| && G[j] == F[from[j]]
    requires forall i, j :: 0 <= i < j < |from| ==> from[i] < from[j]
    requires Irreducible(s, F, D, from[k])
    ensures Irreducible(s, G, D, k)
  {
    hide NonVoid, In, HasOther;
    forall m | HasOther(G, D, k, m)
      ensures HasOther(F, D, from[k], m)
    {
      OtherSurvives(F, D, G, from, k, m);
    }
  }

  lemma OtherSurvives(F: Cover, D: Cover, G: Cover, from: seq<nat>, k: nat, m: Minterm)
    requires |from| == |G| && k < |G|
    requires forall j :: 0 <= j < |G| ==> from[j] < |F| && G[j] == F[from[j]]
    requires forall i, j :: 0 <= i < j < |from| ==> from[i] < from[j]
    requires HasOther(G, D, k, m)
    ensures HasOther(F, D, from[k], m)
  {
    if i :| 0 <= i < |G| && i != k && In(m, G[i].cube) {
      assert from[i] != from[k];
    } else {
      var j :| 0 <= j < |D| && |G| + j != k && In(m, D[j].cube);
      assert |F| + j != from[k];
    }
  }
}
