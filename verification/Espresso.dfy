/** The whole minimiser: expand, irredundant, essential primes, the reduce loop,
    the last gasp and the sparse clean-up. */
module Espresso {
  import opened Cubes
  import opened Counting
  import opened Families
  import Complement
  import Containment
  import Essential
  import Expand
  import Gasp
  import Irredundant
  import Raising
  import Reduce
  import Sparse
  import UnateMap
  import Unravel

  /** The switches of the program. */
  datatype Options = Options(
    recomputeOnset: bool,
    unwrapOnset: bool,
    singleExpand: bool,
    removeEssential: bool,
    skipMakeSparse: bool,
    forceIrredundant: bool,
    sparse: set<nat>)

  /** How a run ends: with a cover, with one of the fatal errors, or not within the
      number of rounds allowed. */
  datatype Outcome = Done | NotOrthogonal | NoFreePart | EmptyReduction | Unfinished

  // ---- the cost of a cover

  /** Parts missing from the first n cubes in variable v. */
  function Missing(s: Space, F: Cover, v: nat, n: nat): nat
    requires v < |s.sizes| && n <= |F|
  {
    if n == 0 then 0 else Missing(s, F, v, n - 1) + |Mask(s, v) - F[n - 1].cube|
  }

  /** What the variable contributes: missing parts for a dense one, present parts
      for a sparse one and for the output. */
  function VarCost(s: Space, F: Cover, sparse: set<nat>, v: nat): int
    requires v < |s.sizes|
  {
    if s.numBinary <= v && (v in sparse || v == |s.sizes| - 1) then |F| * s.sizes[v] - Missing(s, F, v, |F|)
    else Missing(s, F, v, |F|)
  }

  function TotalCost(s: Space, F: Cover, sparse: set<nat>, n: nat): int
    requires n <= |s.sizes|
  {
    if n == 0 then 0 else TotalCost(s, F, sparse, n - 1) + VarCost(s, F, sparse, n - 1)
  }

  function OutCost(s: Space, F: Cover): int {
    var v := |s.sizes| - 1;
    if s.numBinary <= v then |F| * s.sizes[v] - Missing(s, F, v, |F|) else 0
  }

  // ---- what every step keeps

  /** What a run starts from: whether its cover fits the OFF-set and keeps clear of
      it, and the variables in which all its cubes have a value. */
  datatype Claims = Claims(clear: bool, valued: set<nat>)

  /** The cover is one of the space, its cubes have values where they had them at
      the start, and it fits the OFF-set and keeps clear of it if it did then. */
  ghost predicate Sound(s: Space, safe: Claims, F: Cover, R: Cover) {
    && Valid(s, F)
    && (forall v :: v in safe.valued && v < |s.sizes| ==> Valued(s, F, v))
    && (safe.clear ==> Disjoint(s, F, R) && Fitting(s, F, R))
  }

  lemma SoundParts(s: Space, safe: Claims, F: Cover, R: Cover)
    requires Sound(s, safe, F, R)
    ensures Valid(s, F) && (safe.clear ==> Disjoint(s, F, R) && Fitting(s, F, R))
  {
    hide Valid, Disjoint, Fitting, Valued;
  }

  /** What keeps the values and keeps clear of the OFF-set keeps a cover sound. */
  lemma SoundStep(s: Space, safe: Claims, F: Cover, G: Cover, R: Cover)
    requires Sound(s, safe, F, R) && Valid(s, G) && KeepsValues(s, F, G)
    requires safe.clear ==> Disjoint(s, G, R)
    ensures Sound(s, safe, G, R)
  {
    hide Valid, Disjoint, Fitting, Valued;
    if safe.clear {
      FittingKept(s, F, G, R);
    }
  }

  /** Cubes taken from a sound cover are sound. */
  lemma SoundShapes(s: Space, safe: Claims, F: Cover, G: Cover, R: Cover)
    requires Sound(s, safe, F, R) && SameShapes(G, F)
    ensures Sound(s, safe, G, R)
  {
    hide Valid, Disjoint, Fitting, Valued, SameShapes, KeepsValues, Inside;
    ShapesValid(s, G, F);
    ShapesHas(G, F);
    ShapesKeep(s, G, F);
    if safe.clear {
      InsideDisjoint(s, G, F, R);
    }
    SoundStep(s, safe, F, G, R);
  }

  /** Against the OFF-set a part may be asked for when none is free. */
  ghost predicate Stalling(s: Space, R: Cover) {
    Raising.Stalls(s, Expand.CubesOf(R))
  }

  lemma CoverStep(s: Space, F0: Cover, F: Cover, G: Cover, D: Cover)
    requires CoveredBy(s, F0, F, D) && forall m :: IsMinterm(s, m) && Has(F, m) ==> Has(G, m) || Has(D, m)
    ensures CoveredBy(s, F0, G, D)
  {
    hide Has;
  }

  lemma InsideCovers(s: Space, F0: Cover, F: Cover, G: Cover, D: Cover)
    requires CoveredBy(s, F0, F, D) && Inside(F, G)
    ensures CoveredBy(s, F0, G, D)
  {
    hide Has, Inside;
    forall m | Has(F, m)
      ensures Has(G, m)
    {
      InsideHas(F, G, m);
    }
  }

  // ---- what the steps make of a cover

  /** The cube was expanded from a smaller one, as far as that goes. */
  ghost predicate Ripe(s: Space, R: Cover, c: Cube) {
    exists c0: Cube :: c0 <= c && Raising.Grounded(s, Expand.CubesOf(R), c0, c, {})
  }

  ghost predicate AllRipe(s: Space, R: Cover, F: Cover) {
    forall i :: 0 <= i < |F| ==> Ripe(s, R, F[i].cube)
  }

  ghost predicate PrimesRipe(s: Space, R: Cover, F: Cover) {
    forall i :: 0 <= i < |F| && F[i].prime ==> Ripe(s, R, F[i].cube)
  }

  /** A part that no cube of R has is in every such cube. */
  lemma RipeHasFree(s: Space, R: Cover, c: Cube, p: Part)
    requires Ripe(s, R, c) && p in Full(s) && forall j :: 0 <= j < |R| ==> p !in R[j].cube
    ensures p in c
  {
    hide Full, Raising.Blocked;
    var off := Expand.CubesOf(R);
    var c0: Cube :| c0 <= c && Raising.Grounded(s, off, c0, c, {});
    var chosen: Cube :| |chosen| <= 500 && Raising.Lost(s, off, c0, c, chosen, Full(s) - {}, c);
    assert forall j :: 0 <= j < |off| ==> p !in off[j];
    assert !Raising.Reasoned(s, off, c0, p);
  }

  lemma ThoroughRipe(s: Space, R: Cover, F: Cover, G: Cover)
    requires PrimesRipe(s, R, F) && Expand.Thorough(s, R, F, G, {})
    ensures AllRipe(s, R, G)
  {
    hide Raising.Grounded, Expand.Split;
    var orig :| Expand.ThoroughBy(s, R, F, G, {}, orig);
    forall j | 0 <= j < |G|
      ensures Ripe(s, R, G[j].cube)
    {
      if F[orig[j]].prime {
        assert Ripe(s, R, F[orig[j]].cube);
      }
    }
  }

  lemma ShapesRipe(s: Space, R: Cover, F: Cover, G: Cover)
    requires AllRipe(s, R, F) && SameShapes(G, F)
    ensures AllRipe(s, R, G)
  {
    hide Ripe;
    forall j | 0 <= j < |G|
      ensures Ripe(s, R, G[j].cube)
    {
      assert IsShape(G[j].cube, F);
    }
  }

  lemma UnreducedRipe(s: Space, R: Cover, F: Cover, G: Cover)
    requires AllRipe(s, R, F) && Reduce.Unreduced(F, G)
    ensures PrimesRipe(s, R, G)
  {
    hide Ripe;
    forall j | 0 <= j < |G| && G[j].prime
      ensures Ripe(s, R, G[j].cube)
    {
      assert IsShape(G[j].cube, F);
    }
  }

  lemma GaspRipe(s: Space, F: Cover, D: Cover, R: Cover, G: Cover)
    requires AllRipe(s, R, F) && Gasp.GaspOf(s, F, D, R, G)
    ensures AllRipe(s, R, G)
  {
    hide Ripe, Gasp.Maximal, Gasp.AllFound, Gasp.IsCandidate, Gasp.Flagged, Expand.Thorough, Irredundant.IrredundantOf,
      SameShapes;
    var under: Cover, primes: Cover :| Gasp.GaspReduced(s, F, D, under) && Gasp.Flagged(F, under) &&
      Gasp.PrimesOf(s, F, D, R, under, primes) && Gasp.ChosenFrom(s, F, D, primes, G);
    var found: Cover :| Gasp.Candidates(s, F, D, under, found) && Gasp.AllFound(s, F, D, R, under, |F|, found) &&
      Expand.Thorough(s, R, found, primes, {});
    ThoroughRipe(s, R, found, primes);
    if primes != [] {
      Irredundant.ChosenShapes(s, F + primes, D, G);
      ShapesRipe(s, R, F + primes, G);
    }
  }

  /** G is an irredundant choice of the cubes of F, expanded. */
  ghost predicate ExpandedTo(s: Space, F: Cover, D: Cover, R: Cover, G: Cover) {
    exists E: Cover :: Expand.Thorough(s, R, F, E, {}) && Irredundant.IrredundantOf(s, E, D, G)
  }

  /** G is F, reduced until no part of a cube can be given up. */
  ghost predicate ReducedTo(s: Space, F: Cover, D: Cover, G: Cover) {
    && Inside(G, F) && Reduce.Unreduced(F, G)
    && (forall k :: 0 <= k < |G| ==> Reduce.Irreducible(s, G, D, k))
    && (forall m :: IsMinterm(s, m) ==> (Has(G, m) || Has(D, m) <==> Has(F, m) || Has(D, m)))
  }

  /** G comes from F by one round of the inner loop. */
  ghost predicate RoundOf(s: Space, F: Cover, D: Cover, R: Cover, G: Cover) {
    exists small: Cover :: ReducedTo(s, F, D, small) && ExpandedTo(s, small, D, R, G)
  }

  /** The last round, which led to G, did not lower the number of cubes. */
  ghost predicate Rested(s: Space, D: Cover, R: Cover, G: Cover) {
    exists F: Cover :: RoundOf(s, F, D, R, G) && |F| <= |G|
  }

  predicate Cheaper(s: Space, sparse: set<nat>, G: Cover, H: Cover) {
    |G| < |H| || (|G| == |H| && TotalCost(s, G, sparse, |s.sizes|) < TotalCost(s, H, sparse, |s.sizes|))
  }

  /** G is what the last gasp made of a cover at rest, and no cheaper than that. */
  ghost predicate Settled(s: Space, D: Cover, R: Cover, sparse: set<nat>, G: Cover) {
    exists H: Cover :: Rested(s, D, R, H) && Gasp.GaspOf(s, H, D, R, G) && !Cheaper(s, sparse, G, H)
  }

  /** E are the cubes of F taken for essential. */
  ghost predicate EssentialsOf(s: Space, F: Cover, D: Cover, E: Cover) {
    exists F1: Cover :: |F1| + |E| == |F| && SameShapes(F1, F) && SameShapes(E, F) &&
      (forall i :: 0 <= i < |E| ==> Essential.Taken(s, F, D, E[i])) &&
      (forall i :: 0 <= i < |F1| ==> !Essential.Taken(s, F, D, F1[i]))
  }

  /** G is a settled cover together with the essential cubes of F, if these were
      removed before. */
  ghost predicate LoopedTo(s: Space, F: Cover, D: Cover, R: Cover, opt: Options, G: Cover) {
    exists K: Cover, E: Cover :: G == K + E && Settled(s, D + E, R, opt.sparse, K) &&
      if opt.removeEssential then EssentialsOf(s, F, D, E) else E == []
  }

  /** G is what the run makes of F before the sparse clean-up. */
  ghost predicate MinimisedTo(s: Space, F: Cover, D: Cover, R: Cover, opt: Options, G: Cover) {
    exists U: Cover, H: Cover :: (forall i :: 0 <= i < |U| ==> !U[i].prime) &&
      (forall m :: IsMinterm(s, m) ==> (Has(U, m) <==> Has(F, m))) && ExpandedTo(s, U, D, R, H) &&
      if opt.singleExpand then G == H else LoopedTo(s, H, D, R, opt, G)
  }

  /** T is F without the parts of sparse variables that other cubes cover. */
  ghost predicate ThinnedTo(s: Space, F: Cover, D: Cover, sparse: set<nat>, T: Cover) {
    exists F1: Cover, from: seq<nat> :: Sparse.Sparsest(s, sparse, F, D, F1, T, from)
  }

  /** G is T, if thinning H to T did not change the cost, or T with its dense variables
      raised; when the steps are repeated, that did not change the cost. */
  ghost predicate EndedWith(s: Space, R: Cover, opt: Options, H: Cover, T: Cover, G: Cover) {
    var h, t, g := TotalCost(s, H, opt.sparse, |s.sizes|), TotalCost(s, T, opt.sparse, |s.sizes|),
      TotalCost(s, G, opt.sparse, |s.sizes|);
    if t == h then G == T
    else Expand.Thorough(s, R, T, G, Expand.InitLower(s, opt.sparse, true)) && (opt.forceIrredundant ==> g == t)
  }

  /** G ends the sparse clean-up of F, which is not repeated unless that is forced. */
  ghost predicate SparsedTo(s: Space, F: Cover, D: Cover, R: Cover, opt: Options, G: Cover) {
    exists H: Cover, T: Cover :: (opt.forceIrredundant || H == F) && ThinnedTo(s, H, D, opt.sparse, T) &&
      EndedWith(s, R, opt, H, T, G)
  }

  // ---- the single steps

  /** Expand, then keep an irredundant part. */
  method ExpandIrredundant(s: Space, ghost safe: Claims, ghost F0: Cover, F: Cover, D: Cover, R: Cover)
      returns (outcome: Outcome, G: Cover)
    requires Sound(s, safe, F, R) && Valid(s, D) && Valid(s, R) && CoveredBy(s, F0, F, D) && PrimesRipe(s, R, F)
    ensures outcome == NotOrthogonal ==> !safe.clear
    ensures outcome == NoFreePart ==> Stalling(s, R)
    ensures outcome in {Done, NotOrthogonal, NoFreePart}
    ensures outcome == Done ==> Sound(s, safe, G, R) && CoveredBy(s, F0, G, D) && |G| <= |F|
    ensures outcome == Done ==> ExpandedTo(s, F, D, R, G) && AllRipe(s, R, G)
  {
    hide Full, Sound, Valid, CoveredBy, Disjoint, Fitting, Inside, Expand.Widened, SameShapes, Raising.Stalls, Ripe,
      PrimesRipe, AllRipe, Expand.Thorough, Irredundant.IrredundantOf;
    SoundParts(s, safe, F, R);
    var out, E := Expand.ExpandCover(s, F, R, {}, false);
    if Fitting(s, F, R) {
      Expand.FittingPairs(s, F, R, {});
    }
    if out != Expand.Outcome.Done {
      outcome := if out == Expand.Outcome.NotOrthogonal then NotOrthogonal else NoFreePart;
      return outcome, F;
    }
    SoundWidened(s, safe, F, E, {}, R);
    InsideCovers(s, F0, F, E, D);
    ThoroughRipe(s, R, F, E);
    G := Irredundant.IrredundantCover(s, E, D);
    ShapesRipe(s, R, E, G);
    SoundShapes(s, safe, E, G, R);
    IrredundantCovers(s, F0, E, G, D);
    outcome := Done;
  }

  lemma SoundWidened(s: Space, safe: Claims, F: Cover, G: Cover, fixed: Cube, R: Cover)
    requires Sound(s, safe, F, R) && Valid(s, G) && Expand.Widened(s, F, G, fixed)
    requires Disjoint(s, F, R) && Fitting(s, F, R) ==> Disjoint(s, G, R)
    ensures Sound(s, safe, G, R)
  {
    hide Full, Sound, Valid, Disjoint, Fitting, Expand.Widened, KeepsValues;
    SoundParts(s, safe, F, R);
    Expand.WidenedKeeps(s, F, G, fixed);
    SoundStep(s, safe, F, G, R);
  }

  lemma IrredundantCovers(s: Space, F0: Cover, F: Cover, G: Cover, D: Cover)
    requires CoveredBy(s, F0, F, D) && CoveredBy(s, F, G, D)
    ensures CoveredBy(s, F0, G, D)
  {
    hide Has;
  }

  /** One round of the inner loop. */
  method ReduceRound(s: Space, ghost safe: Claims, ghost F0: Cover, F: Cover, D: Cover, R: Cover)
      returns (outcome: Outcome, G: Cover)
    requires Sound(s, safe, F, R) && Valid(s, D) && Valid(s, R) && CoveredBy(s, F0, F, D) && AllRipe(s, R, F)
    ensures outcome == NotOrthogonal ==> !safe.clear
    ensures outcome == NoFreePart ==> Stalling(s, R)
    ensures outcome in {Done, NotOrthogonal, NoFreePart}
    ensures outcome == Done ==> Sound(s, safe, G, R) && CoveredBy(s, F0, G, D) && |G| <= |F|
    ensures outcome == Done ==> RoundOf(s, F, D, R, G) && AllRipe(s, R, G)
  {
    hide Full, Sound, Valid, CoveredBy, Inside, Reduce.Irreducible, Has, KeepsValues, Disjoint, Fitting, AllRipe,
      PrimesRipe, Reduce.Unreduced, ExpandedTo;
    SoundParts(s, safe, F, R);
    var small := Reduce.ReduceCover(s, F, D);
    assert ReducedTo(s, F, D, small);
    UnreducedRipe(s, R, F, small);
    ReducedSound(s, safe, F0, F, D, small, R);
    outcome, G := ExpandIrredundant(s, safe, F0, small, D, R);
  }

  lemma ReducedSound(s: Space, safe: Claims, F0: Cover, F: Cover, D: Cover, G: Cover, R: Cover)
    requires Sound(s, safe, F, R) && CoveredBy(s, F0, F, D) && Valid(s, G) && Inside(G, F)
    requires forall m :: IsMinterm(s, m) ==> (Has(G, m) || Has(D, m) <==> Has(F, m) || Has(D, m))
    requires KeepsValues(s, F, G)
    ensures Sound(s, safe, G, R) && CoveredBy(s, F0, G, D)
  {
    hide Full, Sound, Valid, Disjoint, Fitting, Inside, KeepsValues, Has;
    SoundParts(s, safe, F, R);
    if safe.clear {
      InsideDisjoint(s, G, F, R);
    }
    SoundStep(s, safe, F, G, R);
  }

  // ---- setting up

  /** Simplify the cover first. */
  method RecomputeOnset(s: Space, ghost safe: Claims, F: Cover, R: Cover) returns (G: Cover)
    requires Sound(s, safe, F, R)
    ensures Sound(s, safe, G, R) && |G| <= |F|
    ensures forall m :: IsMinterm(s, m) ==> (Has(G, m) <==> Has(F, m))
    ensures UnateMap.UnateList(s, Cube2List(F, [])) ==> Containment.Antichain(G)
  {
    hide Full, Valid, Has, Sound, Disjoint, Fitting, KeepsValues, Complement.Answer, Complement.InSpace,
      Complement.AliveVars, UnateMap.UnateList, Containment.Antichain;
    SoundParts(s, safe, F, R);
    NothingValid(s);
    Complement.WholeList(s, F, []);
    G := Complement.Simplify(s, Cube2List(F, []));
    Complement.AnswerParts(s, Cube2List(F, []), true, G);
    forall m | IsMinterm(s, m)
      ensures Has(G, m) <==> Has(F, m)
    {
      Complement.WholeExact(s, F, [], true, G, m);
      NothingHas(m);
    }
    Complement.AnswerKeeps(s, F, [], G);
    assert F + [] == F;
    SimplifiedSound(s, safe, F, G, R);
  }

  lemma NothingValid(s: Space)
    ensures Valid(s, [])
  {
  }

  lemma NothingHas(m: Minterm)
    ensures !Has([], m)
  {
  }

  lemma SimplifiedSound(s: Space, safe: Claims, F: Cover, G: Cover, R: Cover)
    requires Sound(s, safe, F, R) && Valid(s, G)
    requires forall m :: IsMinterm(s, m) ==> (Has(G, m) <==> Has(F, m))
    requires KeepsValues(s, F, G)
    ensures Sound(s, safe, G, R)
  {
    hide Full, Sound, Valid, Has, Disjoint, Fitting, KeepsValues;
    SoundParts(s, safe, F, R);
    if safe.clear {
      SameMintermsDisjoint(s, F, G, R);
    }
    SoundStep(s, safe, F, G, R);
  }

  /** Whether covers meet depends on their minterms only. */
  lemma SameMintermsDisjoint(s: Space, F: Cover, G: Cover, R: Cover)
    requires Disjoint(s, F, R) && forall m :: IsMinterm(s, m) && Has(G, m) ==> Has(F, m)
    ensures Disjoint(s, G, R)
  {
    hide Meets, In;
    forall i, j | 0 <= i < |G| && 0 <= j < |R|
      ensures !Meets(s, G[i].cube, R[j].cube)
    {
      MeetsIffCommonMinterm(s, G[i].cube, R[j].cube);
      if m :| IsMinterm(s, m) && In(m, G[i].cube) && In(m, R[j].cube) {
        assert Has(F, m);
        var k :| 0 <= k < |F| && In(m, F[k].cube);
        MeetsIffCommonMinterm(s, F[k].cube, R[j].cube);
      }
    }
  }

  /** Give every cube a single output part, and drop the contained cubes. */
  method UnwrapOnset(s: Space, ghost safe: Claims, F: Cover, R: Cover) returns (G: Cover)
    requires Sound(s, safe, F, R)
    ensures Sound(s, safe, G, R) && SingleOutputs(s, G) && Containment.Antichain(G)
    ensures forall m :: IsMinterm(s, m) ==> (Has(G, m) <==> Has(F, m))
  {
    hide Full, Valid, Has, Sound, Disjoint, Fitting, Inside, Unravel.AllUnravelled, Unravel.Expansions, SingleOutputs,
      Containment.Antichain;
    SoundParts(s, safe, F, R);
    Expand.ValidCubes(s, F);
    var N := Unravel.UnravelSets(s, Expand.CubesOf(F), |s.sizes| - 1);
    var U := PlainCover(N);
    UnravelledSame(s, F, N, U);
    UnravelledSound(s, safe, F, N, U, R);
    UnravelledSingle(s, F, N, U);
    G := Containment.SfContain(U);
    ContainedSame(s, U, G);
    SingleElements(s, U, G);
    ElementShapes(G, U);
    SoundShapes(s, safe, U, G, R);
  }

  /** No cube has more than one output part. */
  ghost predicate SingleOutputs(s: Space, F: Cover) {
    forall i :: 0 <= i < |F| ==> |F[i].cube * Mask(s, |s.sizes| - 1)| <= 1
  }

  lemma SingleElements(s: Space, F: Cover, G: Cover)
    requires SingleOutputs(s, F) && forall i :: 0 <= i < |G| ==> G[i] in F
    ensures SingleOutputs(s, G)
  {
    forall i | 0 <= i < |G|
      ensures |G[i].cube * Mask(s, |s.sizes| - 1)| <= 1
    {
      var j :| 0 <= j < |F| && F[j] == G[i];
    }
  }

  lemma UnravelledSingle(s: Space, F: Cover, N: seq<Cube>, U: Cover)
    requires Unravel.AllUnravelled(s, Expand.CubesOf(F), |s.sizes| - 1, N) && U == PlainCover(N)
    ensures SingleOutputs(s, U)
  {
    hide Unravel.AllUnravelled, Mask;
    var v := |s.sizes| - 1;
    forall i | 0 <= i < |U|
      ensures |U[i].cube * Mask(s, v)| <= 1
    {
      var k := ThreadSource(s, F, N, i);
      if !Unravel.Chosen(s, F[k].cube, v, v) {
        assert N[i] * Mask(s, v) == F[k].cube * Mask(s, v);
      }
    }
  }

  function PlainCover(N: seq<Cube>): (U: Cover)
    ensures |U| == |N| && forall i :: 0 <= i < |N| ==> U[i] == Plain(N[i])
  {
    seq(|N|, i requires 0 <= i < |N| => Plain(N[i]))
  }

  lemma ElementShapes(G: Cover, F: Cover)
    requires forall i :: 0 <= i < |G| ==> G[i] in F
    ensures SameShapes(G, F)
  {
    forall i | 0 <= i < |G|
      ensures IsShape(G[i].cube, F)
    {
      var j :| 0 <= j < |F| && F[j] == G[i];
    }
  }

  lemma ContainedSame(s: Space, F: Cover, G: Cover)
    requires Inside(F, G) && forall i :: 0 <= i < |G| ==> G[i] in F
    ensures forall m :: Has(G, m) <==> Has(F, m)
  {
    hide Has, Inside, SameShapes;
    ElementShapes(G, F);
    ShapesHas(G, F);
    forall m | Has(F, m)
      ensures Has(G, m)
    {
      InsideHas(F, G, m);
    }
  }

  lemma UnravelledSame(s: Space, F: Cover, N: seq<Cube>, U: Cover)
    requires Valid(s, F) && Unravel.AllUnravelled(s, Expand.CubesOf(F), |s.sizes| - 1, N) && U == PlainCover(N)
    ensures forall m :: IsMinterm(s, m) ==> (Has(U, m) <==> Has(F, m))
  {
    hide Full, In, Unravel.Unravelled, Unravel.AllUnravelled;
    forall m | IsMinterm(s, m)
      ensures Has(U, m) <==> Has(F, m)
    {
      if i :| 0 <= i < |U| && In(m, U[i].cube) {
        var k := ThreadSource(s, F, N, i);
        Unravel.InWider(m, N[i], F[k].cube);
      }
      if k :| 0 <= k < |F| && In(m, F[k].cube) {
        ValidAt(s, F, k);
        var L := Raising.ThreadsFor(s, Expand.CubesOf(F), |s.sizes| - 1, N, Expand.CubesOf(F)[k]);
        Unravel.UnravelMeaning(s, F[k].cube, |s.sizes| - 1, L, m);
        var i :| 0 <= i < |L| && In(m, L[i]);
        var j :| 0 <= j < |N| && N[j] == L[i];
        assert In(m, U[j].cube);
      }
    }
  }

  lemma ThreadSource(s: Space, F: Cover, N: seq<Cube>, i: nat) returns (k: nat)
    requires Unravel.AllUnravelled(s, Expand.CubesOf(F), |s.sizes| - 1, N) && i < |N|
    ensures k < |F| && Unravel.Thread(s, F[k].cube, |s.sizes| - 1, |s.sizes|, N[i]) && N[i] <= F[k].cube
  {
    hide Unravel.HasThreads, Unravel.Thread;
    assert N[i] in N;
    k :| 0 <= k < |F| && Unravel.Thread(s, Expand.CubesOf(F)[k], |s.sizes| - 1, |s.sizes|, N[i]);
    Raising.ThreadInside(s, F[k].cube, |s.sizes| - 1, N[i]);
  }

  lemma UnravelledSound(s: Space, safe: Claims, F: Cover, N: seq<Cube>, U: Cover, R: Cover)
    requires Sound(s, safe, F, R) && Unravel.AllUnravelled(s, Expand.CubesOf(F), |s.sizes| - 1, N) && U == PlainCover(N)
    requires forall m :: IsMinterm(s, m) ==> (Has(U, m) <==> Has(F, m))
    ensures Sound(s, safe, U, R)
  {
    hide Full, Sound, Has, Disjoint, Fitting, NoEmptier, Unravel.AllUnravelled, Unravel.Thread, KeepsValues;
    SoundParts(s, safe, F, R);
    forall i | 0 <= i < |U|
      ensures U[i].cube <= Full(s) && Emptier(s, F, U[i].cube)
    {
      var k := ThreadSource(s, F, N, i);
      assert F[k].cube <= Full(s);
      ThreadNoEmptier(s, F[k].cube, |s.sizes| - 1, N[i]);
    }
    EmptierKeeps(s, F, U);
    if safe.clear {
      SameMintermsDisjoint(s, F, U, R);
    }
    SoundStep(s, safe, F, U, R);
  }

  lemma ThreadNoEmptier(s: Space, c: Cube, start: nat, r: Cube)
    requires Unravel.Thread(s, c, start, |s.sizes|, r)
    ensures NoEmptier(s, c, r)
  {
    hide Unravel.Chosen, Mask;
    forall u | 0 <= u < |s.sizes| && c * Mask(s, u) != {}
      ensures r * Mask(s, u) != {}
    {
      if Unravel.Chosen(s, c, start, u) {
        assert |r * Mask(s, u)| == 1;
      } else {
        assert r * Mask(s, u) == c * Mask(s, u);
      }
    }
  }

  /** No cube is taken for a prime at the start. */
  method ResetPrime(F: Cover) returns (G: Cover)
    ensures |G| == |F| && forall i :: 0 <= i < |F| ==> G[i] == F[i].(prime := false)
  {
    G := F;
    var i := 0;
    while i < |F|
      invariant 0 <= i <= |F| == |G|
      invariant forall k :: 0 <= k < i ==> G[k] == F[k].(prime := false)
      invariant forall k :: i <= k < |F| ==> G[k] == F[k]
    {
      G := G[i := F[i].(prime := false)];
      i := i + 1;
    }
  }

  lemma SameShape(F: Cover, G: Cover)
    requires |G| == |F| && forall i :: 0 <= i < |F| ==> G[i].cube == F[i].cube
    ensures SameShapes(G, F)
  {
    forall i | 0 <= i < |G|
      ensures IsShape(G[i].cube, F)
    {
      assert F[i].cube == G[i].cube;
    }
  }

  /** The cover the run starts from: it has the minterms of F. */
  method Setup(s: Space, ghost safe: Claims, F: Cover, R: Cover, opt: Options, unwrap: bool) returns (G: Cover)
    requires Sound(s, safe, F, R)
    ensures Sound(s, safe, G, R)
    ensures forall m :: IsMinterm(s, m) ==> (Has(G, m) <==> Has(F, m))
    ensures !unwrap ==> |G| <= |F|
    ensures forall i :: 0 <= i < |G| ==> !G[i].prime
  {
    hide Sound, Has, OutCost, SameShapes, Valid;
    G := F;
    if opt.recomputeOnset {
      G := RecomputeOnset(s, safe, F, R);
    }
    var parts := s.sizes[|s.sizes| - 1];
    if unwrap && parts > 1 && OutCost(s, G) != |G| * parts && OutCost(s, G) < 5000 {
      G := UnwrapOnset(s, safe, G, R);
    }
    var H := ResetPrime(G);
    SameCubesFacts(s, G, H);
    SameShape(G, H);
    SoundShapes(s, safe, G, H, R);
    G := H;
  }

  // ---- the loops

  /** Reduce, expand and irredundant until the number of cubes no longer falls. */
  method InnerLoop(s: Space, ghost safe: Claims, ghost F0: Cover, F: Cover, D: Cover, R: Cover)
      returns (outcome: Outcome, G: Cover)
    requires Sound(s, safe, F, R) && Valid(s, D) && Valid(s, R) && CoveredBy(s, F0, F, D) && AllRipe(s, R, F)
    ensures outcome == NotOrthogonal ==> !safe.clear
    ensures outcome == NoFreePart ==> Stalling(s, R)
    ensures outcome in {Done, NotOrthogonal, NoFreePart}
    ensures outcome == Done ==> Sound(s, safe, G, R) && CoveredBy(s, F0, G, D) && |G| <= |F|
    ensures outcome == Done ==> Rested(s, D, R, G) && AllRipe(s, R, G)
  {
    hide Sound, Valid, CoveredBy, Stalling, AllRipe, RoundOf;
    outcome, G := Done, F;
    var more := true;
    while more
      invariant outcome == Done ==> Sound(s, safe, G, R) && CoveredBy(s, F0, G, D) && |G| <= |F|
      invariant outcome == Done ==> AllRipe(s, R, G) && (more || Rested(s, D, R, G))
      invariant outcome == NotOrthogonal ==> !safe.clear
      invariant outcome == NoFreePart ==> Stalling(s, R)
      invariant outcome in {Done, NotOrthogonal, NoFreePart}
      invariant more ==> outcome == Done
      decreases if more then |G| + 1 else 0
    {
      var bestCubes := |G|;
      outcome, G := ReduceRound(s, safe, F0, G, D, R);
      more := outcome == Done && |G| < bestCubes;
    }
  }

  /** Alternate the inner loop with the last gasp as long as the cost falls. */
  method OuterLoop(s: Space, ghost safe: Claims, ghost F0: Cover, F: Cover, D: Cover, R: Cover, opt: Options,
      rounds: nat) returns (outcome: Outcome, G: Cover)
    requires Sound(s, safe, F, R) && Valid(s, D) && Valid(s, R) && CoveredBy(s, F0, F, D) && AllRipe(s, R, F)
    ensures outcome == NotOrthogonal ==> !safe.clear
    ensures outcome == NoFreePart ==> Stalling(s, R)
    ensures outcome == Done ==> Sound(s, safe, G, R) && CoveredBy(s, F0, G, D)
    ensures outcome == Done ==> Settled(s, D, R, opt.sparse, G) && AllRipe(s, R, G)
  {
    hide Sound, Valid, CoveredBy, Stalling, TotalCost, AllRipe, Rested, Gasp.GaspOf;
    G := F;
    var n := rounds;
    while n > 0
      invariant Sound(s, safe, G, R) && CoveredBy(s, F0, G, D) && AllRipe(s, R, G)
    {
      outcome, G := InnerLoop(s, safe, F0, G, D, R);
      if outcome != Done {
        return;
      }
      var bestCubes, bestTotal := |G|, TotalCost(s, G, opt.sparse, |s.sizes|);
      ghost var H := G;
      outcome, G := GaspStep(s, safe, F0, G, D, R);
      if outcome != Done {
        return;
      }
      if !(|G| < bestCubes || (|G| == bestCubes && TotalCost(s, G, opt.sparse, |s.sizes|) < bestTotal)) {
        assert !Cheaper(s, opt.sparse, G, H);
        return;
      }
      n := n - 1;
    }
    outcome := Unfinished;
  }

  method GaspStep(s: Space, ghost safe: Claims, ghost F0: Cover, F: Cover, D: Cover, R: Cover)
      returns (outcome: Outcome, G: Cover)
    requires Sound(s, safe, F, R) && Valid(s, D) && Valid(s, R) && CoveredBy(s, F0, F, D) && AllRipe(s, R, F)
    ensures outcome == NotOrthogonal ==> !safe.clear
    ensures outcome == NoFreePart ==> Stalling(s, R)
    ensures outcome == Done ==> Sound(s, safe, G, R) && CoveredBy(s, F0, G, D)
    ensures outcome == Done ==> Gasp.GaspOf(s, F, D, R, G) && AllRipe(s, R, G)
  {
    hide Sound, Valid, CoveredBy, Gasp.Superfluous, Disjoint, Fitting, KeepsValues, Raising.Stalls, Gasp.GaspOf,
      AllRipe;
    SoundParts(s, safe, F, R);
    var out;
    out, G := Gasp.LastGasp(s, F, D, R);
    outcome := match out
      case Done => Done
      case NotOrthogonal => NotOrthogonal
      case NoFreePart => NoFreePart
      case EmptyReduction => EmptyReduction;
    if outcome == Done {
      GaspRipe(s, F, D, R, G);
      SoundStep(s, safe, F, G, R);
      IrredundantCovers(s, F0, F, G, D);
    }
  }

  // ---- the essential primes

  /** The cubes of F and of E together cover what F0 covers, with the don't cares
      D1, and D holds those and E. */
  ghost predicate Parked(s: Space, F0: Cover, F: Cover, D1: Cover, D: Cover, E: Cover) {
    CoveredBy(s, F0, F, D) && D == D1 + E
  }

  lemma ParkedEnd(s: Space, F0: Cover, F: Cover, D1: Cover, D: Cover, E: Cover)
    requires Parked(s, F0, F, D1, D, E)
    ensures CoveredBy(s, F0, F + E, D1)
  {
    hide Has, In;
    forall m | IsMinterm(s, m) && Has(F0, m)
      ensures Has(F + E, m) || Has(D1, m)
    {
      Complement.HasAppend(F, E, m);
      Complement.HasAppend(D1, E, m);
    }
  }

  lemma EssentialParked(s: Space, F0: Cover, F: Cover, F': Cover, D: Cover, E: Cover)
    requires CoveredBy(s, F0, F, D) && forall m :: Has(F, m) <==> Has(F', m) || Has(E, m)
    ensures CoveredBy(s, F0, F', D + E)
  {
    hide Has, In;
    forall m | IsMinterm(s, m) && Has(F0, m)
      ensures Has(F', m) || Has(D + E, m)
    {
      Complement.HasAppend(D, E, m);
    }
  }

  lemma NoneParked(D: Cover)
    ensures D == D + []
  {
  }

  lemma SoundAppend(s: Space, safe: Claims, F: Cover, E: Cover, R: Cover)
    requires Sound(s, safe, F, R) && Sound(s, safe, E, R)
    ensures Sound(s, safe, F + E, R)
  {
    hide Full, Disjoint, Valued, NoneFull, Valid;
    Complement.ValidAppend(s, F, E);
    forall v | 0 <= v < |s.sizes| && Valued(s, F, v) && Valued(s, E, v)
      ensures Valued(s, F + E, v)
    {
      ValuedAppend(s, F, E, v);
    }
    if safe.clear {
      Gasp.DisjointAppend(s, F, E, R);
    }
  }

  lemma ValuedAppend(s: Space, F: Cover, E: Cover, v: nat)
    requires v < |s.sizes| && Valued(s, F, v) && Valued(s, E, v)
    ensures Valued(s, F + E, v)
  {
    hide Mask;
  }

  /** The minimisation proper, with the essential primes set aside. */
  method MainLoop(s: Space, ghost safe: Claims, ghost F0: Cover, F: Cover, D1: Cover, R: Cover, opt: Options,
      rounds: nat) returns (outcome: Outcome, G: Cover)
    requires Sound(s, safe, F, R) && Valid(s, D1) && Valid(s, R) && CoveredBy(s, F0, F, D1) && AllRipe(s, R, F)
    ensures outcome == NotOrthogonal ==> !safe.clear
    ensures outcome == NoFreePart ==> Stalling(s, R)
    ensures outcome == Done ==> Sound(s, safe, G, R) && CoveredBy(s, F0, G, D1)
    ensures outcome == Done ==> LoopedTo(s, F, D1, R, opt, G) && AllRipe(s, R, G)
  {
    hide Sound, Valid, CoveredBy, Stalling, SameShapes, Has, Essential.Taken, Ripe, Settled;
    var F1, D, E := F, D1, [];
    NoneParked(D1);
    NoneSound(s, safe, R);
    if opt.removeEssential {
      SoundParts(s, safe, F, R);
      F1, D, E := Essential.EssentialCubes(s, F, D1);
      SoundShapes(s, safe, F, F1, R);
      SoundShapes(s, safe, F, E, R);
      ShapesRipe(s, R, F, F1);
      ShapesRipe(s, R, F, E);
      EssentialParked(s, F0, F, F1, D1, E);
      assert EssentialsOf(s, F, D1, E);
    }
    outcome, G := OuterLoop(s, safe, F0, F1, D, R, opt, rounds);
    if outcome == Done {
      ParkedEnd(s, F0, G, D1, D, E);
      SoundAppend(s, safe, G, E, R);
      G := G + E;
    }
  }

  lemma NoneSound(s: Space, safe: Claims, R: Cover)
    ensures Sound(s, safe, [], R)
  {
  }

  // ---- the sparse clean-up

  method MakeSparse(s: Space, ghost safe: Claims, ghost F0: Cover, F: Cover, D: Cover, R: Cover, opt: Options,
      rounds: nat) returns (outcome: Outcome, G: Cover)
    requires Sound(s, safe, F, R) && Valid(s, D) && Valid(s, R) && CoveredBy(s, F0, F, D)
    ensures outcome == NotOrthogonal ==> !safe.clear
    ensures outcome == NoFreePart ==> Stalling(s, R)
    ensures outcome == Done ==> Sound(s, safe, G, R) && CoveredBy(s, F0, G, D) && |G| <= |F|
    ensures outcome == Done ==> SparsedTo(s, F, D, R, opt, G)
  {
    hide Sound, Valid, CoveredBy, Stalling, TotalCost, ThinnedTo, Expand.Thorough;
    G := F;
    var best := TotalCost(s, F, opt.sparse, |s.sizes|);
    var n := rounds;
    while n > 0
      invariant Sound(s, safe, G, R) && CoveredBy(s, F0, G, D) && |G| <= |F|
      invariant best == TotalCost(s, G, opt.sparse, |s.sizes|) && (opt.forceIrredundant || G == F)
    {
      ghost var H := G;
      G := ThinOut(s, safe, F0, G, D, R, opt);
      ghost var T := G;
      var total := TotalCost(s, G, opt.sparse, |s.sizes|);
      if total == best {
        return Done, G;
      }
      best := total;
      outcome, G := RaiseDense(s, safe, F0, G, D, R, opt);
      if outcome != Done {
        return;
      }
      total := TotalCost(s, G, opt.sparse, |s.sizes|);
      if total == best || !opt.forceIrredundant {
        return;
      }
      best := total;
      n := n - 1;
    }
    outcome := Unfinished;
  }

  method ThinOut(s: Space, ghost safe: Claims, ghost F0: Cover, F: Cover, D: Cover, R: Cover, opt: Options)
      returns (G: Cover)
    requires Sound(s, safe, F, R) && Valid(s, D) && CoveredBy(s, F0, F, D)
    ensures Sound(s, safe, G, R) && CoveredBy(s, F0, G, D) && |G| <= |F| && ThinnedTo(s, F, D, opt.sparse, G)
  {
    hide Sound, Valid, CoveredBy, Sparse.Thins, Sparse.Sparsest, Has, Inside;
    SoundParts(s, safe, F, R);
    G := Sparse.MvReduce(s, F, D, opt.sparse);
    ThinnedSound(s, safe, opt.sparse, F, G, R);
    CoverStep(s, F0, F, G, D);
  }

  lemma ThinnedSound(s: Space, safe: Claims, sparse: set<nat>, F: Cover, G: Cover, R: Cover)
    requires Sound(s, safe, F, R) && Valid(s, G) && Inside(G, F) && Sparse.Thins(s, sparse, F, G)
    ensures Sound(s, safe, G, R)
  {
    hide Full, Sound, Valid, Disjoint, Fitting, Inside, KeepsValues, Sparse.Thins;
    SoundParts(s, safe, F, R);
    Sparse.ThinsKeep(s, sparse, F, G);
    if safe.clear {
      InsideDisjoint(s, G, F, R);
    }
    SoundStep(s, safe, F, G, R);
  }

  method RaiseDense(s: Space, ghost safe: Claims, ghost F0: Cover, F: Cover, D: Cover, R: Cover, opt: Options)
      returns (outcome: Outcome, G: Cover)
    requires Sound(s, safe, F, R) && Valid(s, R) && CoveredBy(s, F0, F, D)
    ensures outcome == NotOrthogonal ==> !safe.clear
    ensures outcome == NoFreePart ==> Stalling(s, R)
    ensures outcome == Done ==> Sound(s, safe, G, R) && CoveredBy(s, F0, G, D) && |G| <= |F|
    ensures outcome == Done ==> Expand.Thorough(s, R, F, G, Expand.InitLower(s, opt.sparse, true))
  {
    hide Full, Sound, Valid, CoveredBy, Disjoint, Fitting, Inside, Expand.Widened, Expand.SparseParts, Raising.Stalls,
      Expand.Thorough;
    SoundParts(s, safe, F, R);
    var out;
    out, G := Expand.ExpandCover(s, F, R, opt.sparse, true);
    if Fitting(s, F, R) {
      Expand.FittingPairs(s, F, R, Expand.InitLower(s, opt.sparse, true));
    }
    outcome := match out
      case Done => Done
      case NotOrthogonal => NotOrthogonal
      case NoFreePart => NoFreePart;
    if outcome == Done {
      SoundWidened(s, safe, F, G, Expand.SparseParts(s, opt.sparse), R);
      InsideCovers(s, F0, F, G, D);
    }
  }

  // ---- the minimiser

  /** G is what a run makes of F. */
  ghost predicate ResultOf(s: Space, F: Cover, D: Cover, R: Cover, opt: Options, G: Cover) {
    exists K: Cover :: MinimisedTo(s, F, D, R, opt, K) &&
      if opt.skipMakeSparse then G == K else SparsedTo(s, K, D, R, opt, G)
  }

  /** One pass from the given cover. */
  method Pass(s: Space, ghost safe: Claims, F0: Cover, D1: Cover, R: Cover, opt: Options, unwrap: bool, rounds: nat)
      returns (outcome: Outcome, F: Cover)
    requires Sound(s, safe, F0, R) && Valid(s, D1) && Valid(s, R)
    ensures outcome == NotOrthogonal ==> !safe.clear
    ensures outcome == NoFreePart ==> Stalling(s, R)
    ensures outcome == Done ==> Sound(s, safe, F, R) && CoveredBy(s, F0, F, D1)
    ensures outcome == Done ==> ResultOf(s, F0, D1, R, opt, F) && (opt.skipMakeSparse ==> AllRipe(s, R, F))
  {
    hide Sound, Valid, CoveredBy, Stalling, Has, ExpandedTo, LoopedTo, SparsedTo, Ripe;
    F := Setup(s, safe, F0, R, opt, unwrap);
    StartCovers(s, F0, F, D1);
    ghost var U := F;
    outcome, F := ExpandIrredundant(s, safe, F0, F, D1, R);
    if outcome != Done {
      return;
    }
    if !opt.singleExpand {
      outcome, F := MainLoop(s, safe, F0, F, D1, R, opt, rounds);
      if outcome != Done {
        return;
      }
    }
    assert MinimisedTo(s, F0, D1, R, opt, F);
    if !opt.skipMakeSparse {
      outcome, F := MakeSparse(s, safe, F0, F, D1, R, opt, rounds);
    }
  }

  lemma StartCovers(s: Space, F0: Cover, F: Cover, D: Cover)
    requires forall m :: IsMinterm(s, m) ==> (Has(F, m) <==> Has(F0, m))
    ensures CoveredBy(s, F0, F, D)
  {
    hide Has;
  }

  /** The variables in which all cubes of the cover have a value. */
  ghost function ValuedVars(s: Space, F: Cover): (vs: set<nat>)
    ensures forall v: nat :: v in vs <==> v < |s.sizes| && Valued(s, F, v)
  {
    set v: nat | v < |s.sizes| && Valued(s, F, v)
  }

  /** The minimiser.  Whenever it returns a cover, that has no more cubes than F,
      covers with the don't cares every minterm of F, and has values wherever F has
      them.  If F fits R and meets no cube of it, neither does the result.  One with
      more cubes than F is thrown away, and the run starts again without
      unwrapping. */
  method Espresso(s: Space, F0: Cover, D1: Cover, R: Cover, opt: Options, rounds: nat)
      returns (outcome: Outcome, F: Cover)
    requires Valid(s, F0) && Valid(s, D1) && Valid(s, R)
    ensures outcome == NotOrthogonal ==> !(Disjoint(s, F0, R) && Fitting(s, F0, R))
    ensures outcome == NoFreePart ==> Stalling(s, R)
    ensures outcome == Done ==> Valid(s, F) && |F| <= |F0| && CoveredBy(s, F0, F, D1) && KeepsValues(s, F0, F)
    ensures outcome == Done && Disjoint(s, F0, R) && Fitting(s, F0, R) ==> Disjoint(s, F, R)
    ensures outcome == Done ==> ResultOf(s, F0, D1, R, opt, F) && (opt.skipMakeSparse ==> AllRipe(s, R, F))
  {
    hide Valid, CoveredBy, Stalling, KeepsValues, Disjoint, Fitting, Sound, ResultOf, AllRipe;
    ghost var safe := Claims(Disjoint(s, F0, R) && Fitting(s, F0, R), ValuedVars(s, F0));
    SoundStart(s, safe, F0, R);
    var unwrap := opt.unwrapOnset;
    var n := rounds;
    outcome, F := Unfinished, F0;
    while n > 0
      invariant outcome == Unfinished
    {
      outcome, F := Pass(s, safe, F0, D1, R, opt, unwrap, rounds);
      if outcome != Done {
        return;
      }
      if |F0| >= |F| {
        SoundParts(s, safe, F, R);
        SoundKeeps(s, safe, F0, F, R);
        return;
      }
      unwrap := false;
      outcome := Unfinished;
      n := n - 1;
    }
  }

  lemma SoundStart(s: Space, safe: Claims, F: Cover, R: Cover)
    requires Valid(s, F) && safe == Claims(Disjoint(s, F, R) && Fitting(s, F, R), ValuedVars(s, F))
    ensures Sound(s, safe, F, R)
  {
    hide Valid, Disjoint, Fitting, Valued;
  }

  lemma SoundKeeps(s: Space, safe: Claims, F: Cover, G: Cover, R: Cover)
    requires Sound(s, safe, G, R) && safe.valued == ValuedVars(s, F)
    ensures KeepsValues(s, F, G)
  {
    hide Valid, Disjoint, Fitting, Valued;
  }

  /** With the OFF-set computed as the complement of F and D the result covers every
      minterm of F up to the don't cares.  If F fits that complement the result
      covers no minterm outside F and D, and for covers without void cubes no fatal
      error can occur but that of an empty reduction. */
  method Minimise(s: Space, F0: Cover, D: Cover, opt: Options, rounds: nat)
      returns (ok: bool, R: Cover, outcome: Outcome, F: Cover)
    requires Valid(s, F0) && Valid(s, D)
    ensures |s.sizes| <= 1025 ==> ok
    ensures ok ==> Valid(s, R) && forall m :: IsMinterm(s, m) ==> (Has(R, m) <==> !(Has(F0, m) || Has(D, m)))
    ensures ok && outcome == Done ==> Valid(s, F) && |F| <= |F0| && CoveredBy(s, F0, F, D)
    ensures ok && outcome == Done ==> ResultOf(s, F0, D, R, opt, F)
    ensures ok && outcome == Done && Fitting(s, F0, R) ==>
      forall m :: IsMinterm(s, m) && Has(F, m) ==> Has(F0, m) || Has(D, m)
    ensures ok && Fitting(s, F0, R) ==> outcome != NotOrthogonal
    ensures ok && outcome == NoFreePart ==> forall m :: IsMinterm(s, m) ==> Has(F0, m) || Has(D, m)
    ensures ok && AllNonVoid(s, F0) && AllNonVoid(s, D) ==> Fitting(s, F0, R) && outcome != NoFreePart
  {
    hide Valid, CoveredBy, AllNonVoid, Disjoint, Fitting, Sound, Has, NonVoid, Stalling, KeepsValues, ResultOf, AllRipe;
    outcome, F := Unfinished, F0;
    ok, R := Complement.ComplementCover(s, F0, D);
    if !ok {
      return;
    }
    ComplementDisjoint(s, F0, D, R);
    if AllNonVoid(s, F0) {
      NonVoidFitting(s, F0, R);
    }
    outcome, F := Espresso(s, F0, D, R, opt, rounds);
    if outcome == NoFreePart {
      StallingEmpty(s, R);
    }
    if outcome == Done && Fitting(s, F0, R) {
      forall m | IsMinterm(s, m)
        ensures Has(F, m) ==> Has(F0, m) || Has(D, m)
      {
        DisjointAt(s, F, R, m);
      }
    }
  }

  /** Such an OFF-set denotes nothing and holds void cubes. */
  lemma StallingEmpty(s: Space, R: Cover)
    requires Stalling(s, R)
    ensures !AllNonVoid(s, R) && forall m :: IsMinterm(s, m) ==> !Has(R, m)
  {
    hide NonVoid, In, Raising.WideOnes;
    var off := Expand.CubesOf(R);
    var j := Member(Raising.WideOnes(s, off));
    Raising.WideInside(s, off);
    assert !NonVoid(s, off[j]);
    forall m | IsMinterm(s, m)
      ensures !Has(R, m)
    {
      if i :| 0 <= i < |R| && In(m, R[i].cube) {
        assert !NonVoid(s, off[i]);
        MintermMakesNonVoid(s, m, off[i]);
      }
    }
  }

  lemma DisjointAt(s: Space, F: Cover, R: Cover, m: Minterm)
    requires Disjoint(s, F, R) && IsMinterm(s, m)
    ensures !(Has(F, m) && Has(R, m))
  {
    hide Meets, In;
    if Has(F, m) && Has(R, m) {
      var i :| 0 <= i < |F| && In(m, F[i].cube);
      var j :| 0 <= j < |R| && In(m, R[j].cube);
      MeetsIffCommonMinterm(s, F[i].cube, R[j].cube);
    }
  }

  lemma HasAt(F: Cover, i: nat, m: Minterm)
    requires i < |F| && In(m, F[i].cube)
    ensures Has(F, m)
  {
  }

  lemma ComplementDisjoint(s: Space, F: Cover, D: Cover, R: Cover)
    requires forall m :: IsMinterm(s, m) ==> (Has(R, m) <==> !(Has(F, m) || Has(D, m)))
    ensures Disjoint(s, F, R)
  {
    hide Meets, In, Has;
    forall i, j | 0 <= i < |F| && 0 <= j < |R|
      ensures !Meets(s, F[i].cube, R[j].cube)
    {
      MeetsIffCommonMinterm(s, F[i].cube, R[j].cube);
      if m :| IsMinterm(s, m) && In(m, F[i].cube) && In(m, R[j].cube) {
        HasAt(F, i, m);
        HasAt(R, j, m);
      }
    }
  }
}
