/** Detecting essential primes by looking at the neighbours of a cube. */
module Essential {
  import opened Cubes
  import opened Counting
  import opened CubeLists
  import opened Families
  import Tautology

  // ---- primes and essential primes

  /** Every minterm of c is one of F or D. */
  ghost predicate Implicant(s: Space, F: Cover, D: Cover, c: Cube) {
    forall m :: IsMinterm(s, m) && In(m, c) ==> Has(F, m) || Has(D, m)
  }

  /** A largest cube that is an implicant. */
  ghost predicate Prime(s: Space, F: Cover, D: Cover, c: Cube) {
    && c <= Full(s) && NonVoid(s, c) && Implicant(s, F, D, c)
    && forall c' :: c < c' <= Full(s) ==> !Implicant(s, F, D, c')
  }

  /** Some minterm outside the don't cares lies in no prime but c. */
  ghost predicate EssentialPrime(s: Space, F: Cover, D: Cover, c: Cube) {
    exists m :: IsMinterm(s, m) && In(m, c) && !Has(D, m) && forall q :: Prime(s, F, D, q) && In(m, q) ==> q == c
  }

  // ---- the sharp-consensus

  /** p holds m, except perhaps in variable v. */
  ghost predicate HoldsBut(p: Cube, v: nat, m: Minterm) {
    forall u :: 0 <= u < |m| && u != v ==> Part(u, m[u]) in p
  }

  /** In some variable p offers something outside c, or nothing at all, and it
      holds m everywhere else. */
  ghost predicate Reaches(s: Space, p: Cube, c: Cube, m: Minterm) {
    exists v :: 0 <= v < |s.sizes| && Steps(s, p, c, v) && HoldsBut(p, v, m)
  }

  predicate Steps(s: Space, p: Cube, c: Cube, v: nat)
    requires v < |s.sizes|
  {
    p * Mask(s, v) == {} || !(p * Mask(s, v) <= c)
  }

  /** c in variable v and what p and c share in the others. */
  function Merge(s: Space, c: Cube, shared: Cube, v: nat): (r: Cube)
    requires v < |s.sizes|
    ensures forall p :: p in r <==> if p in Mask(s, v) then p in c else p in shared
  {
    c * Mask(s, v) + (shared - Mask(s, v))
  }

  /** The cubes H hold exactly the minterms of c that some cube of T before n
      reaches. */
  ghost predicate ReachedBy(s: Space, T: Cover, n: nat, c: Cube, H: Cover)
    requires n <= |T|
  {
    forall m :: IsMinterm(s, m) && In(m, c) ==> (Has(H, m) <==> exists i :: 0 <= i < n && Reaches(s, T[i].cube, c, m))
  }

  /** At distance one, the consensus holds the minterms of c that p reaches. */
  lemma ConsensusReaches(s: Space, p: Cube, c: Cube, m: Minterm)
    requires p <= Full(s) && Distance(s, p, c) == 1 && IsMinterm(s, m) && In(m, c)
    ensures In(m, Consensus(s, p, c)) <==> Reaches(s, p, c, m)
  {
    var w := Member(Clashes(s, p, c));
    forall u | u in Clashes(s, p, c)
      ensures u == w
    {
      SingletonCard(Clashes(s, p, c), u, w);
    }
    if In(m, Consensus(s, p, c)) {
      ConsensusSteps(s, p, c, w);
      assert HoldsBut(p, w, m);
    }
    if Reaches(s, p, c, m) {
      var v :| 0 <= v < |s.sizes| && Steps(s, p, c, v) && HoldsBut(p, v, m);
      OnlyClash(s, p, c, v, w, m);
      forall u | 0 <= u < |m|
        ensures Part(u, m[u]) in Consensus(s, p, c)
      {
      }
    }
  }

  lemma ConsensusSteps(s: Space, p: Cube, c: Cube, w: nat)
    requires w in Clashes(s, p, c)
    ensures Steps(s, p, c, w)
  {
    if p * Mask(s, w) != {} {
      var q := Member(p * Mask(s, w));
      assert q !in p * c * Mask(s, w);
    }
  }

  lemma OnlyClash(s: Space, p: Cube, c: Cube, v: nat, w: nat, m: Minterm)
    requires w in Clashes(s, p, c) && IsMinterm(s, m) && In(m, c) && v < |m| && HoldsBut(p, v, m)
    ensures v == w
  {
    if v != w {
      SharedPart(s, p, c, v, w, m);
    }
  }

  lemma SharedPart(s: Space, p: Cube, c: Cube, v: nat, w: nat, m: Minterm)
    requires IsMinterm(s, m) && In(m, c) && HoldsBut(p, v, m) && w < |m| && v != w
    ensures p * c * Mask(s, w) != {}
  {
    assert Part(w, m[w]) in p * c * Mask(s, w);
  }

  /** Too far away, p reaches no minterm of c. */
  lemma FarReachesNot(s: Space, p: Cube, c: Cube, m: Minterm)
    requires Distance(s, p, c) > 1 && IsMinterm(s, m) && In(m, c)
    ensures !Reaches(s, p, c, m)
  {
    hide Steps, HoldsBut, Distance;
    if v :| 0 <= v < |s.sizes| && Steps(s, p, c, v) && HoldsBut(p, v, m) {
      forall w | w in Clashes(s, p, c)
        ensures w == v
      {
        OnlyClash(s, p, c, v, w, m);
      }
      assert Clashes(s, p, c) <= {v};
      SubsetCard(Clashes(s, p, c), {v});
      DistanceIs(s, p, c);
    }
  }

  lemma DistanceIs(s: Space, p: Cube, c: Cube)
    ensures Distance(s, p, c) == |Clashes(s, p, c)|
  {
  }

  /** What the pass over the multiple-valued variables has collected for a cube p
      that meets c. */
  ghost predicate Collected(s: Space, p: Cube, c: Cube, v: nat, R: Cover, H: Cover) {
    forall m :: IsMinterm(s, m) && In(m, c) ==>
      (Has(H, m) <==> Has(R, m) || ReachesBelow(s, p, c, v, m))
  }

  ghost predicate ReachesBelow(s: Space, p: Cube, c: Cube, v: nat, m: Minterm) {
    exists u :: s.numBinary <= u < v && u < |s.sizes| && !(p * Mask(s, u) <= c) && HoldsBut(p, u, m)
  }

  lemma MergeHolds(s: Space, p: Cube, c: Cube, v: nat, m: Minterm)
    requires v < |s.sizes| && IsMinterm(s, m) && In(m, c)
    ensures In(m, Merge(s, c, p * c, v)) <==> HoldsBut(p, v, m)
  {
    var r := Merge(s, c, p * c, v);
    forall u | 0 <= u < |m|
      ensures Part(u, m[u]) in r <==> u == v || Part(u, m[u]) in p
    {
    }
  }

  lemma HasSnoc(H: Cover, c: Cube, m: Minterm)
    ensures Has(H + [Plain(c)], m) <==> Has(H, m) || In(m, c)
  {
    hide In;
    var N := H + [Plain(c)];
    if Has(H, m) {
      var i :| 0 <= i < |H| && In(m, H[i].cube);
      assert In(m, N[i].cube);
    }
    if In(m, c) {
      assert In(m, N[|H|].cube);
    }
    if i :| 0 <= i < |N| && In(m, N[i].cube) {
      assert i == |H| || In(m, H[i].cube);
    }
  }

  lemma CollectedStep(s: Space, p: Cube, c: Cube, v: nat, R: Cover, H: Cover)
    requires s.numBinary <= v < |s.sizes| && Collected(s, p, c, v, R, H)
    ensures p * Mask(s, v) <= c ==> Collected(s, p, c, v + 1, R, H)
    ensures !(p * Mask(s, v) <= c) ==> Collected(s, p, c, v + 1, R, H + [Plain(Merge(s, c, p * c, v))])
  {
    hide HoldsBut, Has, Mask, Merge, In;
    var N := H + [Plain(Merge(s, c, p * c, v))];
    forall m | IsMinterm(s, m) && In(m, c)
      ensures Has(N, m) <==> Has(H, m) || HoldsBut(p, v, m)
    {
      HasSnoc(H, Merge(s, c, p * c, v), m);
      MergeHolds(s, p, c, v, m);
    }
  }

  /** The sharp-consensus of a cube p that meets c (cb_consensus_dist0). */
  method CbConsensusDist0(s: Space, R: Cover, p: Cube, c: Cube) returns (H: Cover)
    requires p <= Full(s) && c <= Full(s) && Meets(s, p, c) && Valid(s, R)
    ensures Valid(s, H)
    ensures forall m :: IsMinterm(s, m) && In(m, c) ==> (Has(H, m) <==> Has(R, m) || Reaches(s, p, c, m))
  {
    hide Valid, Full, Meets, Has, Reaches, Collected, Merge;
    H := R;
    if p <= c {
      ContainedReachesNot(s, p, c);
      return;
    }
    var gotOne := false;
    var v := s.numBinary;
    CollectedStart(s, p, c, R);
    while v < |s.sizes|
      invariant s.numBinary <= v <= |s.sizes|
      invariant Valid(s, H) && Collected(s, p, c, v, R, H)
      invariant gotOne <==> exists u :: s.numBinary <= u < v && !(p * Mask(s, u) <= c)
    {
      CollectedStep(s, p, c, v, R, H);
      if !(p * Mask(s, v) <= c) {
        MergeFull(s, p, c, v);
        ValidSnoc(s, H, Merge(s, c, p * c, v));
        H := H + [Plain(Merge(s, c, p * c, v))];
        gotOne := true;
      }
      v := v + 1;
    }
    ghost var H1 := H;
    if !gotOne && s.numBinary > 0 {
      ValidSnoc(s, H, p * c);
      H := H + [Plain(p * c)];
    }
    forall m | IsMinterm(s, m) && In(m, c)
      ensures Has(H, m) <==> Has(R, m) || Reaches(s, p, c, m)
    {
      CollectedAll(s, p, c, R, H1, H, gotOne, m);
    }
  }

  lemma MergeFull(s: Space, p: Cube, c: Cube, v: nat)
    requires v < |s.sizes| && c <= Full(s)
    ensures Merge(s, c, p * c, v) <= Full(s)
  {
    hide Full, Mask;
  }

  lemma ValidSnoc(s: Space, H: Cover, c: Cube)
    requires Valid(s, H) && c <= Full(s)
    ensures Valid(s, H + [Plain(c)])
  {
    hide Full;
  }

  lemma CollectedStart(s: Space, p: Cube, c: Cube, R: Cover)
    ensures Collected(s, p, c, s.numBinary, R, R)
  {
  }

  lemma ContainedReachesNot(s: Space, p: Cube, c: Cube)
    requires p <= c && Meets(s, p, c)
    ensures forall m :: !Reaches(s, p, c, m)
  {
    hide HoldsBut;
    forall v | 0 <= v < |s.sizes|
      ensures !Steps(s, p, c, v)
    {
      MeetingPart(s, p, c, v);
    }
  }

  lemma MeetingPart(s: Space, p: Cube, c: Cube, v: nat)
    requires Meets(s, p, c) && v < |s.sizes|
    ensures p * Mask(s, v) != {} && p * c * Mask(s, v) != {}
  {
    assert v !in Clashes(s, p, c);
    var q := Member(p * c * Mask(s, v));
    assert q in p * Mask(s, v);
  }

  lemma CollectedAll(s: Space, p: Cube, c: Cube, R: Cover, H1: Cover, H: Cover, gotOne: bool, m: Minterm)
    requires p <= Full(s) && Meets(s, p, c) && !(p <= c) && IsMinterm(s, m) && In(m, c)
    requires Collected(s, p, c, |s.sizes|, R, H1)
    requires gotOne <==> exists u :: s.numBinary <= u < |s.sizes| && !(p * Mask(s, u) <= c)
    requires H == if !gotOne && s.numBinary > 0 then H1 + [Plain(p * c)] else H1
    ensures Has(H, m) <==> Has(R, m) || Reaches(s, p, c, m)
  {
    hide Full, Meets, Has, Mask, HoldsBut, In;
    HasSnoc(H1, p * c, m);
    StepsSomewhere(s, p, c);
    BinarySteps(s, p, c, m);
    ReachesSplit(s, p, c, m);
    if gotOne && In(m, p * c) {
      var u :| s.numBinary <= u < |s.sizes| && !(p * Mask(s, u) <= c);
      HoldsAll(p, c, u, m);
      assert ReachesBelow(s, p, c, |s.sizes|, m);
    }
  }

  lemma HoldsAll(p: Cube, c: Cube, v: nat, m: Minterm)
    requires In(m, p * c)
    ensures HoldsBut(p, v, m)
  {
  }

  /** A cube outside c has a part outside c in some variable. */
  lemma StepsSomewhere(s: Space, p: Cube, c: Cube)
    requires p <= Full(s) && !(p <= c)
    ensures exists v :: 0 <= v < |s.sizes| && !(p * Mask(s, v) <= c)
  {
    var q :| q in p && q !in c;
    assert q in p * Mask(s, q.v);
  }

  /** In a binary variable, a cube that meets c and steps outside it has both
      values, so it reaches the minterms it shares with c. */
  lemma BinarySteps(s: Space, p: Cube, c: Cube, m: Minterm)
    requires p <= Full(s) && Meets(s, p, c) && IsMinterm(s, m) && In(m, c)
    ensures forall v :: 0 <= v < s.numBinary && !(p * Mask(s, v) <= c) ==> (HoldsBut(p, v, m) <==> In(m, p * c))
  {
    forall v | 0 <= v < s.numBinary && !(p * Mask(s, v) <= c)
      ensures HoldsBut(p, v, m) <==> In(m, p * c)
    {
      MeetingPart(s, p, c, v);
      BothValues(s, p, c, v, m);
    }
  }

  lemma BothValues(s: Space, p: Cube, c: Cube, v: nat, m: Minterm)
    requires v < s.numBinary && IsMinterm(s, m) && In(m, c)
    requires !(p * Mask(s, v) <= c) && p * c * Mask(s, v) != {}
    ensures Part(v, m[v]) in p
    ensures HoldsBut(p, v, m) <==> In(m, p * c)
  {
    var out :| out in p * Mask(s, v) && out !in c;
    var both := Member(p * c * Mask(s, v));
    assert Part(v, m[v]) in c;
    assert out == Part(v, out.k) && both == Part(v, both.k);
  }

  lemma ReachesSplit(s: Space, p: Cube, c: Cube, m: Minterm)
    requires Meets(s, p, c)
    ensures Reaches(s, p, c, m) <==>
      ReachesBelow(s, p, c, |s.sizes|, m)
          || exists v :: 0 <= v < s.numBinary && !(p * Mask(s, v) <= c) && HoldsBut(p, v, m)
  {
    hide Meets, HoldsBut, Mask;
    forall v | 0 <= v < |s.sizes|
      ensures Steps(s, p, c, v) <==> !(p * Mask(s, v) <= c)
    {
      MeetingPart(s, p, c, v);
    }
  }

  /** The sharp-consensus of every cube of T with c: it holds exactly the minterms
      of c that some cube of T reaches. */
  method CbConsensus(s: Space, T: Cover, c: Cube) returns (R: Cover)
    requires Valid(s, T) && c <= Full(s)
    ensures Valid(s, R) && ReachedBy(s, T, |T|, c, R)
  {
    hide Full, Valid, Has, Reaches, Meets, Distance, Consensus, ReachedBy;
    R := [];
    NothingReached(s, T, c);
    var i := 0;
    while i < |T|
      invariant 0 <= i <= |T|
      invariant Valid(s, R) && ReachedBy(s, T, i, c, R)
    {
      var p := T[i].cube;
      ValidAt(s, T, i);
      ghost var R0 := R;
      var dist := Distance(s, p, c);
      NoClash(s, p, c);
      if dist == 0 {
        R := CbConsensusDist0(s, R, p, c);
        ReachedStep(s, T, i, c, R0, R);
      } else if dist == 1 {
        R := R + [Plain(Consensus(s, p, c))];
        ConsensusStep(s, T, i, c, R0);
      } else {
        FarStep(s, T, i, c, R0);
      }
      i := i + 1;
    }
  }

  lemma NoClash(s: Space, p: Cube, c: Cube)
    ensures Distance(s, p, c) == 0 <==> Meets(s, p, c)
  {
  }

  lemma NothingReached(s: Space, T: Cover, c: Cube)
    ensures Valid(s, []) && ReachedBy(s, T, 0, c, [])
  {
  }

  lemma ReachedStep(s: Space, T: Cover, i: nat, c: Cube, R0: Cover, R: Cover)
    requires i < |T| && ReachedBy(s, T, i, c, R0)
    requires forall m :: IsMinterm(s, m) && In(m, c) ==> (Has(R, m) <==> Has(R0, m) || Reaches(s, T[i].cube, c, m))
    ensures ReachedBy(s, T, i + 1, c, R)
  {
    hide Has, Reaches, In;
  }

  lemma ConsensusStep(s: Space, T: Cover, i: nat, c: Cube, R0: Cover)
    requires i < |T| && ReachedBy(s, T, i, c, R0) && Valid(s, R0) && T[i].cube <= Full(s) && c <= Full(s)
    requires Distance(s, T[i].cube, c) == 1
    ensures ReachedBy(s, T, i + 1, c, R0 + [Plain(Consensus(s, T[i].cube, c))])
    ensures Valid(s, R0 + [Plain(Consensus(s, T[i].cube, c))])
  {
    hide Has, Reaches, In, Full, Consensus, Distance, ReachedBy;
    var R := R0 + [Plain(Consensus(s, T[i].cube, c))];
    forall m | IsMinterm(s, m) && In(m, c)
      ensures Has(R, m) <==> Has(R0, m) || Reaches(s, T[i].cube, c, m)
    {
      HasSnoc(R0, Consensus(s, T[i].cube, c), m);
      ConsensusReaches(s, T[i].cube, c, m);
    }
    ReachedStep(s, T, i, c, R0, R);
    ConsensusFull(s, T[i].cube, c);
  }

  lemma ConsensusFull(s: Space, p: Cube, c: Cube)
    requires p <= Full(s) && c <= Full(s)
    ensures Consensus(s, p, c) <= Full(s)
  {
    hide Full, Clashes;
  }

  lemma FarStep(s: Space, T: Cover, i: nat, c: Cube, R: Cover)
    requires i < |T| && ReachedBy(s, T, i, c, R) && Distance(s, T[i].cube, c) > 1
    ensures ReachedBy(s, T, i + 1, c, R)
  {
    hide Has, Reaches, In, Distance, ReachedBy;
    forall m | IsMinterm(s, m) && In(m, c)
      ensures !Reaches(s, T[i].cube, c, m)
    {
      FarReachesNot(s, T[i].cube, c, m);
    }
    ReachedStep(s, T, i, c, R, R);
  }

  // ---- testing one cube

  /** Some minterm of c, outside the don't cares, is reached by no cube of F or D. */
  ghost predicate Unreached(s: Space, F: Cover, D: Cover, c: Cube) {
    exists m :: IsMinterm(s, m) && In(m, c) && !Has(D, m) && !AnyReaches(s, F + D, c, m)
  }

  ghost predicate AnyReaches(s: Space, T: Cover, c: Cube, m: Minterm) {
    exists i :: 0 <= i < |T| && Reaches(s, T[i].cube, c, m)
  }

  /** The cube is empty in exactly one variable. */
  ghost predicate OnceVoid(s: Space, c: Cube) {
    exists v :: 0 <= v < |s.sizes| && c * Mask(s, v) == {} && ValuesBut(s, c, v)
  }

  ghost predicate ValuesBut(s: Space, c: Cube, v: nat) {
    forall u :: 0 <= u < |s.sizes| && u != v ==> c * Mask(s, u) != {}
  }

  /** No cube is empty in exactly one variable and at distance one from c. */
  ghost predicate NoneHiding(s: Space, F: Cover, c: Cube) {
    forall i :: 0 <= i < |F| ==> !(OnceVoid(s, F[i].cube) && Distance(s, F[i].cube, c) == 1)
  }

  /** Whether c is essential.  The answer is exact for a prime, as long as no cube
      of F or D is empty in exactly one variable and at distance one from it. */
  method EssenCube(s: Space, F: Cover, D: Cover, c: Cube) returns (essen: bool)
    requires Valid(s, F) && Valid(s, D) && c <= Full(s)
    ensures essen <==> !NonVoid(s, c) || Unreached(s, F, D, c)
    ensures NoneHiding(s, F, c) && NoneHiding(s, D, c) && Prime(s, F, D, c) ==>
      (essen <==> EssentialPrime(s, F, D, c))
  {
    hide Full, Valid, NonVoid, ReachedBy, Unreached, Prime, EssentialPrime, NoneHiding, Cube2List, OtherCovers;
    AppendValid(s, F, D);
    var H := CbConsensus(s, F + D, c);
    Cube2ListValid(s, H, D);
    NoCof(H, D);
    var covered := Tautology.CubeIsCovered(s, Cube2List(H, D), c, -1);
    essen := !covered;
    CoveredReached(s, F, D, c, H, covered);
    PrimeNonVoid(s, F, D, c);
    if NoneHiding(s, F, c) && NoneHiding(s, D, c) && Prime(s, F, D, c) {
      EssentialIff(s, F, D, c);
    }
  }

  lemma PrimeNonVoid(s: Space, F: Cover, D: Cover, c: Cube)
    ensures Prime(s, F, D, c) ==> NonVoid(s, c)
  {
  }

  lemma NoCof(F: Cover, D: Cover)
    ensures Cube2List(F, D).cof == {}
  {
  }

  lemma AppendValid(s: Space, F: Cover, D: Cover)
    requires Valid(s, F) && Valid(s, D)
    ensures Valid(s, F + D)
  {
    hide Full;
  }

  lemma CoveredReached(s: Space, F: Cover, D: Cover, c: Cube, H: Cover, covered: bool)
    requires ReachedBy(s, F + D, |F + D|, c, H)
    requires covered <==>
      NonVoid(s, c) && forall m :: IsMinterm(s, m) && In(m, c) ==> OtherCovers(Cube2List(H, D), -1, m)
    ensures !covered <==> !NonVoid(s, c) || Unreached(s, F, D, c)
  {
    hide NonVoid, Cube2List, OtherCovers, Reaches, In, Has;
    forall m | IsMinterm(s, m) && In(m, c)
      ensures OtherCovers(Cube2List(H, D), -1, m) <==> Has(D, m) || AnyReaches(s, F + D, c, m)
    {
      Cube2ListOthers(H, D, -1, m);
      AllOthers(H, D, m);
    }
  }

  lemma AllOthers(F: Cover, D: Cover, m: Minterm)
    ensures HasOther(F, D, -1, m) <==> Has(F, m) || Has(D, m)
  {
    hide In;
    if Has(F, m) {
      var i :| 0 <= i < |F| && In(m, F[i].cube);
      assert i != -1;
    }
    if Has(D, m) {
      var j :| 0 <= j < |D| && In(m, D[j].cube);
      assert |F| + j != -1;
    }
  }

  // ---- why the test is exact

  /** m with another value in one variable. */
  ghost function Neighbour(m: Minterm, v: nat, k: nat): (r: Minterm)
    requires v < |m|
    ensures |r| == |m| && r[v] == k && forall u :: 0 <= u < |m| && u != v ==> r[u] == m[u]
  {
    m[v := k]
  }

  /** A non-void cube that reaches m holds a neighbour of m outside c. */
  lemma ReachedNeighbour(s: Space, p: Cube, c: Cube, m: Minterm) returns (v: nat, k: nat)
    requires p <= Full(s) && NonVoid(s, p) && IsMinterm(s, m) && In(m, c) && Reaches(s, p, c, m)
    ensures v < |m| && k < s.sizes[v] && Part(v, k) !in c && In(Neighbour(m, v, k), p)
  {
    v :| 0 <= v < |s.sizes| && Steps(s, p, c, v) && HoldsBut(p, v, m);
    assert p * Mask(s, v) != {};
    var q :| q in p * Mask(s, v) && q !in c;
    k := q.k;
    assert q == Part(v, k);
  }

  /** A cube that reaches a minterm has a value in all variables but one, so it is
      not void unless it is empty in just that one, and at distance one. */
  lemma ReachingNonVoid(s: Space, p: Cube, c: Cube, m: Minterm)
    requires IsMinterm(s, m) && In(m, c) && Reaches(s, p, c, m) && !(OnceVoid(s, p) && Distance(s, p, c) == 1)
    ensures NonVoid(s, p)
  {
    hide Distance;
    OnceVoidApart(s, p, c);
    if Distance(s, p, c) > 1 {
      FarReachesNot(s, p, c, m);
    }
    var v :| 0 <= v < |s.sizes| && Steps(s, p, c, v) && HoldsBut(p, v, m);
    forall u | 0 <= u < |s.sizes| && u != v
      ensures p * Mask(s, u) != {}
    {
      assert Part(u, m[u]) in p * Mask(s, u);
    }
    assert ValuesBut(s, p, v);
  }

  /** A cube that holds a neighbour of m outside c reaches m. */
  lemma NeighbourReaches(s: Space, p: Cube, c: Cube, m: Minterm, v: nat, k: nat)
    requires IsMinterm(s, m) && v < |m| && k < s.sizes[v] && Part(v, k) !in c && In(Neighbour(m, v, k), p)
    ensures Reaches(s, p, c, m)
  {
    var m' := Neighbour(m, v, k);
    assert Part(v, m'[v]) in p * Mask(s, v);
    forall u | 0 <= u < |m| && u != v
      ensures Part(u, m[u]) in p
    {
      assert Part(u, m'[u]) in p;
    }
    assert Steps(s, p, c, v) && HoldsBut(p, v, m);
  }

  /** Every implicant that holds something lies in a prime. */
  lemma {:induction false} InsidePrime(s: Space, F: Cover, D: Cover, c: Cube) returns (q: Cube)
    requires c <= Full(s) && NonVoid(s, c) && Implicant(s, F, D, c)
    ensures c <= q && Prime(s, F, D, q)
    decreases |Full(s)| - |c|
  {
    hide Full, NonVoid, Implicant;
    if c' :| c < c' <= Full(s) && Implicant(s, F, D, c') {
      WiderNonVoid(s, c, c');
      LargerCard(c, c', Full(s));
      q := InsidePrime(s, F, D, c');
    } else {
      q := c;
    }
  }

  lemma LargerCard(a: Cube, b: Cube, full: Cube)
    requires a < b <= full
    ensures |a| < |b| <= |full|
  {
    SubsetCard(a, b);
    SubsetCard(b, full);
  }

  /** The parts of one minterm, or of two. */
  function PartsOf(m: Minterm): (c: Cube)
    ensures forall p :: p in c <==> p.v < |m| && p.k == m[p.v]
  {
    set v | v in Range(|m|) :: Part(v, m[v])
  }

  /** A minterm that is reached lies in a second prime. */
  lemma ReachedSecondPrime(s: Space, F: Cover, D: Cover, c: Cube, i: nat, m: Minterm) returns (q: Cube)
    requires Valid(s, F + D) && i < |F + D|
    requires !(OnceVoid(s, (F + D)[i].cube) && Distance(s, (F + D)[i].cube, c) == 1)
    requires Implicant(s, F, D, c) && IsMinterm(s, m) && In(m, c) && Reaches(s, (F + D)[i].cube, c, m)
    ensures Prime(s, F, D, q) && In(m, q) && q != c
  {
    hide Full, NonVoid, Reaches, Prime, Implicant, Has, OnceVoid, Distance;
    ValidAt(s, F + D, i);
    ReachingNonVoid(s, (F + D)[i].cube, c, m);
    var v, k := ReachedNeighbour(s, (F + D)[i].cube, c, m);
    var m' := Neighbour(m, v, k);
    InAppend(F, D, i, m');
    InImplicant(s, F, D, c, m);
    var pair := PartsOf(m) + {Part(v, k)};
    PairImplicant(s, F, D, m, v, k);
    q := InsidePrime(s, F, D, pair);
    InWider(m, pair, q);
    assert Part(v, k) in pair;
  }

  lemma InWider(m: Minterm, a: Cube, b: Cube)
    requires PartsOf(m) <= a <= b
    ensures In(m, b)
  {
    forall v | 0 <= v < |m|
      ensures Part(v, m[v]) in b
    {
      assert Part(v, m[v]) in PartsOf(m);
    }
  }

  lemma InAppend(F: Cover, D: Cover, i: nat, m: Minterm)
    requires i < |F + D| && In(m, (F + D)[i].cube)
    ensures Has(F, m) || Has(D, m)
  {
    hide In;
    if i < |F| {
      assert In(m, F[i].cube);
    } else {
      assert In(m, D[i - |F|].cube);
    }
  }

  lemma InImplicant(s: Space, F: Cover, D: Cover, c: Cube, m: Minterm)
    requires Implicant(s, F, D, c) && IsMinterm(s, m) && In(m, c)
    ensures Has(F, m) || Has(D, m)
  {
  }

  /** Two neighbours of the function make an implicant. */
  lemma PairImplicant(s: Space, F: Cover, D: Cover, m: Minterm, v: nat, k: nat)
    requires IsMinterm(s, m) && v < |m| && k < s.sizes[v]
    requires Has(F, m) || Has(D, m)
    requires Has(F, Neighbour(m, v, k)) || Has(D, Neighbour(m, v, k))
    ensures PartsOf(m) + {Part(v, k)} <= Full(s) && NonVoid(s, PartsOf(m) + {Part(v, k)})
    ensures Implicant(s, F, D, PartsOf(m) + {Part(v, k)})
  {
    hide Has;
    var pair := PartsOf(m) + {Part(v, k)};
    forall x | IsMinterm(s, x) && In(x, pair)
      ensures Has(F, x) || Has(D, x)
    {
      if x[v] == m[v] {
        assert forall u :: 0 <= u < |x| ==> Part(u, x[u]) in pair && x[u] == m[u];
        assert x == m;
      } else {
        assert forall u :: 0 <= u < |x| ==> Part(u, x[u]) in pair && x[u] == Neighbour(m, v, k)[u];
        assert x == Neighbour(m, v, k);
      }
    }
    forall u | 0 <= u < |m|
      ensures Part(u, m[u]) in pair
    {
      assert Part(u, m[u]) in PartsOf(m);
    }
    MintermMakesNonVoid(s, m, pair);
  }

  lemma OnceVoidApart(s: Space, p: Cube, c: Cube)
    ensures OnceVoid(s, p) ==> Distance(s, p, c) > 0
  {
    if v :| 0 <= v < |s.sizes| && p * Mask(s, v) == {} && ValuesBut(s, p, v) {
      assert p * c * Mask(s, v) == {};
      assert v in Clashes(s, p, c);
    }
  }

  /** A second prime through m reaches it. */
  lemma SecondPrimeReaches(s: Space, F: Cover, D: Cover, c: Cube, q: Cube, m: Minterm)
    requires Prime(s, F, D, c) && Prime(s, F, D, q) && q != c && IsMinterm(s, m) && In(m, c) && In(m, q)
    ensures AnyReaches(s, F + D, c, m)
  {
    hide Full, NonVoid, Reaches, Has;
    assert !(q <= c);
    var p := OutsidePart(q, c);
    PartInSpace(s, q, p);
    var m' := Neighbour(m, p.v, p.k);
    assert In(m', q) by { NeighbourIn(m, q, p); }
    assert Has(F, m') || Has(D, m');
    var i := HolderOf(F, D, m');
    NeighbourReaches(s, (F + D)[i].cube, c, m, p.v, p.k);
  }

  lemma OutsidePart(q: Cube, c: Cube) returns (p: Part)
    requires !(q <= c)
    ensures p in q && p !in c
  {
    p :| p in q && p !in c;
  }

  lemma PartInSpace(s: Space, q: Cube, p: Part)
    requires q <= Full(s) && p in q
    ensures p.v < |s.sizes| && p.k < s.sizes[p.v]
  {
  }

  lemma NeighbourIn(m: Minterm, q: Cube, p: Part)
    requires In(m, q) && p in q && p.v < |m|
    ensures In(Neighbour(m, p.v, p.k), q)
  {
    var m' := Neighbour(m, p.v, p.k);
    forall u | 0 <= u < |m'|
      ensures Part(u, m'[u]) in q
    {
      assert u == p.v ==> Part(u, m'[u]) == p;
    }
  }

  lemma HolderOf(F: Cover, D: Cover, m: Minterm) returns (i: nat)
    requires Has(F, m) || Has(D, m)
    ensures i < |F + D| && In(m, (F + D)[i].cube)
  {
    hide In;
    if Has(F, m) {
      i :| 0 <= i < |F| && In(m, F[i].cube);
    } else {
      var j :| 0 <= j < |D| && In(m, D[j].cube);
      i := |F| + j;
    }
  }

  /** For a prime the test is exact when no cube is empty in exactly one variable and
      at distance one from it. */
  lemma EssentialIff(s: Space, F: Cover, D: Cover, c: Cube)
    requires Valid(s, F) && Valid(s, D) && NoneHiding(s, F, c) && NoneHiding(s, D, c) && Prime(s, F, D, c)
    ensures Unreached(s, F, D, c) <==> EssentialPrime(s, F, D, c)
  {
    hide Full, NonVoid, Has, Prime, Valid, OnceVoid, Reaches, In, Distance;
    AppendValid(s, F, D);
    forall m | IsMinterm(s, m) && In(m, c)
      ensures AnyReaches(s, F + D, c, m) <==> exists q :: Prime(s, F, D, q) && In(m, q) && q != c
    {
      if i :| 0 <= i < |F + D| && Reaches(s, (F + D)[i].cube, c, m) {
        PrimeImplicant(s, F, D, c);
        var q := ReachedSecondPrime(s, F, D, c, i, m);
      }
      if q :| Prime(s, F, D, q) && In(m, q) && q != c {
        SecondPrimeReaches(s, F, D, c, q, m);
      }
    }
  }

  lemma PrimeImplicant(s: Space, F: Cover, D: Cover, c: Cube)
    requires Prime(s, F, D, c)
    ensures Implicant(s, F, D, c)
  {
  }

  /** No pair can be let off: every cube p that is empty in exactly one variable and
      at distance one from c hides c.  With what p leaves open of c as don't cares, c
      is an essential prime, and the test does not find it. */
  lemma OnceVoidHides(s: Space, p: Cube, c: Cube)
    requires p <= Full(s) && c <= Full(s) && NonVoid(s, c) && OnceVoid(s, p) && Distance(s, p, c) == 1
    ensures exists D :: Hides(s, p, c, D)
  {
    hide Full, Prime, EssentialPrime, Unreached, NonVoid, Distance, LeftOpen, Valid;
    var v :| 0 <= v < |s.sizes| && p * Mask(s, v) == {} && ValuesBut(s, p, v);
    var F, D := [Plain(c), Plain(p)], LeftOpen(s, p, c, v);
    LeftOpenInside(s, p, c, v);
    LonePrime(s, F, D, p, c, v);
    LoneEssential(s, F, D, p, c, v);
    VoidReaches(s, F, D, p, c, v);
    assert Hides(s, p, c, D);
  }

  /** For the cover of c and p, the test does not find that c is an essential prime. */
  ghost predicate Hides(s: Space, p: Cube, c: Cube, D: Cover) {
    var F := [Plain(c), Plain(p)];
    Valid(s, D) && Prime(s, F, D, c) && EssentialPrime(s, F, D, c) && !Unreached(s, F, D, c)
  }

  /** The minterms of c that p does not hold in some variable other than v. */
  ghost function LeftOpen(s: Space, p: Cube, c: Cube, v: nat): (D: Cover)
    requires v < |s.sizes|
    ensures |D| == |s.sizes|
    ensures forall u :: 0 <= u < |D| ==> D[u] == Plain(if u == v then {} else OpenIn(s, p, c, u))
  {
    seq(|s.sizes|, u requires 0 <= u < |s.sizes| => Plain(if u == v then {} else OpenIn(s, p, c, u)))
  }

  ghost function OpenIn(s: Space, p: Cube, c: Cube, u: nat): Cube
    requires u < |s.sizes|
  {
    (c - Mask(s, u)) + (c * Mask(s, u) - p)
  }

  lemma LeftOpenInside(s: Space, p: Cube, c: Cube, v: nat)
    requires v < |s.sizes| && c <= Full(s)
    ensures Valid(s, LeftOpen(s, p, c, v))
  {
    hide Full, Mask;
  }

  lemma OpenMeaning(s: Space, p: Cube, c: Cube, v: nat, m: Minterm)
    requires v < |s.sizes| && IsMinterm(s, m) && In(m, c)
    ensures Has(LeftOpen(s, p, c, v), m) <==> !HoldsBut(p, v, m)
  {
    hide Full;
    var D := LeftOpen(s, p, c, v);
    if u :| 0 <= u < |D| && In(m, D[u].cube) {
      assert Part(u, m[u]) in D[u].cube;
      assert Part(u, m[u]) in Mask(s, u);
    }
    if u :| 0 <= u < |m| && u != v && Part(u, m[u]) !in p {
      forall w | 0 <= w < |m|
        ensures Part(w, m[w]) in OpenIn(s, p, c, u)
      {
        assert Part(w, m[w]) in c;
      }
      assert In(m, D[u].cube);
    }
  }

  /** The minterms of that cover are those of c. */
  lemma LoneMinterm(s: Space, F: Cover, D: Cover, p: Cube, c: Cube, v: nat, x: Minterm)
    requires F == [Plain(c), Plain(p)] && v < |s.sizes| && D == LeftOpen(s, p, c, v) && p * Mask(s, v) == {}
    requires IsMinterm(s, x)
    ensures Has(F, x) || Has(D, x) <==> In(x, c)
  {
    hide Full, LeftOpen;
    assert Part(v, x[v]) !in p * Mask(s, v) && Part(v, x[v]) in Mask(s, v);
    if In(x, c) {
      assert In(x, F[0].cube);
    }
    if u :| 0 <= u < |D| && In(x, D[u].cube) {
      OpenWider(s, p, c, v, u);
      assert forall w :: 0 <= w < |x| ==> Part(w, x[w]) in D[u].cube;
    }
  }

  lemma OpenWider(s: Space, p: Cube, c: Cube, v: nat, u: nat)
    requires v < |s.sizes| && u < |s.sizes|
    ensures LeftOpen(s, p, c, v)[u].cube <= c
  {
    hide Mask;
  }

  /** So its implicants lie in c. */
  lemma LoneInside(s: Space, F: Cover, D: Cover, p: Cube, c: Cube, v: nat, q: Cube)
    requires F == [Plain(c), Plain(p)] && v < |s.sizes| && D == LeftOpen(s, p, c, v) && p * Mask(s, v) == {}
    requires q <= Full(s) && NonVoid(s, q) && Implicant(s, F, D, q)
    ensures q <= c
  {
    hide Full, Has, NonVoid, LeftOpen;
    var m := PickMinterm(s, q);
    forall r | r in q
      ensures r in c
    {
      PartInSpace(s, q, r);
      NeighbourIn(m, q, r);
      LoneMinterm(s, F, D, p, c, v, Neighbour(m, r.v, r.k));
      assert r == Part(r.v, Neighbour(m, r.v, r.k)[r.v]);
    }
  }

  lemma LonePrime(s: Space, F: Cover, D: Cover, p: Cube, c: Cube, v: nat)
    requires F == [Plain(c), Plain(p)] && v < |s.sizes| && D == LeftOpen(s, p, c, v) && p * Mask(s, v) == {}
    requires c <= Full(s) && NonVoid(s, c)
    ensures Prime(s, F, D, c)
  {
    hide Full, Has, NonVoid, LeftOpen;
    forall x | IsMinterm(s, x) && In(x, c)
      ensures Has(F, x) || Has(D, x)
    {
      LoneMinterm(s, F, D, p, c, v, x);
    }
    forall q | c < q <= Full(s)
      ensures !Implicant(s, F, D, q)
    {
      WiderNonVoid(s, c, q);
      if Implicant(s, F, D, q) {
        LoneInside(s, F, D, p, c, v, q);
      }
    }
  }

  /** A minterm of c that p holds in all variables but v. */
  lemma SharedMinterm(s: Space, p: Cube, c: Cube, v: nat) returns (m: Minterm)
    requires v < |s.sizes| && p * Mask(s, v) == {} && Distance(s, p, c) == 1 && NonVoid(s, c)
    ensures IsMinterm(s, m) && In(m, c) && HoldsBut(p, v, m)
  {
    assert p * c * Mask(s, v) == {};
    assert v in Clashes(s, p, c);
    var both := p * c + c * Mask(s, v);
    forall u | 0 <= u < |s.sizes|
      ensures both * Mask(s, u) != {}
    {
      if u == v {
        assert c * Mask(s, v) <= both * Mask(s, v);
      } else {
        OnlyOneClash(s, p, c, v, u);
        assert p * c * Mask(s, u) <= both * Mask(s, u);
      }
    }
    m := PickMinterm(s, both);
    forall u | 0 <= u < |m| && u != v
      ensures Part(u, m[u]) in p
    {
      assert Part(u, m[u]) in both;
    }
  }

  lemma OnlyOneClash(s: Space, p: Cube, c: Cube, v: nat, u: nat)
    requires Distance(s, p, c) == 1 && v in Clashes(s, p, c) && u < |s.sizes| && u != v
    ensures p * c * Mask(s, u) != {}
  {
    if u in Clashes(s, p, c) {
      SingletonCard(Clashes(s, p, c), u, v);
    }
  }

  lemma LoneEssential(s: Space, F: Cover, D: Cover, p: Cube, c: Cube, v: nat)
    requires F == [Plain(c), Plain(p)] && v < |s.sizes| && D == LeftOpen(s, p, c, v) && p * Mask(s, v) == {}
    requires c <= Full(s) && NonVoid(s, c) && Distance(s, p, c) == 1 && Prime(s, F, D, c)
    ensures EssentialPrime(s, F, D, c)
  {
    hide Full, NonVoid, Implicant, Has, LeftOpen, Distance;
    var m := SharedMinterm(s, p, c, v);
    OpenMeaning(s, p, c, v, m);
    forall q | Prime(s, F, D, q) && In(m, q)
      ensures q == c
    {
      LoneInside(s, F, D, p, c, v, q);
      assert !(q < c);
    }
  }

  lemma VoidReaches(s: Space, F: Cover, D: Cover, p: Cube, c: Cube, v: nat)
    requires F == [Plain(c), Plain(p)] && v < |s.sizes| && D == LeftOpen(s, p, c, v) && p * Mask(s, v) == {}
    ensures !Unreached(s, F, D, c)
  {
    hide Full, Has, LeftOpen;
    forall x | IsMinterm(s, x) && In(x, c) && !Has(D, x)
      ensures AnyReaches(s, F + D, c, x)
    {
      OpenMeaning(s, p, c, v, x);
      assert Steps(s, p, c, v) && HoldsBut(p, v, x);
      assert Reaches(s, (F + D)[1].cube, c, x);
    }
  }

  // ---- moving the essential primes out of the way

  /** The cube is taken for essential: it may be, and it is void or some minterm of
      it is reached by no other cube. */
  ghost predicate Taken(s: Space, F: Cover, D: Cover, c: FCube) {
    !c.nonEssen && c.relEssen && (!NonVoid(s, c.cube) || Unreached(s, F, D, c.cube))
  }

  /** The first i cubes of F, parted in the cubes taken for essential and the
      others. */
  ghost predicate Parted(s: Space, F: Cover, D: Cover, i: nat, F': Cover, E: Cover) {
    && i <= |F| && |F'| + |E| == i
    && SameShapes(F', F) && SameShapes(E, F)
    && (forall k :: 0 <= k < i ==> IsShape(F[k].cube, F') || IsShape(F[k].cube, E))
    && (forall k :: 0 <= k < |E| ==> Taken(s, F, D, E[k]))
    && (forall k :: 0 <= k < |F'| ==> !Taken(s, F, D, F'[k]))
  }

  lemma NothingParted(s: Space, F: Cover, D: Cover)
    ensures Parted(s, F, D, 0, [], [])
  {
  }

  lemma ShapeSnoc(c: Cube, F: Cover, x: FCube)
    ensures IsShape(c, F) || c == x.cube ==> IsShape(c, F + [x])
  {
    if j :| 0 <= j < |F| && F[j].cube == c {
      assert (F + [x])[j].cube == c;
    }
    if c == x.cube {
      assert (F + [x])[|F|].cube == c;
    }
  }

  lemma PartedStep(s: Space, F: Cover, D: Cover, i: nat, F': Cover, E: Cover, c: FCube)
    requires i < |F| && Parted(s, F, D, i, F', E) && c.cube == F[i].cube
    ensures Taken(s, F, D, c) ==> Parted(s, F, D, i + 1, F', E + [c])
    ensures !Taken(s, F, D, c) ==> Parted(s, F, D, i + 1, F' + [c], E)
  {
    hide Taken, IsShape;
    assert IsShape(c.cube, F) by { ShapeAt(F, i); }
    forall k | 0 <= k <= i
      ensures Taken(s, F, D, c) ==> IsShape(F[k].cube, F') || IsShape(F[k].cube, E + [c])
      ensures !Taken(s, F, D, c) ==> IsShape(F[k].cube, F' + [c]) || IsShape(F[k].cube, E)
    {
      ShapeSnoc(F[k].cube, E, c);
      ShapeSnoc(F[k].cube, F', c);
    }
  }

  lemma ShapeAt(F: Cover, i: nat)
    requires i < |F|
    ensures IsShape(F[i].cube, F)
  {
  }

  lemma PartedAll(s: Space, F: Cover, D: Cover, F': Cover, E: Cover)
    requires Parted(s, F, D, |F|, F', E) && Valid(s, F)
    ensures forall m :: Has(F, m) <==> Has(F', m) || Has(E, m)
    ensures Valid(s, F') && Valid(s, E)
  {
    hide Full, Taken, Valid, Has, SameShapes;
    ShapesHas(F', F);
    ShapesHas(E, F);
    ShapesValid(s, F', F);
    ShapesValid(s, E, F);
    forall m | Has(F, m)
      ensures Has(F', m) || Has(E, m)
    {
      HeldShape(F, F', E, m);
    }
  }

  lemma HeldShape(F: Cover, F': Cover, E: Cover, m: Minterm)
    requires Has(F, m) && forall k :: 0 <= k < |F| ==> IsShape(F[k].cube, F') || IsShape(F[k].cube, E)
    ensures Has(F', m) || Has(E, m)
  {
    hide In;
    var k :| 0 <= k < |F| && In(m, F[k].cube);
    assert IsShape(F[k].cube, F') || IsShape(F[k].cube, E);
  }

  /** Test the cubes of F that may be essential.  The ones found essential are
      moved to E and join the don't cares; the others stay in F. */
  method EssentialCubes(s: Space, F: Cover, D: Cover) returns (F': Cover, D': Cover, E: Cover)
    requires Valid(s, F) && Valid(s, D)
    ensures Valid(s, F') && Valid(s, D') && Valid(s, E)
    ensures |F'| + |E| == |F| && D' == D + E
    ensures SameShapes(F', F) && SameShapes(E, F)
    ensures forall m :: Has(F, m) <==> Has(F', m) || Has(E, m)
    ensures forall i :: 0 <= i < |E| ==> Taken(s, F, D, E[i])
    ensures forall i :: 0 <= i < |F'| ==> !Taken(s, F, D, F'[i])
  {
    hide Full, Valid, Has, NonVoid, Unreached, SameShapes, Parted;
    E, F' := [], [];
    NothingParted(s, F, D);
    var i := 0;
    while i < |F|
      invariant 0 <= i <= |F|
      invariant Parted(s, F, D, i, F', E)
    {
      ValidAt(s, F, i);
      var c := F[i].(active := true);
      var essen := false;
      if !c.nonEssen && c.relEssen {
        essen := EssenCube(s, F, D, c.cube);
      }
      PartedStep(s, F, D, i, F', E, c);
      if essen {
        E := E + [c];
      } else {
        F' := F' + [c];
      }
      i := i + 1;
    }
    PartedFacts(s, F, D, F', E);
    PartedAll(s, F, D, F', E);
    AppendValid(s, D, E);
    D' := D + E;
  }

  lemma PartedFacts(s: Space, F: Cover, D: Cover, F': Cover, E: Cover)
    requires Parted(s, F, D, |F|, F', E)
    ensures |F'| + |E| == |F| && SameShapes(F', F) && SameShapes(E, F)
    ensures forall i :: 0 <= i < |E| ==> Taken(s, F, D, E[i])
    ensures forall i :: 0 <= i < |F'| ==> !Taken(s, F, D, F'[i])
  {
  }
}
