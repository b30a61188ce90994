/** Generating all prime implicants by consensus. */
module Primes {
  import opened Cubes
  import opened Counting
  import opened CubeLists
  import opened Splitting
  import opened Rows
  import opened Families
  import opened Merging
  import opened Complement
  import opened Inactive
  import Containment
  import SetOrder
  import Union
  import UnateMap

  // ---- primes of a cube list

  /** On the subspace, c holds only covered minterms, and no larger cube does. */
  ghost predicate PrimeOn(s: Space, T: CubeList, c: Cube) {
    && T.cof <= c <= Full(s) && NonVoid(s, c - T.cof) && Sound(s, T, true, c)
    && forall q :: c < q <= Full(s) ==> !Sound(s, T, true, q)
  }

  ghost predicate AllSound(s: Space, T: CubeList, P: Cover) {
    forall i :: 0 <= i < |P| ==> Sound(s, T, true, P[i].cube)
  }

  /** Every cube of P is an implicant, and P has every prime, up to the parts that
      are cofactored away. */
  ghost predicate Answers(s: Space, T: CubeList, P: Cover) {
    Valid(s, P) && AllSound(s, T, P) && forall c :: PrimeOn(s, T, c) ==> Within(c - T.cof, P)
  }

  /** Parts cofactored away do not matter to an implicant. */
  lemma SoundWithCof(s: Space, T: CubeList, c: Cube)
    requires Sound(s, T, true, c)
    ensures Sound(s, T, true, c + T.cof)
  {
    hide Covers;
    forall m | Outside(s, T.cof, m) && In(m, c + T.cof)
      ensures Covers(T.items, m)
    {
      InOutside(s, T.cof, c, m);
    }
  }

  /** An implicant that holds a prime is that prime, on the subspace. */
  lemma PrimeInside(s: Space, T: CubeList, c: Cube, q: Cube)
    requires PrimeOn(s, T, c) && Sound(s, T, true, q) && c - T.cof <= q <= Full(s)
    ensures q - T.cof == c - T.cof
  {
    hide Full, NonVoid, Sound;
    SoundWithCof(s, T, q);
    assert c <= q + T.cof;
    assert !(c < q + T.cof);
    assert c == q + T.cof;
  }

  /** Every implicant lies in a prime. */
  lemma {:induction false} PrimeAbove(s: Space, T: CubeList, c: Cube) returns (q: Cube)
    requires T.cof <= c <= Full(s) && NonVoid(s, c - T.cof) && Sound(s, T, true, c)
    ensures c <= q && PrimeOn(s, T, q)
    decreases |Full(s)| - |c|
  {
    hide Full, NonVoid, Sound;
    if c' :| c < c' <= Full(s) && Sound(s, T, true, c') {
      WiderNonVoid(s, c - T.cof, c' - T.cof);
      LargerCard(c, c', Full(s));
      q := PrimeAbove(s, T, c');
    } else {
      q := c;
    }
  }

  lemma LargerCard(a: Cube, b: Cube, full: Cube)
    requires a < b <= full
    ensures |a| < |b| <= |full|
  {
    SubsetCard(a, b);
    SubsetCard(b, full);
  }

  /** Every prime of the list lies in a cube of P as soon as every implicant does. */
  lemma WiderAnswers(s: Space, T: CubeList, P: Cover, Q: Cover)
    requires Answers(s, T, P) && Valid(s, Q) && AllSound(s, T, Q) && Inside(P, Q)
    ensures Answers(s, T, Q)
  {
    hide PrimeOn, AllSound, Valid, Full;
    forall c | PrimeOn(s, T, c)
      ensures Within(c - T.cof, Q)
    {
      WithinTrans(c - T.cof, P, Q);
    }
  }

  lemma WithinTrans(c: Cube, P: Cover, Q: Cover)
    requires Within(c, P) && Inside(P, Q)
    ensures Within(c, Q)
  {
    var i :| 0 <= i < |P| && c <= P[i].cube;
    assert Within(P[i].cube, Q);
    var j :| 0 <= j < |Q| && P[i].cube <= Q[j].cube;
    assert c <= Q[j].cube;
  }

  // ---- the special cases

  /** A cube with live parts everywhere holds a minterm of the subspace. */
  lemma LiveMinterm(s: Space, cof: Cube, c: Cube) returns (m: Minterm)
    requires c <= Full(s) && NonVoid(s, c - cof)
    ensures Outside(s, cof, m) && In(m, c)
  {
    m := PickMinterm(s, c - cof);
  }

  lemma NoPrimes(s: Space, T: CubeList)
    requires T.items == []
    ensures Answers(s, T, [])
  {
    hide Full, NonVoid;
    forall c | PrimeOn(s, T, c)
      ensures Within(c - T.cof, [])
    {
      var m := LiveMinterm(s, T.cof, c);
      assert Covers(T.items, m);
    }
  }

  /** One cube: it is the only prime. */
  lemma OnePrime(s: Space, T: CubeList)
    requires InSpace(s, T) && |T.items| == 1
    ensures Answers(s, T, [Plain(T.cof + T.items[0].cube)])
  {
    hide Full, NonVoid;
    var p := T.cof + T.items[0].cube;
    var P := [Plain(p)];
    forall m | Outside(s, T.cof, m) && In(m, p)
      ensures Covers(T.items, m)
    {
      OneCovers(s, T, m);
    }
    forall c | PrimeOn(s, T, c)
      ensures Within(c - T.cof, P)
    {
      forall x | x in c - T.cof
        ensures x in p
      {
        var m := MintermOf(s, T.cof, c, x);
        assert Covers(T.items, m);
        OneCovers(s, T, m);
        PartIn(m, p, x);
      }
      assert c - T.cof <= P[0].cube;
    }
  }

  lemma PartIn(m: Minterm, c: Cube, p: Part)
    requires In(m, c) && p.v < |m| && m[p.v] == p.k
    ensures p in c
  {
    assert p == Part(p.v, m[p.v]);
  }

  /** A minterm of the cube through a live part of it. */
  lemma MintermOf(s: Space, cof: Cube, c: Cube, p: Part) returns (m: Minterm)
    requires c <= Full(s) && NonVoid(s, c - cof) && p in c - cof
    ensures Outside(s, cof, m) && In(m, c) && p.v < |m| && m[p.v] == p.k
  {
    var m0 := PickMinterm(s, c - cof);
    assert p in Full(s);
    m := m0[p.v := p.k];
    forall v | 0 <= v < |m|
      ensures Part(v, m[v]) in c - cof
    {
      assert v == p.v ==> Part(v, m[v]) == p;
    }
  }

  /** Everything is covered: the universe is the only prime. */
  lemma UniversePrime(s: Space, T: CubeList)
    requires forall m :: Outside(s, T.cof, m) ==> Covers(T.items, m)
    ensures Answers(s, T, Whole(s))
  {
    hide Covers, Outside;
    forall c | PrimeOn(s, T, c)
      ensures Within(c - T.cof, Whole(s))
    {
      assert c - T.cof <= Whole(s)[0].cube;
    }
  }

  /** The corner of a cube: the active part of a variable where the cube has it. */
  lemma CornerOf(s: Space, T: CubeList, c: Cube) returns (m: Minterm)
    requires c <= Full(s) && NonVoid(s, c - T.cof)
    ensures Outside(s, T.cof, m) && In(m, c)
    ensures forall v :: 0 <= v < |m| && c * ActiveParts(s, T, v) != {} ==> Part(v, m[v]) in ActiveParts(s, T, v)
  {
    hide ActiveParts;
    var corner := set p | p in c - T.cof && p.v < |s.sizes| && (c * ActiveParts(s, T, p.v) != {} ==>
        p in ActiveParts(s, T, p.v));
    forall v | 0 <= v < |s.sizes|
      ensures corner * Mask(s, v) != {}
    {
      if c * ActiveParts(s, T, v) != {} {
        var p := Member(c * ActiveParts(s, T, v));
        ActivePartFacts(s, T, v, p);
        assert p in corner * Mask(s, v);
      } else {
        assert (c - T.cof) * Mask(s, v) != {};
        var p := Member((c - T.cof) * Mask(s, v));
        assert p in corner * Mask(s, v);
      }
    }
    m := PickMinterm(s, corner);
  }

  /** In a unate list every implicant lies in a cube of the list. */
  lemma UnateInside(s: Space, T: CubeList, c: Cube) returns (it: Item)
    requires UnateMap.UnateList(s, T) && c <= Full(s) && NonVoid(s, c - T.cof) && Sound(s, T, true, c)
    ensures it in T.items && c - T.cof <= it.cube
  {
    hide ActiveParts, NonVoid;
    var m := CornerOf(s, T, c);
    assert Covers(T.items, m);
    it :| it in T.items && In(m, it.cube);
    forall p | p in c - T.cof
      ensures p in it.cube
    {
      CornerHolds(s, T, c, m, it, p);
    }
  }

  lemma CornerHolds(s: Space, T: CubeList, c: Cube, m: Minterm, it: Item, p: Part)
    requires UnateMap.UnateList(s, T) && c <= Full(s) && p in c - T.cof && it in T.items && In(m, it.cube)
    requires IsMinterm(s, m)
    requires forall v :: 0 <= v < |m| && c * ActiveParts(s, T, v) != {} ==> Part(v, m[v]) in ActiveParts(s, T, v)
    ensures p in it.cube
  {
    if p !in it.cube {
      assert p in Full(s);
      assert p in c * ActiveParts(s, T, p.v);
      UnateMap.SameActive(s, T, p, Part(p.v, m[p.v]));
    }
  }

  lemma UnatePrimes(s: Space, T: CubeList, P: Cover)
    requires InSpace(s, T) && UnateMap.UnateList(s, T)
    requires Inside(CubeUnlist(T), P) && forall i :: 0 <= i < |P| ==> P[i] in CubeUnlist(T)
    ensures Answers(s, T, P)
  {
    hide UnateMap.UnateList, Inside, Full, NonVoid;
    UnlistAnswers(s, T);
    var U := CubeUnlist(T);
    forall i | 0 <= i < |P|
      ensures P[i].cube <= Full(s) && Sound(s, T, true, P[i].cube)
    {
      var j :| 0 <= j < |U| && U[j] == P[i];
      assert U[j].cube <= Full(s) && Sound(s, T, true, U[j].cube);
    }
    AllFull(s, P);
    WiderAnswers(s, T, U, P);
  }

  lemma AllFull(s: Space, P: Cover)
    requires forall i :: 0 <= i < |P| ==> P[i].cube <= Full(s)
    ensures Valid(s, P)
  {
    hide Full;
  }

  lemma UnlistAnswers(s: Space, T: CubeList)
    requires InSpace(s, T) && UnateMap.UnateList(s, T)
    ensures Answers(s, T, CubeUnlist(T))
  {
    hide UnateMap.UnateList, Full, NonVoid;
    var U := CubeUnlist(T);
    forall i | 0 <= i < |U|
      ensures U[i].cube <= Full(s) && Sound(s, T, true, U[i].cube)
    {
      ItemSound(s, T, i);
    }
    AllFull(s, U);
    forall c | PrimeOn(s, T, c)
      ensures Within(c - T.cof, U)
    {
      var it := UnateInside(s, T, c);
      var i :| 0 <= i < |T.items| && T.items[i] == it;
      assert c - T.cof <= U[i].cube;
    }
  }

  lemma ItemSound(s: Space, T: CubeList, i: nat)
    requires InSpace(s, T) && i < |T.items|
    ensures T.items[i].cube + T.cof <= Full(s) && Sound(s, T, true, T.items[i].cube + T.cof)
  {
    hide Full;
    var c := T.items[i].cube;
    assert T.items[i] in T.items;
    forall m | Outside(s, T.cof, m) && In(m, c + T.cof)
      ensures Covers(T.items, m)
    {
      InOutside(s, T.cof, c, m);
    }
  }

  // ---- factoring out empty columns

  /** A prime has only parts that some cube has. */
  lemma PrimeBelowCeil(s: Space, T: CubeList, ceil: Cube, c: Cube)
    requires CeilOf(T, ceil) && PrimeOn(s, T, c)
    ensures c <= ceil
  {
    hide NonVoid, Full;
    forall p | p in c
      ensures p in ceil
    {
      if p !in T.cof {
        var m := MintermOf(s, T.cof, c, p);
        CeilSides(s, T, ceil, m);
        assert Covers(T.items, m);
        PartIn(m, ceil, p);
      }
    }
  }

  lemma CeilPrimes(s: Space, T: CubeList, ceil: Cube, P: Cover)
    requires InSpace(s, T) && CeilOf(T, ceil) && ceil <= Full(s) && Answers(s, CeilList(s, T, ceil), P)
    ensures Answers(s, T, CutAll(P, ceil))
  {
    hide Full, NonVoid, Sound, PrimeOn, AllSound, CeilOf, InSpace;
    CutValid(s, P, ceil);
    var T' := CeilList(s, T, ceil);
    var Q := CutAll(P, ceil);
    forall i | 0 <= i < |Q|
      ensures Sound(s, T, true, Q[i].cube)
    {
      SoundAt(s, T', P, i);
      CutSound(s, T, ceil, P[i].cube);
    }
    SoundAll(s, T, Q);
    forall c | PrimeOn(s, T, c)
      ensures Within(c - T.cof, Q)
    {
      PrimeBelowCeil(s, T, ceil, c);
      var q := LiftedPrime(s, T, ceil, c);
      assert Within(q - T'.cof, P);
      var i :| 0 <= i < |P| && q - T'.cof <= P[i].cube;
      assert c - T.cof <= Q[i].cube;
    }
  }

  lemma SoundAt(s: Space, T: CubeList, P: Cover, i: nat)
    requires AllSound(s, T, P) && i < |P|
    ensures Sound(s, T, true, P[i].cube)
  {
  }

  lemma SoundAll(s: Space, T: CubeList, P: Cover)
    requires forall i :: 0 <= i < |P| ==> Sound(s, T, true, P[i].cube)
    ensures AllSound(s, T, P)
  {
  }

  lemma CutSound(s: Space, T: CubeList, ceil: Cube, p: Cube)
    requires CeilOf(T, ceil) && Sound(s, CeilList(s, T, ceil), true, p)
    ensures Sound(s, T, true, p * ceil)
  {
    hide Full;
    forall m | Outside(s, T.cof, m) && In(m, p * ceil)
      ensures Covers(T.items, m)
    {
      CeilSides(s, T, ceil, m);
      assert In(m, ceil) && In(m, p);
    }
  }

  /** A prime of the list lies in a prime of the smaller subspace. */
  lemma LiftedPrime(s: Space, T: CubeList, ceil: Cube, c: Cube) returns (q: Cube)
    requires InSpace(s, T) && CeilOf(T, ceil) && ceil <= Full(s) && PrimeOn(s, T, c) && c <= ceil
    ensures PrimeOn(s, CeilList(s, T, ceil), q) && c - T.cof <= q - CeilList(s, T, ceil).cof
  {
    hide NonVoid, Full;
    var T' := CeilList(s, T, ceil);
    var c' := c + T'.cof;
    assert c' - T'.cof == c - T.cof;
    forall m | Outside(s, T'.cof, m) && In(m, c')
      ensures Covers(T'.items, m)
    {
      InOutside(s, T'.cof, c, m);
      assert Outside(s, T.cof, m);
    }
    q := PrimeAbove(s, T', c');
  }

  // ---- merging the halves

  /** Cut to one side of the split; void cubes are dropped. */
  method AndWithCofactor(s: Space, A: Cover, cof: Cube) returns (B: Cover)
    ensures forall i :: 0 <= i < |B| ==> NonVoid(s, B[i].cube) && CutOf(A, cof, B[i].cube)
    ensures forall i :: 0 <= i < |A| && NonVoid(s, A[i].cube * cof) ==> IsShape(A[i].cube * cof, B)
  {
    hide NonVoid;
    B := [];
    var i := 0;
    while i < |A|
      invariant 0 <= i <= |A|
      invariant forall k :: 0 <= k < |B| ==> NonVoid(s, B[k].cube) && CutOf(A, cof, B[k].cube)
      invariant forall k :: 0 <= k < i && NonVoid(s, A[k].cube * cof) ==> IsShape(A[k].cube * cof, B)
    {
      var p := A[i].(cube := A[i].cube * cof);
      if NonVoid(s, p.cube) {
        CutGrows(A, cof, i, B, p);
        B := B + [p.(active := true)];
      }
      i := i + 1;
    }
  }

  ghost predicate CutOf(A: Cover, cof: Cube, c: Cube) {
    exists i :: 0 <= i < |A| && c == A[i].cube * cof
  }

  lemma CutGrows(A: Cover, cof: Cube, i: nat, B: Cover, p: FCube)
    requires i < |A| && p.cube == A[i].cube * cof
    ensures CutOf(A, cof, p.cube)
    ensures forall c :: IsShape(c, B) || c == p.cube ==> IsShape(c, B + [p.(active := true)])
  {
    var N := B + [p.(active := true)];
    forall c | IsShape(c, B) || c == p.cube
      ensures IsShape(c, N)
    {
      if IsShape(c, B) {
        var j :| 0 <= j < |B| && B[j].cube == c;
        assert N[j].cube == c;
      } else {
        assert N[|B|].cube == c;
      }
    }
  }

  lemma WithinWider(c: Cube, b: Cube, B: Cover)
    requires c <= b && Within(b, B)
    ensures Within(c, B)
  {
    var j :| 0 <= j < |B| && b <= B[j].cube;
    assert c <= B[j].cube;
  }

  lemma WithinAppend(c: Cube, A: Cover, B: Cover)
    ensures Within(c, A) || Within(c, B) ==> Within(c, A + B)
  {
    if j :| 0 <= j < |A| && c <= A[j].cube {
      assert c <= (A + B)[j].cube;
    }
    if j :| 0 <= j < |B| && c <= B[j].cube {
      assert c <= (A + B)[|A| + j].cube;
    }
  }

  /** The cubes to merge: sound, and those of the two sides disjoint in v. */
  ghost predicate Sides(s: Space, T: CubeList, v: nat, cl: Cube, cr: Cube, L: Cover, R: Cover)
    requires v < |s.sizes|
  {
    && AllSound(s, T, L) && AllSound(s, T, R)
    && (forall i :: 0 <= i < |L| ==> NonVoid(s, L[i].cube) && L[i].cube <= cl)
    && (forall j :: 0 <= j < |R| ==> NonVoid(s, R[j].cube) && R[j].cube <= cr)
  }

  /** The consensus of a cube from each side clashes in the split variable only. */
  lemma ConsensusSound(s: Space, T: CubeList, v: nat, cl: Cube, cr: Cube, a: Cube, b: Cube)
    requires v < |s.sizes| && SplitOf(s, T.cof, v, cl, cr) && a <= cl && b <= cr
    requires Sound(s, T, true, a) && Sound(s, T, true, b) && Distance(s, a, b) == 1
    ensures Sound(s, T, true, Consensus(s, a, b))
  {
    hide Covers, Sound, Consensus;
    SplitClash(s, T.cof, v, cl, cr, a, b);
    forall u | u in Clashes(s, a, b)
      ensures u == v
    {
      SingletonCard(Clashes(s, a, b), u, v);
    }
    forall m | Outside(s, T.cof, m) && In(m, Consensus(s, a, b))
      ensures Covers(T.items, m)
    {
      OutsideLength(s, T.cof, m);
      ConsensusHolds(s, v, a, b, m);
      SoundCovers(s, T, a, m);
      SoundCovers(s, T, b, m);
    }
    CoversSound(s, T, Consensus(s, a, b));
  }

  lemma SoundCovers(s: Space, T: CubeList, c: Cube, m: Minterm)
    requires Sound(s, T, true, c) && Outside(s, T.cof, m)
    ensures In(m, c) ==> Covers(T.items, m)
  {
    hide Covers;
  }

  lemma CoversSound(s: Space, T: CubeList, c: Cube)
    requires forall m :: Outside(s, T.cof, m) && In(m, c) ==> Covers(T.items, m)
    ensures Sound(s, T, true, c)
  {
    hide Covers;
  }

  lemma SplitClash(s: Space, cof: Cube, v: nat, cl: Cube, cr: Cube, a: Cube, b: Cube)
    requires v < |s.sizes| && SplitOf(s, cof, v, cl, cr) && a <= cl && b <= cr
    ensures v in Clashes(s, a, b)
  {
    forall p | p in a * b && p in Mask(s, v)
      ensures false
    {
    }
  }

  lemma ConsensusHolds(s: Space, v: nat, a: Cube, b: Cube, m: Minterm)
    requires v < |s.sizes| && IsMinterm(s, m) && In(m, Consensus(s, a, b))
    requires forall u :: u in Clashes(s, a, b) ==> u == v
    ensures In(m, a) || In(m, b)
  {
    forall u | 0 <= u < |m| && u != v
      ensures Part(u, m[u]) in a && Part(u, m[u]) in b
    {
      assert Part(u, m[u]) in Consensus(s, a, b);
    }
    assert Part(v, m[v]) in Consensus(s, a, b);
  }

  /** What the merge has so far: sound cubes inside room, no void one. */
  ghost predicate Collected(s: Space, T: CubeList, room: Cube, P: Cover) {
    && Valid(s, P) && AllSound(s, T, P) && AllNonVoid(s, P) && forall i :: 0 <= i < |P| ==> P[i].cube <= room
  }

  lemma CollectedUnion(s: Space, T: CubeList, room: Cube, A: Cover, B: Cover, R: Cover)
    requires Collected(s, T, room, A) && Collected(s, T, room, B) && forall i :: 0 <= i < |R| ==> R[i] in A || R[i] in B
    ensures Collected(s, T, room, R)
  {
    hide Full, NonVoid, Sound;
    forall i | 0 <= i < |R|
      ensures R[i].cube <= Full(s) && Sound(s, T, true, R[i].cube) && NonVoid(s, R[i].cube) && R[i].cube <= room
    {
      if R[i] in A {
        var j :| 0 <= j < |A| && A[j] == R[i];
      } else {
        var j :| 0 <= j < |B| && B[j] == R[i];
      }
    }
  }

  lemma CollectedSome(s: Space, T: CubeList, room: Cube, A: Cover, R: Cover)
    requires Collected(s, T, room, A) && forall i :: 0 <= i < |R| ==> R[i] in A
    ensures Collected(s, T, room, R)
  {
    CollectedUnion(s, T, room, A, A, R);
  }

  lemma NothingCollected(s: Space, T: CubeList, room: Cube)
    ensures Collected(s, T, room, [])
  {
  }

  lemma CollectedSnoc(s: Space, T: CubeList, room: Cube, P: Cover, c: Cube)
    requires Collected(s, T, room, P) && c <= Full(s) && Sound(s, T, true, c) && NonVoid(s, c) && c <= room
    ensures Collected(s, T, room, P + [Plain(c)])
  {
    hide Full, NonVoid, Sound;
  }

  /** The consensus of cubes that are not void is not void. */
  lemma ConsensusNonVoid(s: Space, a: Cube, b: Cube)
    requires NonVoid(s, a) && a <= Full(s) && b <= Full(s)
    ensures NonVoid(s, Consensus(s, a, b)) && Consensus(s, a, b) <= Full(s)
  {
    hide Full;
    forall u | 0 <= u < |s.sizes|
      ensures Consensus(s, a, b) * Mask(s, u) != {}
    {
      if u in Clashes(s, a, b) {
        assert a * Mask(s, u) != {};
        var p := Member(a * Mask(s, u));
        assert p in Consensus(s, a, b) * Mask(s, u);
      } else {
        var p := Member(a * b * Mask(s, u));
        assert p in Consensus(s, a, b) * Mask(s, u);
      }
    }
  }

  /** The consensus of the i-th cube of the left and the j-th of the right, where
      they are at distance one, lies in the result. */
  ghost predicate Paired(s: Space, L: Cover, R: Cover, i: nat, j: nat, P: Cover)
    requires i < |L| && j < |R|
  {
    Distance(s, L[i].cube, R[j].cube) == 1 ==> Within(Consensus(s, L[i].cube, R[j].cube), P)
  }

  /** All pairs before row i, and those of row i before j. */
  ghost predicate PairedTo(s: Space, L: Cover, R: Cover, i: nat, j: nat, P: Cover) {
    && (forall a, b :: 0 <= a < i && a < |L| && 0 <= b < |R| ==> Paired(s, L, R, a, b, P))
    && (i < |L| ==> forall b :: 0 <= b < j && b < |R| ==> Paired(s, L, R, i, b, P))
  }

  lemma PairedGrows(s: Space, L: Cover, R: Cover, i: nat, j: nat, P: Cover, Q: Cover)
    requires PairedTo(s, L, R, i, j, P) && Inside(P, Q)
    ensures PairedTo(s, L, R, i, j, Q)
  {
    hide Distance, Consensus;
    forall a, b | 0 <= a < |L| && 0 <= b < |R| && Paired(s, L, R, a, b, P)
      ensures Paired(s, L, R, a, b, Q)
    {
      PairGrows(s, L, R, a, b, P, Q);
    }
  }

  lemma PairGrows(s: Space, L: Cover, R: Cover, a: nat, b: nat, P: Cover, Q: Cover)
    requires a < |L| && b < |R| && Paired(s, L, R, a, b, P) && Inside(P, Q)
    ensures Paired(s, L, R, a, b, Q)
  {
    hide Distance, Consensus, Within, Inside;
    if Within(Consensus(s, L[a].cube, R[b].cube), P) {
      WithinTrans(Consensus(s, L[a].cube, R[b].cube), P, Q);
    }
  }

  /** The consensus of all pairs, collected in batches of at most 500. */
  method AllConsensus(s: Space, ghost T: CubeList, v: nat, cl: Cube, cr: Cube, L: Cover, R: Cover, start: Cover)
      returns (P: Cover)
    requires v < |s.sizes| && SplitOf(s, T.cof, v, cl, cr)
    requires Sides(s, T, v, cl, cr, L, R) && Valid(s, L) && Valid(s, R)
    requires Collected(s, T, cl + cr, start) && Union.Ordered(start)
    ensures Collected(s, T, cl + cr, P) && Union.Ordered(P) && Inside(start, P)
    ensures PairedTo(s, L, R, |L|, 0, P)
  {
    hide Full, Valid, Collected, Union.Ordered, Sides, SplitOf, PairedTo, Inside, Distance, Consensus;
    P := start;
    InsideSelf(P);
    var batch := [];
    NothingCollected(s, T, cl + cr);
    NothingPaired(s, L, R, P + batch);
    InsideFront(start, P, batch);
    var i := 0;
    while i < |L|
      invariant 0 <= i <= |L|
      invariant Collected(s, T, cl + cr, P) && Union.Ordered(P) && Collected(s, T, cl + cr, batch)
      invariant PairedTo(s, L, R, i, 0, P + batch) && Inside(start, P + batch)
    {
      var j := 0;
      while j < |R|
        invariant 0 <= j <= |R|
        invariant Collected(s, T, cl + cr, P) && Union.Ordered(P) && Collected(s, T, cl + cr, batch)
        invariant PairedTo(s, L, R, i, j, P + batch) && Inside(start, P + batch)
      {
        ghost var before := P + batch;
        if Distance(s, L[i].cube, R[j].cube) == 1 {
          var c := Consensus(s, L[i].cube, R[j].cube);
          NewConsensus(s, T, v, cl, cr, L, R, i, j, batch);
          batch := batch + [Plain(c)];
          PairedNext(s, L, R, i, j, before, P + batch, c);
          InsideSnoc(start, P, before, P + batch);
          if |batch| >= 500 {
            P := Flush(s, T, cl + cr, L, R, i, j + 1, start, P, batch);
            batch := [];
            NothingCollected(s, T, cl + cr);
            assert P + batch == P;
          }
        } else {
          PairedSkip(s, L, R, i, j, before);
        }
        j := j + 1;
      }
      PairedRow(s, L, R, i, P + batch);
      i := i + 1;
    }
    P := Flush(s, T, cl + cr, L, R, i, 0, start, P, batch);
  }

  /** Take a batch into the result. */
  method Flush(s: Space, ghost T: CubeList, ghost room: Cube, ghost L: Cover, ghost R: Cover, ghost i: nat,
      ghost j: nat, ghost start: Cover, P: Cover, batch: Cover) returns (Q: Cover)
    requires Collected(s, T, room, P) && Union.Ordered(P) && Collected(s, T, room, batch)
    requires PairedTo(s, L, R, i, j, P + batch) && Inside(start, P + batch)
    ensures Collected(s, T, room, Q) && Union.Ordered(Q)
    ensures PairedTo(s, L, R, i, j, Q) && Inside(start, Q)
  {
    hide Collected, Union.Ordered, PairedTo, Inside;
    var B := Containment.SfContain(batch);
    ContainOrdered(B);
    CollectedSome(s, T, room, batch, B);
    Q := Union.CoverUnion(P, B);
    CollectedUnion(s, T, room, P, B, Q);
    InsideTrans(batch, B, Q);
    InsideBoth(P, batch, Q);
    PairedGrows(s, L, R, i, j, P + batch, Q);
    InsideTrans(start, P + batch, Q);
  }

  lemma ContainOrdered(G: Cover)
    requires Containment.Antichain(G) && SetOrder.Sorted(SetOrder.Stamped(G))
    ensures Union.Ordered(G)
  {
  }

  lemma OrderedAntichain(G: Cover)
    requires Union.Ordered(G)
    ensures Containment.Antichain(G)
  {
  }

  lemma InsideSelf(P: Cover)
    ensures Inside(P, P)
  {
    forall i | 0 <= i < |P|
      ensures Within(P[i].cube, P)
    {
      assert P[i].cube <= P[i].cube;
    }
  }

  lemma InsideBoth(A: Cover, B: Cover, Q: Cover)
    requires Inside(A, Q) && Inside(B, Q)
    ensures Inside(A + B, Q)
  {
    hide Within;
  }

  lemma InsideFront(A: Cover, P: Cover, batch: Cover)
    requires Inside(A, P)
    ensures Inside(A, P + batch)
  {
    hide Within;
    forall i | 0 <= i < |A|
      ensures Within(A[i].cube, P + batch)
    {
      WithinAppend(A[i].cube, P, batch);
    }
  }

  lemma InsideSnoc(start: Cover, P: Cover, before: Cover, after: Cover)
    requires Inside(start, before) && |before| < |after| && after[..|before|] == before
    ensures Inside(start, after)
  {
    hide Within;
    assert after == before + after[|before|..];
    forall i | 0 <= i < |start|
      ensures Within(start[i].cube, after)
    {
      WithinAppend(start[i].cube, before, after[|before|..]);
    }
  }

  lemma NothingPaired(s: Space, L: Cover, R: Cover, P: Cover)
    ensures PairedTo(s, L, R, 0, 0, P)
  {
    hide Distance, Consensus;
  }

  lemma PairedSkip(s: Space, L: Cover, R: Cover, i: nat, j: nat, P: Cover)
    requires i < |L| && j < |R| && PairedTo(s, L, R, i, j, P) && Distance(s, L[i].cube, R[j].cube) != 1
    ensures PairedTo(s, L, R, i, j + 1, P)
  {
    hide Distance, Consensus;
  }

  lemma PairedRow(s: Space, L: Cover, R: Cover, i: nat, P: Cover)
    requires i < |L| && PairedTo(s, L, R, i, |R|, P)
    ensures PairedTo(s, L, R, i + 1, 0, P)
  {
    hide Distance, Consensus, Paired;
  }

  lemma PairedNext(s: Space, L: Cover, R: Cover, i: nat, j: nat, before: Cover, after: Cover, c: Cube)
    requires i < |L| && j < |R| && PairedTo(s, L, R, i, j, before) && c == Consensus(s, L[i].cube, R[j].cube)
    requires |after| == |before| + 1 && after[..|before|] == before && after[|before|].cube == c
    ensures PairedTo(s, L, R, i, j + 1, after)
  {
    hide Distance, Consensus, Paired, PairedTo, Inside;
    InsideSelf(before);
    InsideFront(before, before, [after[|before|]]);
    assert after == before + [after[|before|]];
    PairedGrows(s, L, R, i, j, before, after);
    assert Within(c, after) by { WithinAt(c, after, |before|); }
    PairedOne(s, L, R, i, j, after);
  }

  lemma PairedOne(s: Space, L: Cover, R: Cover, i: nat, j: nat, P: Cover)
    requires i < |L| && j < |R| && PairedTo(s, L, R, i, j, P) && Within(Consensus(s, L[i].cube, R[j].cube), P)
    ensures PairedTo(s, L, R, i, j + 1, P)
  {
    hide Distance, Consensus, Within;
  }

  lemma ConsensusInRoom(s: Space, a: Cube, b: Cube, cl: Cube, cr: Cube)
    requires a <= cl && b <= cr
    ensures Consensus(s, a, b) <= cl + cr
  {
  }

  lemma NewConsensus(s: Space, T: CubeList, v: nat, cl: Cube, cr: Cube, L: Cover, R: Cover, i: nat, j: nat,
      batch: Cover)
    requires v < |s.sizes| && SplitOf(s, T.cof, v, cl, cr) && Sides(s, T, v, cl, cr, L, R) && Valid(s, L) && Valid(s, R)
    requires i < |L| && j < |R| && Distance(s, L[i].cube, R[j].cube) == 1 && Collected(s, T, cl + cr, batch)
    ensures Collected(s, T, cl + cr, batch + [Plain(Consensus(s, L[i].cube, R[j].cube))])
  {
    hide Full, Valid, Distance, Consensus, NonVoid, Sound, SplitOf, Collected;
    ValidAt(s, L, i);
    ValidAt(s, R, j);
    ConsensusSound(s, T, v, cl, cr, L[i].cube, R[j].cube);
    ConsensusNonVoid(s, L[i].cube, R[j].cube);
    ConsensusInRoom(s, L[i].cube, R[j].cube, cl, cr);
    CollectedSnoc(s, T, cl + cr, batch, Consensus(s, L[i].cube, R[j].cube));
  }

  /** The implicants of one half, cut to its side, are implicants of the list. */
  lemma CutSides(s: Space, T: CubeList, v: nat, c: Cube, H: CubeList, P: Cover, B: Cover)
    requires v < |s.sizes| && HalfOf(s, T, c, v, H) && AllSound(s, H, P) && Valid(s, P)
    requires forall i :: 0 <= i < |B| ==> CutOf(P, c, B[i].cube)
    ensures AllSound(s, T, B) && Valid(s, B) && forall i :: 0 <= i < |B| ==> B[i].cube <= c
  {
    hide Full, Sound, HalfOf;
    forall i | 0 <= i < |B|
      ensures Sound(s, T, true, B[i].cube) && B[i].cube <= Full(s) && B[i].cube <= c
    {
      var k :| 0 <= k < |P| && B[i].cube == P[k].cube * c;
      assert P[k].cube <= Full(s);
      SoundCut(s, T, v, c, H, P[k].cube);
    }
  }

  lemma SoundCut(s: Space, T: CubeList, v: nat, c: Cube, H: CubeList, p: Cube)
    requires v < |s.sizes| && HalfOf(s, T, c, v, H) && Sound(s, H, true, p)
    ensures Sound(s, T, true, p * c)
  {
    hide HalfOf, Covers;
    forall m | Outside(s, T.cof, m) && In(m, p * c)
      ensures Covers(T.items, m)
    {
      SideOutside(s, T, c, v, H, m);
      HalfCovers(s, T, v, c, H, m);
      assert In(m, p);
    }
  }

  /** A prime's share on one side of the split lies in some cube cut to that side. */
  lemma SideHolds(s: Space, T: CubeList, v: nat, c: Cube, H: CubeList, P: Cover, B: Cover, q: Cube) returns (i: nat)
    requires v < |s.sizes| && HalfOf(s, T, c, v, H) && c <= Full(s) && T.cof <= Full(s) && Answers(s, H, P)
    requires q <= Full(s) && Sound(s, T, true, q) && NonVoid(s, q * c - T.cof)
    requires forall i :: 0 <= i < |P| && NonVoid(s, P[i].cube * c) ==> IsShape(P[i].cube * c, B)
    ensures i < |B| && q * c - T.cof <= B[i].cube
  {
    hide Full, NonVoid, Sound, PrimeOn;
    var share := q * c + H.cof;
    HalfCof(s, T, c, v, H);
    assert share - H.cof == q * c - T.cof;
    ShareSound(s, T, v, c, H, q);
    var p := PrimeAbove(s, H, share);
    assert Within(p - H.cof, P);
    var k :| 0 <= k < |P| && p - H.cof <= P[k].cube;
    assert q * c - T.cof <= P[k].cube * c;
    WiderNonVoid(s, q * c - T.cof, P[k].cube * c);
    assert IsShape(P[k].cube * c, B);
    i :| 0 <= i < |B| && B[i].cube == P[k].cube * c;
  }

  lemma ShareSound(s: Space, T: CubeList, v: nat, c: Cube, H: CubeList, q: Cube)
    requires v < |s.sizes| && HalfOf(s, T, c, v, H) && Sound(s, T, true, q)
    ensures Sound(s, H, true, q * c + H.cof)
  {
    hide HalfOf, Covers;
    forall m | Outside(s, H.cof, m) && In(m, q * c + H.cof)
      ensures Covers(H.items, m)
    {
      InOutside(s, H.cof, q * c, m);
      HalfCovers(s, T, v, c, H, m);
      assert In(m, q);
    }
  }

  /** A prime lies on one side of the split, or in a consensus. */
  lemma PrimeMerged(s: Space, T: CubeList, v: nat, cl: Cube, cr: Cube, HL: CubeList, HR: CubeList, Pl: Cover, Pr: Cover,
      L: Cover, R: Cover, P: Cover, c: Cube)
    requires v < |s.sizes| && T.cof <= Full(s) && SplitOf(s, T.cof, v, cl, cr)
    requires HalfOf(s, T, cl, v, HL) && HalfOf(s, T, cr, v, HR) && Answers(s, HL, Pl) && Answers(s, HR, Pr)
    requires forall i :: 0 <= i < |Pl| && NonVoid(s, Pl[i].cube * cl) ==> IsShape(Pl[i].cube * cl, L)
    requires forall i :: 0 <= i < |Pr| && NonVoid(s, Pr[i].cube * cr) ==> IsShape(Pr[i].cube * cr, R)
    requires Inside(L, P) && Inside(R, P) && PairedTo(s, L, R, |L|, 0, P)
    requires forall i :: 0 <= i < |L| ==> L[i].cube <= cl
    requires forall j :: 0 <= j < |R| ==> R[j].cube <= cr
    requires PrimeOn(s, T, c)
    ensures Within(c - T.cof, P)
  {
    hide Full, NonVoid, Sound, Answers, HalfOf, SplitOf, Inside, PairedTo, Distance, Consensus;
    SplitFull(s, T.cof, v, cl, cr);
    var live := c - T.cof;
    if live <= cl {
      assert c * cl - T.cof == live;
      var i := SideHolds(s, T, v, cl, HL, Pl, L, c);
      InsideAt(live, L, P, i);
    } else if live <= cr {
      assert c * cr - T.cof == live;
      var j := SideHolds(s, T, v, cr, HR, Pr, R, c);
      InsideAt(live, R, P, j);
    } else {
      BothSides(s, T.cof, v, cl, cr, c);
      var i := SideHolds(s, T, v, cl, HL, Pl, L, c);
      var j := SideHolds(s, T, v, cr, HR, Pr, R, c);
      ConsensusOf(s, T.cof, v, cl, cr, c, L[i].cube, R[j].cube);
      PairAt(s, L, R, i, j, P);
      WithinWider(live, Consensus(s, L[i].cube, R[j].cube), P);
    }
  }

  lemma InsideAt(c: Cube, L: Cover, P: Cover, i: nat)
    requires Inside(L, P) && i < |L| && c <= L[i].cube
    ensures Within(c, P)
  {
    hide Within;
    assert Within(L[i].cube, P);
    WithinWider(c, L[i].cube, P);
  }

  lemma PairAt(s: Space, L: Cover, R: Cover, i: nat, j: nat, P: Cover)
    requires PairedTo(s, L, R, |L|, 0, P) && i < |L| && j < |R| && Distance(s, L[i].cube, R[j].cube) == 1
    ensures Within(Consensus(s, L[i].cube, R[j].cube), P)
  {
    hide Distance, Consensus, Within;
    assert Paired(s, L, R, i, j, P);
  }

  /** With live parts of the variable on both sides, both shares are not void. */
  lemma BothSides(s: Space, cof: Cube, v: nat, cl: Cube, cr: Cube, c: Cube)
    requires v < |s.sizes| && SplitOf(s, cof, v, cl, cr) && c <= Full(s) && NonVoid(s, c - cof)
    requires !(c - cof <= cl) && !(c - cof <= cr)
    ensures NonVoid(s, c * cl - cof) && NonVoid(s, c * cr - cof)
  {
    var notL :| notL in c - cof && notL !in cl;
    var notR :| notR in c - cof && notR !in cr;
    ShareNonVoid(s, cof, v, cl, cr, c, notR);
    SplitSym(s, cof, v, cl, cr);
    ShareNonVoid(s, cof, v, cr, cl, c, notL);
  }

  lemma ShareNonVoid(s: Space, cof: Cube, v: nat, cl: Cube, cr: Cube, c: Cube, p: Part)
    requires v < |s.sizes| && SplitOf(s, cof, v, cl, cr) && c <= Full(s) && NonVoid(s, c - cof)
    requires p in c - cof && p !in cr
    ensures NonVoid(s, c * cl - cof)
  {
    assert p in Full(s);
    assert p.v == v && p in Mask(s, v) && p in cl;
    forall u | 0 <= u < |s.sizes|
      ensures (c * cl - cof) * Mask(s, u) != {}
    {
      if u == v {
        assert p in (c * cl - cof) * Mask(s, u);
      } else {
        assert (c - cof) * Mask(s, u) != {};
        var q := Member((c - cof) * Mask(s, u));
        assert q in (c * cl - cof) * Mask(s, u);
      }
    }
  }

  /** Cubes that hold the shares of c have a consensus that holds c. */
  lemma ConsensusOf(s: Space, cof: Cube, v: nat, cl: Cube, cr: Cube, c: Cube, a: Cube, b: Cube)
    requires v < |s.sizes| && SplitOf(s, cof, v, cl, cr) && c <= Full(s) && NonVoid(s, c - cof)
    requires a <= cl && b <= cr && c * cl - cof <= a && c * cr - cof <= b
    ensures Distance(s, a, b) == 1 && c - cof <= Consensus(s, a, b)
  {
    hide Consensus;
    SplitClash(s, cof, v, cl, cr, a, b);
    forall u | u in Clashes(s, a, b)
      ensures u == v
    {
      if u != v {
        SharedElsewhere(s, cof, v, cl, cr, c, a, b, u);
      }
    }
    assert Clashes(s, a, b) == {v};
    forall p | p in c - cof
      ensures p in Consensus(s, a, b)
    {
      assert p in Full(s);
      assert p.v == v ==> p in Mask(s, v);
      assert p in cl || p in cr;
    }
  }

  lemma SharedElsewhere(s: Space, cof: Cube, v: nat, cl: Cube, cr: Cube, c: Cube, a: Cube, b: Cube, u: nat)
    requires v < |s.sizes| && SplitOf(s, cof, v, cl, cr) && c <= Full(s) && NonVoid(s, c - cof)
    requires c * cl - cof <= a && c * cr - cof <= b && u < |s.sizes| && u != v
    ensures a * b * Mask(s, u) != {}
  {
    assert (c - cof) * Mask(s, u) != {};
    var p := Member((c - cof) * Mask(s, u));
    assert p in Full(s) && p in cl && p in cr;
    assert p in a * b * Mask(s, u);
  }

  /** Merge the primes of both halves. */
  method PrimesConsensusMerge(s: Space, ghost T: CubeList, v: nat, cl: Cube, cr: Cube, Pl: Cover, Pr: Cover,
      ghost HL: CubeList, ghost HR: CubeList) returns (P: Cover)
    requires v < |s.sizes| && InSpace(s, T) && SplitOf(s, T.cof, v, cl, cr)
    requires HalfOf(s, T, cl, v, HL) && HalfOf(s, T, cr, v, HR) && Answers(s, HL, Pl) && Answers(s, HR, Pr)
    ensures Answers(s, T, P) && AllNonVoid(s, P) && Containment.Antichain(P) && InRoom(P, cl + cr)
    ensures forall i, j :: 0 <= i < |Pl| && 0 <= j < |Pr| ==>
      PairKept(s, Pl[i].cube * cl, Pr[j].cube * cr, P)
  {
    hide Full, NonVoid, PrimeOn, AllSound, SplitOf, HalfOf, InSpace, Valid, Collected, Containment.Antichain, Sides,
      PairedTo, Inside, Within, CutOf, IsShape, AllNonVoid, PairKept, InRoom;
    var L := AndWithCofactor(s, Pl, cl);
    var R := AndWithCofactor(s, Pr, cr);
    CutSides(s, T, v, cl, HL, Pl, L);
    CutSides(s, T, v, cr, HR, Pr, R);
    SidesNow(s, T, v, cl, cr, L, R);
    var start := Containment.SfContain(L + R);
    CollectedSides(s, T, cl, cr, L, R, start);
    ContainOrdered(start);
    P := AllConsensus(s, T, v, cl, cr, L, R, start);
    OrderedAntichain(P);
    JoinInside(L, R, start, P);
    CollectedParts(s, T, cl, cr, P);
    CofInSpace(s, T);
    forall c | PrimeOn(s, T, c)
      ensures Within(c - T.cof, P)
    {
      PrimeMerged(s, T, v, cl, cr, HL, HR, Pl, Pr, L, R, P, c);
    }
    forall i, j | 0 <= i < |Pl| && 0 <= j < |Pr|
      ensures PairKept(s, Pl[i].cube * cl, Pr[j].cube * cr, P)
    {
      KeptPair(s, Pl[i].cube * cl, Pr[j].cube * cr, L, R, P);
    }
  }

  /** The consensus of the two cubes lies in the result. */
  ghost predicate PairKept(s: Space, a: Cube, b: Cube, P: Cover) {
    NonVoid(s, a) && NonVoid(s, b) && Distance(s, a, b) == 1 ==> Within(Consensus(s, a, b), P)
  }

  lemma KeptPair(s: Space, a: Cube, b: Cube, L: Cover, R: Cover, P: Cover)
    requires PairedTo(s, L, R, |L|, 0, P)
    requires (NonVoid(s, a) ==> IsShape(a, L)) && (NonVoid(s, b) ==> IsShape(b, R))
    ensures PairKept(s, a, b, P)
  {
    hide NonVoid, Distance, Consensus, PairedTo, Within;
    if NonVoid(s, a) && NonVoid(s, b) && Distance(s, a, b) == 1 {
      var i :| 0 <= i < |L| && L[i].cube == a;
      var j :| 0 <= j < |R| && R[j].cube == b;
      PairAt(s, L, R, i, j, P);
    }
  }

  lemma CofInSpace(s: Space, T: CubeList)
    requires InSpace(s, T)
    ensures T.cof <= Full(s)
  {
  }

  lemma SidesNow(s: Space, T: CubeList, v: nat, cl: Cube, cr: Cube, L: Cover, R: Cover)
    requires v < |s.sizes| && AllSound(s, T, L) && AllSound(s, T, R)
    requires forall i :: 0 <= i < |L| ==> NonVoid(s, L[i].cube) && L[i].cube <= cl
    requires forall j :: 0 <= j < |R| ==> NonVoid(s, R[j].cube) && R[j].cube <= cr
    ensures Sides(s, T, v, cl, cr, L, R) && AllNonVoid(s, L) && AllNonVoid(s, R)
  {
    hide NonVoid, Sound;
  }

  lemma CollectedSides(s: Space, T: CubeList, cl: Cube, cr: Cube, L: Cover, R: Cover, start: Cover)
    requires Valid(s, L) && Valid(s, R) && AllSound(s, T, L) && AllSound(s, T, R) && AllNonVoid(s, L)
    requires AllNonVoid(s, R)
    requires forall i :: 0 <= i < |start| ==> start[i] in L + R
    requires (forall i :: 0 <= i < |L| ==> L[i].cube <= cl) && forall j :: 0 <= j < |R| ==> R[j].cube <= cr
    ensures Collected(s, T, cl + cr, start)
  {
    hide Valid, AllSound, AllNonVoid;
    assert Collected(s, T, cl + cr, L) && Collected(s, T, cl + cr, R);
    CollectedUnion(s, T, cl + cr, L, R, start);
  }

  lemma CollectedParts(s: Space, T: CubeList, cl: Cube, cr: Cube, P: Cover)
    requires Collected(s, T, cl + cr, P)
    ensures Valid(s, P) && AllSound(s, T, P) && AllNonVoid(s, P) && InRoom(P, cl + cr)
  {
  }

  /** No cube has a part outside room. */
  ghost predicate InRoom(P: Cover, room: Cube) {
    forall i :: 0 <= i < |P| ==> P[i].cube <= room
  }

  lemma JoinInside(L: Cover, R: Cover, start: Cover, P: Cover)
    requires Inside(L + R, start) && Inside(start, P)
    ensures Inside(L, P) && Inside(R, P)
  {
    hide Within;
    InsideTrans(L + R, start, P);
    forall i | 0 <= i < |L|
      ensures Within(L[i].cube, P)
    {
      assert (L + R)[i] == L[i];
    }
    forall j | 0 <= j < |R|
      ensures Within(R[j].cube, P)
    {
      assert (L + R)[|L| + j] == R[j];
    }
  }

  // ---- idle variables

  /** The minterm, with values that are not cofactored away in the idle variables. */
  lemma ClearedSound(s: Space, T: CubeList, q: Cube)
    requires Sound(s, Cleared(s, T), true, q)
    ensures Sound(s, T, true, q)
  {
    hide Full, Idle, FreedItem;
    var U := Cleared(s, T);
    FreedMembers(s, Idle(s, T), T);
    forall m | Outside(s, T.cof, m) && In(m, q)
      ensures Covers(T.items, m)
    {
      assert Outside(s, U.cof, m);
      var u :| u in U.items && In(m, u.cube);
      var it :| it in T.items && u == FreedItem(s, Idle(s, T), it);
      FreedSame(s, Idle(s, T), T, it);
      forall v | 0 <= v < |m|
        ensures Part(v, m[v]) in it.cube
      {
        assert Part(v, m[v]) in it.cube + T.cof;
      }
    }
  }

  /** A prime of the list, with all parts of the idle variables, is an implicant of
      the cleared list. */
  lemma FreedSound(s: Space, T: CubeList, c: Cube)
    requires c <= Full(s) && NonVoid(s, c - T.cof) && Sound(s, T, true, c)
    ensures Sound(s, Cleared(s, T), true, c + Masks(s, Idle(s, T)))
  {
    hide Full, Idle, NonVoid;
    var vs := Idle(s, T);
    var U := Cleared(s, T);
    FreedMembers(s, vs, T);
    var m0 := LiveMinterm(s, T.cof, c);
    forall m | Outside(s, U.cof, m) && In(m, c + Masks(s, vs))
      ensures Covers(U.items, m)
    {
      var m' := Mix(m, m0, vs);
      assert Outside(s, T.cof, m') && In(m', c);
      var it :| it in T.items && In(m', it.cube);
      assert FreedItem(s, vs, it) in U.items;
      forall v | 0 <= v < |m|
        ensures Part(v, m[v]) in FreedItem(s, vs, it).cube
      {
        if v in vs {
          assert Part(v, m[v]) in Full(s) - U.cof;
        } else {
          assert Part(v, m'[v]) in it.cube;
        }
      }
    }
  }

  /** The answer for the cleared list is one for the list itself. */
  lemma ClearedAnswers(s: Space, T: CubeList, P: Cover)
    requires InSpace(s, T) && Answers(s, Cleared(s, T), P)
    ensures Answers(s, T, P)
  {
    hide Full, NonVoid, Sound, Idle, Freed, Cleared, Masks, PrimeOn;
    var U, vs := Cleared(s, T), Idle(s, T);
    forall i | 0 <= i < |P|
      ensures Sound(s, T, true, P[i].cube)
    {
      ClearedSound(s, T, P[i].cube);
    }
    forall c | PrimeOn(s, T, c)
      ensures Within(c - T.cof, P)
    {
      var q := ClearedPrime(s, T, c);
      WithinWider(c - T.cof, q - U.cof, P);
    }
  }

  lemma ClearedPrime(s: Space, T: CubeList, c: Cube) returns (q: Cube)
    requires InSpace(s, T) && PrimeOn(s, T, c)
    ensures PrimeOn(s, Cleared(s, T), q) && c - T.cof <= q - Cleared(s, T).cof
  {
    hide Full, NonVoid, Sound, Idle;
    var U, vs := Cleared(s, T), Idle(s, T);
    var wide := c + Masks(s, vs);
    FreedSound(s, T, c);
    WiderNonVoid(s, c - T.cof, wide - U.cof);
    q := PrimeAbove(s, U, wide);
  }

  // ---- the recursion

  /** No cube covers the list by itself, two parts of some variable are active, and
      so is another variable: the list is split. */
  ghost predicate Divided(s: Space, T: CubeList) {
    NoFullRow(s, T) && !UnateMap.UnateList(s, T) && NumActive(s, T, |s.sizes|) != 1
  }

  /** The split of a variable with most active parts, the first half of its live parts
      to the left. */
  ghost predicate Chosen(s: Space, T: CubeList, v: nat, cl: Cube, cr: Cube) {
    && v < |s.sizes| && SplitOf(s, T.cof, v, cl, cr)
    && (forall u :: 0 <= u < |s.sizes| ==> |ActiveParts(s, T, u)| <= |ActiveParts(s, T, v)|)
    && |cl * Mask(s, v)| == |LiveParts(s, T.cof, v, s.sizes[v])| / 2
    && (forall p, q :: p in cl * Mask(s, v) && q in cr * Mask(s, v) ==> p.k < q.k)
  }

  /** The cube lies on the one side of the split only. */
  ghost predicate OneSide(s: Space, v: nat, c: Cube, here: Cube, there: Cube)
    requires v < |s.sizes|
  {
    c * (Mask(s, v) * here) != {} && c * (Mask(s, v) * there) == {}
  }

  /** The cube as the only one of its half, cut to its side of the split. */
  ghost function SidePrime(s: Space, cof: Cube, side: Cube, c: Cube): Cube {
    (cof + (Full(s) - side) + c) * side
  }

  /** When the split divides a list of two cubes, the consensus of their sides is in
      the result. */
  ghost predicate Crossed(s: Space, T: CubeList, v: nat, cl: Cube, cr: Cube, A: Cover)
    requires v < |s.sizes|
  {
    |T.items| == 2 && OneSide(s, v, T.items[0].cube, cl, cr) && OneSide(s, v, T.items[1].cube, cr, cl) ==>
      PairKept(s, SidePrime(s, T.cof, cl, T.items[0].cube), SidePrime(s, T.cof, cr, T.items[1].cube), A)
  }

  /** What a split leaves: no part that is cofactored away in the variable split. */
  ghost predicate SplitCrossed(s: Space, T: CubeList, A: Cover) {
    exists v, cl, cr :: Chosen(s, T, v, cl, cr) && InRoom(A, cl + cr) && Crossed(s, T, v, cl, cr, A)
  }

  /** The result for a list without empty columns.  None of its cubes lies in another;
      they are cubes of the list if that is unate, and not void otherwise. */
  ghost predicate Uncut(s: Space, T: CubeList, A: Cover) {
    && Answers(s, Cleared(s, T), A) && Containment.Antichain(A)
    && (UnateMap.UnateList(s, T) ==> MostOf(CubeUnlist(T), A))
    && (!UnateMap.UnateList(s, T) ==> AllNonVoid(s, A))
    && (!UnateMap.UnateList(s, T) && !Divided(s, T) ==> A == Whole(s))
    && (Divided(s, T) ==> SplitCrossed(s, T, A))
  }

  /** A has some cubes of U, and every other one lies in one of them. */
  ghost predicate MostOf(U: Cover, A: Cover) {
    Inside(U, A) && forall i :: 0 <= i < |A| ==> A[i] in U
  }

  /** The result with the empty columns taken out again. */
  ghost predicate CutBelow(s: Space, T: CubeList, P: Cover) {
    exists ceil, A :: CeilOf(T, ceil) && Uncut(s, CeilList(s, T, ceil), A) && P == CutAll(A, ceil)
  }

  /** The primes of the list, and what else the result is known to be. */
  ghost predicate AllPrimes(s: Space, T: CubeList, P: Cover) {
    && Answers(s, Cleared(s, T), P)
    && (T.items == [] ==> P == [])
    && (|T.items| == 1 ==> P == [Plain(T.cof + T.items[0].cube)])
    && (T.items != [] ==> CutBelow(s, T, P))
  }

  lemma OneAntichain(s: Space, c: FCube)
    ensures Containment.Antichain([c]) && (NonVoid(s, c.cube) ==> AllNonVoid(s, [c]))
  {
    hide NonVoid;
  }

  /** Without empty columns the result is not cut. */
  lemma NotCut(s: Space, T: CubeList, ceil: Cube, A: Cover)
    requires CeilOf(T, ceil) && ceil == Full(s) && Uncut(s, T, A)
    ensures CutBelow(s, T, A)
  {
    hide Full, Uncut;
    assert CeilList(s, T, ceil) == T;
    assert Valid(s, A) by { UncutValid(s, T, A); }
    var B := CutAll(A, ceil);
    forall i | 0 <= i < |A|
      ensures B[i] == A[i]
    {
      assert A[i].cube <= Full(s);
      assert A[i].cube * ceil == A[i].cube;
    }
    assert B == A;
  }

  lemma UncutValid(s: Space, T: CubeList, A: Cover)
    requires Uncut(s, T, A)
    ensures Valid(s, A) && Answers(s, Cleared(s, T), A)
  {
    hide Full;
  }

  /** The universe as the result for a list with a full row. */
  lemma FullRowUncut(s: Space, T: CubeList)
    requires InSpace(s, T) && !NoFullRow(s, T)
    ensures Uncut(s, T, Whole(s))
  {
    hide Full, NonVoid, Idle, Freed, UnateMap.UnateList, NoFullRow, MostOf;
    FullNonVoid(s);
    OneAntichain(s, Plain(Full(s)));
    FreedFullRow(s, Idle(s, T), T);
    FullRowAll(s, Cleared(s, T));
    UniversePrime(s, Cleared(s, T));
    FullRowMost(s, T);
  }

  lemma FullRowMost(s: Space, T: CubeList)
    requires InSpace(s, T) && !NoFullRow(s, T)
    ensures MostOf(CubeUnlist(T), Whole(s))
  {
    hide Full;
    var it :| it in T.items && FullRow(s, it.cube, T.cof);
    var i :| 0 <= i < |T.items| && T.items[i] == it;
    assert it.cube + T.cof == Full(s);
    assert CubeUnlist(T)[i] == Plain(Full(s));
    forall k | 0 <= k < |T.items|
      ensures Within(CubeUnlist(T)[k].cube, Whole(s))
    {
      assert T.items[k] in T.items;
      assert CubeUnlist(T)[k].cube <= Whole(s)[0].cube;
    }
  }

  /** The universe as the result for a list with one active variable. */
  lemma SingleUncut(s: Space, T: CubeList, ceil: Cube)
    requires InSpace(s, T) && CeilOf(T, ceil) && ceil == Full(s) && T.items != [] && NoFullRow(s, T)
    requires NumActive(s, T, |s.sizes|) == 1
    ensures Uncut(s, T, Whole(s))
  {
    hide Full, NonVoid, Idle, UnateMap.UnateList, Freed, ActiveParts, NoFullRow;
    FullNonVoid(s);
    OneAntichain(s, Plain(Full(s)));
    var vs := Idle(s, T);
    FreedCeil(s, vs, T, ceil);
    FreedNumActive(s, vs, T, |s.sizes|);
    SingleActive(s, Cleared(s, T), ceil);
    UniversePrime(s, Cleared(s, T));
    SingleNotUnate(s, T, ceil);
  }

  lemma {:induction false} FreedNumActive(s: Space, vs: set<nat>, T: CubeList, n: nat)
    requires vs <= Idle(s, T) && n <= |s.sizes|
    ensures NumActive(s, Freed(s, vs, T), n) == NumActive(s, T, n)
  {
    hide Idle, Freed, ActiveParts;
    if n > 0 {
      FreedNumActive(s, vs, T, n - 1);
      FreedActive(s, vs, T, n - 1);
    }
  }

  /** With a single active part, the cubes that have it are full rows. */
  lemma SingleNotUnate(s: Space, T: CubeList, ceil: Cube)
    requires CeilOf(T, ceil) && ceil == Full(s) && T.items != [] && NoFullRow(s, T)
    requires NumActive(s, T, |s.sizes|) == 1
    ensures !UnateMap.UnateList(s, T)
  {
    hide Full, ActiveParts;
    var u := TheActive(s, T);
    if UnateMap.UnateList(s, T) {
      var it := SomeHasActive(s, T, ceil, u);
      forall p | p in Full(s)
        ensures p in it.cube + T.cof
      {
        if p !in it.cube + T.cof {
          MissingActive(s, T, it, p);
        }
      }
    }
  }

  lemma MissingActive(s: Space, T: CubeList, it: Item, p: Part)
    requires it in T.items && p in Full(s) && p !in it.cube + T.cof
    ensures p in ActiveParts(s, T, p.v)
  {
  }

  lemma SomeHasActive(s: Space, T: CubeList, ceil: Cube, u: nat) returns (it: Item)
    requires CeilOf(T, ceil) && ceil == Full(s) && T.items != [] && u < |s.sizes| && |ActiveParts(s, T, u)| <= 1
    ensures it in T.items && forall p :: p in ActiveParts(s, T, u) ==> p in it.cube
  {
    if p :| p in ActiveParts(s, T, u) {
      assert p in Full(s);
      it :| it in T.items && p in it.cube;
      forall q | q in ActiveParts(s, T, u)
        ensures q == p
      {
        SingletonCard(ActiveParts(s, T, u), q, p);
      }
    } else {
      it := T.items[0];
      assert it in T.items;
    }
  }

  /** The maximal cubes as the result for a unate list. */
  lemma UnateUncut(s: Space, T: CubeList, P: Cover)
    requires InSpace(s, T) && UnateMap.UnateList(s, T) && Containment.Antichain(P) && MostOf(CubeUnlist(T), P)
    ensures Uncut(s, T, P)
  {
    hide Full, NonVoid, Idle, Freed, Inside, Containment.Antichain, ActiveParts;
    var vs := Idle(s, T);
    forall v | 0 <= v < |s.sizes|
      ensures |ActiveParts(s, Freed(s, vs, T), v)| <= 1
    {
      FreedActive(s, vs, T, v);
    }
    FreedUnlist(s, vs, T);
    FreedInSpace(s, vs, T);
    UnatePrimes(s, Cleared(s, T), P);
  }

  /** The result for a list of one cube. */
  lemma OneUncut(s: Space, T: CubeList)
    requires InSpace(s, T) && |T.items| == 1
    ensures AllPrimes(s, T, [Plain(T.cof + T.items[0].cube)])
  {
    hide Full, NonVoid, Idle, Freed, FreedItem, Answers, Uncut;
    var vs, c := Idle(s, T), T.cof + T.items[0].cube;
    var P := [Plain(c)];
    FreedInSpace(s, vs, T);
    assert T.items[0] in T.items;
    FreedSame(s, vs, T, T.items[0]);
    OnePrime(s, Freed(s, vs, T));
    assert Freed(s, vs, T).cof + Freed(s, vs, T).items[0].cube == c;
    OneCeil(s, T, c);
    FullRowUncut(s, CeilList(s, T, c));
    assert CutAll(Whole(s), c)[0] == P[0] by {
      assert Full(s) * c == c;
    }
    assert CutAll(Whole(s), c) == P;
  }

  lemma OneCeil(s: Space, T: CubeList, c: Cube)
    requires InSpace(s, T) && |T.items| == 1 && c == T.cof + T.items[0].cube
    ensures CeilOf(T, c) && c <= Full(s) && InSpace(s, CeilList(s, T, c)) && !NoFullRow(s, CeilList(s, T, c))
  {
    hide Full;
    assert T.items[0] in T.items;
    assert T.items == [T.items[0]];
    assert FullRow(s, T.items[0].cube, CeilList(s, T, c).cof);
  }

  /** The result below the ceiling, cut to it. */
  lemma CeilUncut(s: Space, T: CubeList, ceil: Cube, A: Cover)
    requires InSpace(s, T) && |T.items| > 1 && CeilOf(T, ceil) && ceil <= Full(s)
    requires Uncut(s, CeilList(s, T, ceil), A)
    ensures AllPrimes(s, T, CutAll(A, ceil))
  {
    hide InSpace, Full, Idle, Freed, Answers, CeilOf, ActiveParts, CeilList, CutAll, FreedItem;
    var vs, T' := Idle(s, T), CeilList(s, T, ceil);
    var U := Freed(s, vs, T);
    FreedInSpace(s, vs, T);
    FreedCeil(s, vs, T, ceil);
    FreedCeilList(s, vs, T, ceil);
    CeilInSpace(s, U, ceil);
    ClearedFreed(s, vs, T');
    assert Answers(s, Cleared(s, CeilList(s, U, ceil)), A) by { UncutValid(s, T', A); }
    ClearedAnswers(s, CeilList(s, U, ceil), A);
    CeilPrimes(s, U, ceil, A);
    assert CutBelow(s, T, CutAll(A, ceil)) by { CutNow(s, T, ceil, A); }
  }

  lemma CutNow(s: Space, T: CubeList, ceil: Cube, A: Cover)
    requires CeilOf(T, ceil) && Uncut(s, CeilList(s, T, ceil), A)
    ensures CutBelow(s, T, CutAll(A, ceil))
  {
    hide Uncut, CeilOf, CeilList, CutAll;
  }

  lemma CeilInSpace(s: Space, T: CubeList, ceil: Cube)
    requires InSpace(s, T)
    ensures InSpace(s, CeilList(s, T, ceil))
  {
    hide Full;
  }

  /** Below the ceiling no column is empty, so the result is not cut again. */
  lemma BelowUncut(s: Space, T: CubeList, ceil: Cube, A: Cover)
    requires InSpace(s, T) && |T.items| > 1 && CeilOf(T, ceil) && AllPrimes(s, CeilList(s, T, ceil), A)
    requires Valid(s, A)
    ensures Uncut(s, CeilList(s, T, ceil), A)
  {
    hide Full, Uncut, Cleared, Answers;
    var T' := CeilList(s, T, ceil);
    var top: Cube, B: Cover :| CeilOf(T', top) && Uncut(s, CeilList(s, T', top), B) && A == CutAll(B, top);
    assert top == Full(s) by { TopFull(s, T, ceil, top); }
    assert CeilList(s, T', top) == T';
    UncutValid(s, CeilList(s, T', top), B);
    forall i | 0 <= i < |A|
      ensures A[i] == B[i]
    {
      assert B[i].cube <= Full(s);
      assert B[i].cube * top == B[i].cube;
    }
    assert A == B;
  }

  lemma TopFull(s: Space, T: CubeList, ceil: Cube, top: Cube)
    requires InSpace(s, T) && CeilOf(T, ceil) && CeilOf(CeilList(s, T, ceil), top)
    ensures top == Full(s)
  {
    hide Full;
    forall p | p in top
      ensures p in Full(s)
    {
      if it :| it in T.items && p in it.cube {
      }
    }
    forall p | p in Full(s)
      ensures p in top
    {
      if p in ceil && p !in T.cof {
        var it :| it in T.items && p in it.cube;
      }
    }
  }

  lemma NothingPrime(s: Space, T: CubeList)
    requires T.items == []
    ensures AllPrimes(s, T, [])
  {
    hide Full, Idle, Answers;
    NoPrimes(s, Cleared(s, T));
  }

  /** A list without empty columns, and more than one cube. */
  lemma UncutPrimes(s: Space, T: CubeList, ceil: Cube, A: Cover)
    requires |T.items| > 1 && CeilOf(T, ceil) && ceil == Full(s) && Uncut(s, T, A)
    ensures AllPrimes(s, T, A)
  {
    hide Full, Cleared, Answers, CutBelow, Uncut, CeilOf;
    NotCut(s, T, ceil, A);
    UncutValid(s, T, A);
  }

  /** The cases in which the primes are known without splitting. */
  method PrimesSpecialCases(s: Space, T: CubeList) returns (known: bool, P: Cover, d: CData)
    requires InSpace(s, T)
    ensures known ==> AllPrimes(s, T, P)
    ensures !known ==> |T.items| > 1 && CeilOf(T, Full(s)) && Divided(s, T)
    ensures !known ==> CountsOf(s, T, d) && d.varsUnate != d.varsActive
    decreases |Full(s) - T.cof|, 1
  {
    hide InSpace, Full, FullRow, CountsOf, ActiveParts, Mask, NonVoid, Containment.Antichain, NoFullRow, Uncut, CeilOf,
      AllPrimes, UnateMap.UnateList, Inside;
    known, P, d := true, [], CData(map[], [], 0, 0, 0);
    if T.items == [] {
      NothingPrime(s, T);
      return;
    }
    if |T.items| == 1 {
      OneUncut(s, T);
      P := [Plain(T.cof + T.items[0].cube)];
      return;
    }
    var full := HasFullRow(s, T);
    var ceil := Ceiling(T);
    assert CeilOf(T, ceil) by { CeilNow(T, ceil); }
    if full {
      FullRowUncut(s, T);
      FullRowCeil(s, T, ceil);
      UncutPrimes(s, T, ceil, Whole(s));
      return known, Whole(s), d;
    }
    if ceil != Full(s) {
      CeilSmaller(s, T, ceil);
      P := PrimesConsensus(s, CeilList(s, T, ceil));
      BelowUncut(s, T, ceil, P);
      CeilUncut(s, T, ceil, P);
      P := CutAll(P, ceil);
      return;
    }
    d := MassiveCount(s, T);
    ActiveCount(s, T, d);
    if d.varsActive == 1 {
      SingleUncut(s, T, ceil);
      UncutPrimes(s, T, ceil, Whole(s));
      return known, Whole(s), d;
    }
    if d.varsUnate == d.varsActive {
      AllUnate(s, T, d);
      P := Containment.SfContain(CubeUnlist(T));
      UnateUncut(s, T, P);
      UncutPrimes(s, T, ceil, P);
      return;
    }
    known := false;
    NotAllUnate(s, T);
  }

  lemma CeilNow(T: CubeList, ceil: Cube)
    requires forall p :: p in ceil <==> p in T.cof || exists it :: it in T.items && p in it.cube
    ensures CeilOf(T, ceil)
  {
  }

  lemma FullRowCeil(s: Space, T: CubeList, ceil: Cube)
    requires InSpace(s, T) && CeilOf(T, ceil) && !NoFullRow(s, T)
    ensures ceil == Full(s)
  {
    hide Full;
    var it :| it in T.items && FullRow(s, it.cube, T.cof);
  }

  lemma NotAllUnate(s: Space, T: CubeList)
    requires NumUnate(s, T, |s.sizes|) != NumActive(s, T, |s.sizes|)
    ensures !UnateMap.UnateList(s, T)
  {
    hide ActiveParts;
    NumFacts(s, T, |s.sizes|);
  }

  /** All primes of a cube list by consensus. */
  method PrimesConsensus(s: Space, T: CubeList) returns (P: Cover)
    requires InSpace(s, T)
    ensures Answers(s, T, P) && AllPrimes(s, T, P)
    decreases |Full(s) - T.cof|, 2
  {
    hide InSpace, Answers, Full, CountsOf, Uncut, Cleared, CutBelow, CeilOf;
    var known, d;
    known, P, d := PrimesSpecialCases(s, T);
    if !known {
      P := PrimesSplit(s, T, d);
      UncutPrimes(s, T, Full(s), P);
    }
    ClearedAnswers(s, T, P);
  }

  method PrimesSplit(s: Space, T: CubeList, d: CData) returns (P: Cover)
    requires InSpace(s, T) && CountsOf(s, T, d) && d.varsUnate != d.varsActive && Divided(s, T)
    ensures Uncut(s, T, P)
    decreases |Full(s) - T.cof|, 1
  {
    hide InSpace, Answers, Full, CountsOf, HasActivePair, HalfOf, SplitOf, NonVoid, Containment.Antichain, Idle, Freed,
      AllNonVoid, ActiveParts, AllPrimes, LiveParts, Mask, Filter, PairKept, Divided, Chosen, CubeUnlist, Uncut, InRoom;
    BestHasTwo(s, T, d);
    var cl, cr, L, R := Halves(s, T, d);
    var Tl := PrimesConsensus(s, L);
    var Tr := PrimesConsensus(s, R);
    ghost var U, vs := Cleared(s, T), Idle(s, T);
    var v := d.best;
    BestActive(s, T, d);
    FreedSide(s, T, v, cl, cr, L, Tl);
    SplitSym(s, T.cof, v, cl, cr);
    FreedSide(s, T, v, cr, cl, R, Tr);
    FreedInSpace(s, vs, T);
    P := PrimesConsensusMerge(s, U, v, cl, cr, Tl, Tr, Freed(s, vs, L), Freed(s, vs, R));
    ChosenNow(s, T, d, cl, cr);
    CrossedNow(s, T, v, cl, cr, L, R, Tl, Tr, P);
    DividedUncut(s, T, v, cl, cr, P);
  }

  lemma BestActive(s: Space, T: CubeList, d: CData)
    requires HasActivePair(s, T, d)
    ensures 0 <= d.best < |s.sizes| && d.best !in Idle(s, T)
  {
    hide ActiveParts;
  }

  lemma FreedSide(s: Space, T: CubeList, v: nat, c: Cube, other: Cube, H: CubeList, P: Cover)
    requires v < |s.sizes| && v !in Idle(s, T) && SplitOf(s, T.cof, v, c, other) && HalfOf(s, T, c, v, H)
    requires InSpace(s, H) && AllPrimes(s, H, P)
    ensures SplitOf(s, Cleared(s, T).cof, v, c, other)
    ensures HalfOf(s, Cleared(s, T), c, v, Freed(s, Idle(s, T), H)) && Answers(s, Freed(s, Idle(s, T), H), P)
  {
    hide Idle, Freed, InSpace, Answers, SplitOf, HalfOf, CutBelow;
    var vs := Idle(s, T);
    FreedHalf(s, vs, T, v, c, other, H);
    ClearedFreed(s, vs, H);
    FreedInSpace(s, vs, H);
    ClearedAnswers(s, Freed(s, vs, H), P);
  }

  lemma ChosenNow(s: Space, T: CubeList, d: CData, cl: Cube, cr: Cube)
    requires CountsOf(s, T, d) && 0 <= d.best < |s.sizes| && SplitOf(s, T.cof, d.best, cl, cr)
    requires |cl * Mask(s, d.best)| == |LiveParts(s, T.cof, d.best, s.sizes[d.best])| / 2
    requires forall p, q :: p in cl * Mask(s, d.best) && q in cr * Mask(s, d.best) ==> p.k < q.k
    ensures Chosen(s, T, d.best, cl, cr)
  {
    hide ActiveParts, SplitOf, LiveParts, ZeroSum, Zeros, Full;
    forall u | 0 <= u < |s.sizes|
      ensures |ActiveParts(s, T, u)| <= |ActiveParts(s, T, d.best)|
    {
      assert VarCountOf(s, T, u, d.vars[u]) && VarCountOf(s, T, d.best, d.vars[d.best]);
    }
  }

  lemma CrossedNow(s: Space, T: CubeList, v: nat, cl: Cube, cr: Cube, L: CubeList, R: CubeList, Tl: Cover, Tr: Cover,
      P: Cover)
    requires v < |s.sizes| && HalfOf(s, T, cl, v, L) && HalfOf(s, T, cr, v, R)
    requires L.items == Filter(T.items, Touches(Mask(s, v) * cl))
    requires R.items == Filter(T.items, Touches(Mask(s, v) * cr))
    requires AllPrimes(s, L, Tl) && AllPrimes(s, R, Tr)
    requires forall i, j :: 0 <= i < |Tl| && 0 <= j < |Tr| ==> PairKept(s, Tl[i].cube * cl, Tr[j].cube * cr, P)
    ensures Crossed(s, T, v, cl, cr, P)
  {
    hide Full, Mask, Filter, Answers, Cleared, CutBelow, PairKept;
    if |T.items| == 2 && OneSide(s, v, T.items[0].cube, cl, cr) && OneSide(s, v, T.items[1].cube, cr, cl) {
      TwoFiltered(T.items, Touches(Mask(s, v) * cl));
      TwoFiltered(T.items, Touches(Mask(s, v) * cr));
      assert L.items == [T.items[0]] && R.items == [T.items[1]];
      assert PairKept(s, Tl[0].cube * cl, Tr[0].cube * cr, P);
    }
  }

  lemma TwoFiltered(items: seq<Item>, keep: Item -> bool)
    requires |items| == 2
    ensures keep(items[0]) && !keep(items[1]) ==> Filter(items, keep) == [items[0]]
    ensures !keep(items[0]) && keep(items[1]) ==> Filter(items, keep) == [items[1]]
  {
    assert items[..1][..0] == [];
    assert items[..2][..1] == items[..1];
    FilterStep(items, keep, 0);
    FilterStep(items, keep, 1);
    assert items[..2] == items && items[..0] == [];
  }

  lemma DividedUncut(s: Space, T: CubeList, v: nat, cl: Cube, cr: Cube, A: Cover)
    requires Answers(s, Cleared(s, T), A) && Containment.Antichain(A) && AllNonVoid(s, A) && Divided(s, T)
    requires Chosen(s, T, v, cl, cr) && InRoom(A, cl + cr) && Crossed(s, T, v, cl, cr, A)
    ensures Uncut(s, T, A)
  {
    hide Answers, Cleared, Containment.Antichain, AllNonVoid, Chosen, Crossed, MostOf, InRoom;
  }
}
