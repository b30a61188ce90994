/** When the cubes generated by consensus are exactly the primes. */
module PrimesExact {
  import opened Cubes
  import opened Counting
  import opened CubeLists
  import opened Splitting
  import opened Rows
  import opened Families
  import opened Merging
  import opened Complement
  import opened Inactive
  import opened Primes
  import Containment
  import UnateMap

  /** The cubes of P are the primes of the list, each once. */
  ghost predicate ExactlyPrimes(s: Space, T: CubeList, P: Cover) {
    && (forall c :: PrimeOn(s, T, c) <==> IsShape(c, P))
    && (forall i, j :: 0 <= i < j < |P| ==> P[i].cube != P[j].cube)
  }

  /** The parts that some cube has. */
  ghost function CeilCube(s: Space, T: CubeList): (c: Cube)
    ensures forall p :: p in c <==> p in Full(s) && (p in T.cof || exists it :: it in T.items && p in it.cube)
  {
    set p | p in Full(s) && (p in T.cof || exists it :: it in T.items && p in it.cube)
  }

  /** The list without its empty columns. */
  ghost function Below(s: Space, T: CubeList): CubeList {
    CeilList(s, T, CeilCube(s, T))
  }

  /** All cubes agree in the variable. */
  ghost predicate AgreeIn(s: Space, T: CubeList, v: nat)
    requires v < |s.sizes|
  {
    forall a, b :: a in T.items && b in T.items ==> a.cube * Mask(s, v) == b.cube * Mask(s, v)
  }

  /** The variable has more active parts than any other. */
  ghost predicate Foremost(s: Space, T: CubeList, v: nat) {
    v < |s.sizes| && forall u :: 0 <= u < |s.sizes| && u != v ==> |ActiveParts(s, T, u)| < |ActiveParts(s, T, v)|
  }

  /** A part that no cube has is of a variable in which all cubes agree, or of the one
      that is split first. */
  ghost predicate Agreeing(s: Space, T: CubeList) {
    forall p :: p in Full(s) && p !in CeilCube(s, T) ==> AgreeIn(s, T, p.v) || Foremost(s, Below(s, T), p.v)
  }

  /** Every cube lies in one that is not void. */
  ghost predicate Held(s: Space, T: CubeList) {
    forall a :: a in T.items ==> exists b :: b in T.items && a.cube <= b.cube && NonVoid(s, b.cube)
  }

  /** The variables in which all cubes are empty. */
  ghost function EmptyVars(s: Space, T: CubeList): (vs: set<nat>)
    ensures forall v: nat :: v in vs <==> v < |s.sizes| && CeilCube(s, T) * Mask(s, v) == {}
  {
    set v: nat | v < |s.sizes| && CeilCube(s, T) * Mask(s, v) == {}
  }

  /** A unate cover has its void cubes inside others, and if all cubes of a cover are
      empty in a common variable, each of them is empty in another one too. */
  ghost predicate VoidsVanish(s: Space, T: CubeList) {
    && (UnateMap.UnateList(s, Below(s, T)) ==> Held(s, T))
    && (EmptyVars(s, T) != {} ==> forall it :: it in T.items ==> !NonVoid(s, it.cube + Masks(s, EmptyVars(s, T))))
  }

  // ---- from the answer to the primes

  /** Every prime of a cover is among the cubes. */
  lemma EveryPrime(s: Space, T: CubeList, P: Cover, c: Cube)
    requires T.cof == {} && Answers(s, T, P) && PrimeOn(s, T, c)
    ensures IsShape(c, P)
  {
    hide PrimeOn, NonVoid, Full, Sound;
    assert Within(c - T.cof, P);
    var i :| 0 <= i < |P| && c - T.cof <= P[i].cube;
    PrimeInside(s, T, c, P[i].cube);
    assert P[i].cube - T.cof == P[i].cube && c - T.cof == c;
  }

  /** Implicants that are not void and lie in no other are primes. */
  lemma ExactFrom(s: Space, T: CubeList, P: Cover)
    requires T.cof == {} && Answers(s, T, P) && AllNonVoid(s, P) && Containment.Antichain(P)
    ensures ExactlyPrimes(s, T, P)
  {
    hide PrimeOn, NonVoid, Full, Sound, Answers;
    forall c | PrimeOn(s, T, c)
      ensures IsShape(c, P)
    {
      EveryPrime(s, T, P, c);
    }
    forall i | 0 <= i < |P|
      ensures PrimeOn(s, T, P[i].cube)
    {
      OnlyPrimes(s, T, P, i);
    }
  }

  lemma OnlyPrimes(s: Space, T: CubeList, P: Cover, i: nat)
    requires T.cof == {} && Answers(s, T, P) && AllNonVoid(s, P) && Containment.Antichain(P) && i < |P|
    ensures PrimeOn(s, T, P[i].cube)
  {
    hide PrimeOn, NonVoid, Full, Sound;
    var c := P[i].cube;
    assert c - T.cof == c;
    var q := PrimeAbove(s, T, c);
    assert Within(q - T.cof, P);
    var j :| 0 <= j < |P| && q - T.cof <= P[j].cube;
    assert q - T.cof == q;
    assert i == j;
    assert q == c;
  }

  lemma ExactNonVoid(s: Space, T: CubeList, P: Cover)
    requires T.cof == {} && ExactlyPrimes(s, T, P)
    ensures AllNonVoid(s, P)
  {
    hide NonVoid, Full, Sound;
    forall i | 0 <= i < |P|
      ensures NonVoid(s, P[i].cube)
    {
      assert IsShape(P[i].cube, P);
      assert PrimeOn(s, T, P[i].cube);
      assert P[i].cube - T.cof == P[i].cube;
    }
  }

  // ---- the ceiling

  lemma CeilFacts(s: Space, T: CubeList)
    requires InSpace(s, T)
    ensures CeilOf(T, CeilCube(s, T)) && CeilCube(s, T) <= Full(s) && InSpace(s, Below(s, T))
    ensures forall ceil :: CeilOf(T, ceil) ==> ceil == CeilCube(s, T)
  {
    hide Full;
    forall p | p in T.cof || exists it :: it in T.items && p in it.cube
      ensures p in Full(s)
    {
      if p !in T.cof {
        var it :| it in T.items && p in it.cube;
      }
    }
    forall ceil | CeilOf(T, ceil)
      ensures ceil == CeilCube(s, T)
    {
    }
  }

  lemma ItemBelow(s: Space, T: CubeList, it: Item)
    requires InSpace(s, T) && it in T.items
    ensures it.cube <= CeilCube(s, T)
  {
    hide Full;
  }

  lemma CeilVoid(s: Space, T: CubeList)
    ensures EmptyVars(s, T) == {} <==> NonVoid(s, CeilCube(s, T))
  {
    hide Mask, CeilCube;
    if EmptyVars(s, T) == {} {
      forall v: nat | v < |s.sizes|
        ensures CeilCube(s, T) * Mask(s, v) != {}
      {
        assert v !in EmptyVars(s, T);
      }
    }
  }

  /** Below a void ceiling nothing is a prime. */
  lemma NoPrimeVoid(s: Space, T: CubeList, P: Cover)
    requires InSpace(s, T) && T.cof == {} && EmptyVars(s, T) != {}
    ensures ExactlyPrimes(s, T, P) <==> P == []
  {
    hide NonVoid, Full, Sound, CeilOf;
    forall c | PrimeOn(s, T, c)
      ensures false
    {
      CeilFacts(s, T);
      PrimeBelowCeil(s, T, CeilCube(s, T), c);
      assert c - T.cof == c;
      WiderNonVoid(s, c, CeilCube(s, T));
      CeilVoid(s, T);
    }
    if P != [] {
      assert IsShape(P[0].cube, P);
      assert !PrimeOn(s, T, P[0].cube);
    }
  }

  // ---- a unate cover

  /** The cubes cut to the ceiling are cubes of the cover again. */
  lemma CutItem(s: Space, T: CubeList, A: Cover, i: nat) returns (k: nat)
    requires InSpace(s, T) && T.cof == {} && i < |A| && A[i] in CubeUnlist(Below(s, T))
    ensures k < |T.items| && A[i].cube * CeilCube(s, T) == T.items[k].cube
    ensures A[i].cube == T.items[k].cube + (Full(s) - CeilCube(s, T))
  {
    hide Full;
    var U := CubeUnlist(Below(s, T));
    k :| 0 <= k < |U| && U[k] == A[i];
    ItemBelow(s, T, T.items[k]);
    assert Below(s, T).cof == Full(s) - CeilCube(s, T);
  }

  lemma CutAntichain(s: Space, T: CubeList, A: Cover)
    requires InSpace(s, T) && T.cof == {} && Containment.Antichain(A) && MostOf(CubeUnlist(Below(s, T)), A)
    ensures Containment.Antichain(CutAll(A, CeilCube(s, T)))
  {
    hide Full, Inside, Below, CeilCube, CubeUnlist;
    var P := CutAll(A, CeilCube(s, T));
    forall i, j | 0 <= i < |A| && 0 <= j < |A| && P[i].cube <= P[j].cube
      ensures A[i].cube <= A[j].cube
    {
      MostAt(CubeUnlist(Below(s, T)), A, i);
      MostAt(CubeUnlist(Below(s, T)), A, j);
      var k := CutItem(s, T, A, i);
      var l := CutItem(s, T, A, j);
    }
  }

  lemma CutHolds(s: Space, T: CubeList, A: Cover, it: Item) returns (i: nat)
    requires InSpace(s, T) && T.cof == {} && MostOf(CubeUnlist(Below(s, T)), A) && it in T.items
    ensures i < |A| && it.cube <= CutAll(A, CeilCube(s, T))[i].cube
  {
    hide Full, CeilCube;
    var U := CubeUnlist(Below(s, T));
    var k :| 0 <= k < |T.items| && T.items[k] == it;
    assert Within(U[k].cube, A);
    i :| 0 <= i < |A| && U[k].cube <= A[i].cube;
    ItemBelow(s, T, it);
  }

  lemma UnateExact(s: Space, T: CubeList, A: Cover)
    requires InSpace(s, T) && T.cof == {} && Containment.Antichain(A) && MostOf(CubeUnlist(Below(s, T)), A)
    requires Answers(s, T, CutAll(A, CeilCube(s, T)))
    ensures ExactlyPrimes(s, T, CutAll(A, CeilCube(s, T))) <==> Held(s, T)
  {
    hide Full, NonVoid, MostOf, Below, CeilCube, Answers, ExactlyPrimes, Containment.Antichain;
    var P := CutAll(A, CeilCube(s, T));
    CutAntichain(s, T, A);
    if Held(s, T) {
      HeldNonVoid(s, T, A);
      ExactFrom(s, T, P);
    }
    if ExactlyPrimes(s, T, P) {
      ExactNonVoid(s, T, P);
      forall a | a in T.items
        ensures exists b :: b in T.items && a.cube <= b.cube && NonVoid(s, b.cube)
      {
        var i := CutHolds(s, T, A, a);
        assert A[i] in CubeUnlist(Below(s, T)) by { MostAt(CubeUnlist(Below(s, T)), A, i); }
        var k := CutItem(s, T, A, i);
        assert T.items[k] in T.items && P[i].cube == T.items[k].cube;
      }
    }
  }

  lemma MostAt(U: Cover, A: Cover, i: nat)
    requires MostOf(U, A) && i < |A|
    ensures A[i] in U
  {
  }

  lemma HeldNonVoid(s: Space, T: CubeList, A: Cover)
    requires InSpace(s, T) && T.cof == {} && MostOf(CubeUnlist(Below(s, T)), A) && Held(s, T)
    requires Containment.Antichain(CutAll(A, CeilCube(s, T)))
    ensures AllNonVoid(s, CutAll(A, CeilCube(s, T)))
  {
    hide Full, NonVoid, MostOf, Below, CeilCube, CubeUnlist;
    var P := CutAll(A, CeilCube(s, T));
    forall i | 0 <= i < |P|
      ensures NonVoid(s, P[i].cube)
    {
      HeldAt(s, T, A, i);
    }
  }

  lemma HeldAt(s: Space, T: CubeList, A: Cover, i: nat)
    requires InSpace(s, T) && T.cof == {} && MostOf(CubeUnlist(Below(s, T)), A) && Held(s, T) && i < |A|
    requires Containment.Antichain(CutAll(A, CeilCube(s, T)))
    ensures NonVoid(s, CutAll(A, CeilCube(s, T))[i].cube)
  {
    hide Full, NonVoid, MostOf, Below, CeilCube, CubeUnlist, Held, CutAll;
    var P := CutAll(A, CeilCube(s, T));
    MostAt(CubeUnlist(Below(s, T)), A, i);
    var k := CutItem(s, T, A, i);
    var b := Holder(s, T, T.items[k]);
    var j := CutHolds(s, T, A, b);
    assert P[i].cube <= P[j].cube;
    assert i == j;
    assert P[i].cube == b.cube;
  }

  lemma Holder(s: Space, T: CubeList, a: Item) returns (b: Item)
    requires Held(s, T) && a in T.items
    ensures b in T.items && a.cube <= b.cube && NonVoid(s, b.cube)
  {
    hide NonVoid;
    b :| b in T.items && a.cube <= b.cube && NonVoid(s, b.cube);
  }

  // ---- a cover with a single prime

  lemma SingleExact(s: Space, T: CubeList)
    requires InSpace(s, T) && T.cof == {} && Answers(s, T, CutAll(Whole(s), CeilCube(s, T))) && T.items != []
    requires !UnateMap.UnateList(s, Below(s, T)) && !Divided(s, Below(s, T))
    ensures ExactlyPrimes(s, T, CutAll(Whole(s), CeilCube(s, T))) <==> VoidsVanish(s, T)
  {
    hide Full, NonVoid, Below, CeilCube, Answers, ExactlyPrimes, EmptyVars, Divided, UnateMap.UnateList;
    var ceil := CeilCube(s, T);
    var P := CutAll(Whole(s), ceil);
    CeilFacts(s, T);
    CeilVoid(s, T);
    assert P[0].cube == ceil;
    OneAntichain(s, P[0]);
    assert P == [P[0]];
    if EmptyVars(s, T) == {} {
      ExactFrom(s, T, P);
    } else {
      NoPrimeVoid(s, T, P);
      var it := WidestItem(s, T);
    }
  }

  /** Some cube is empty only where all are. */
  lemma WidestItem(s: Space, T: CubeList) returns (it: Item)
    requires InSpace(s, T) && T.cof == {} && T.items != []
    requires !UnateMap.UnateList(s, Below(s, T)) && !Divided(s, Below(s, T))
    ensures it in T.items && NonVoid(s, it.cube + Masks(s, EmptyVars(s, T)))
  {
    hide Full, UnateMap.UnateList, NonVoid, EmptyVars, Below, ActiveParts, NoFullRow, CeilCube;
    if NoFullRow(s, Below(s, T)) {
      it := WidestSingle(s, T);
    } else {
      it := WidestRow(s, T);
    }
    WideEnough(s, T, it);
  }

  lemma WidestRow(s: Space, T: CubeList) returns (it: Item)
    requires T.cof == {} && !NoFullRow(s, Below(s, T))
    ensures it in T.items
    ensures forall v: nat :: v < |s.sizes| && CeilCube(s, T) * Mask(s, v) != {} ==> it.cube * Mask(s, v) != {}
  {
    hide Full, CeilCube;
    var T' := Below(s, T);
    it :| it in T'.items && FullRow(s, it.cube, T'.cof);
    forall v: nat | v < |s.sizes| && CeilCube(s, T) * Mask(s, v) != {}
      ensures it.cube * Mask(s, v) != {}
    {
      var p := Member(CeilCube(s, T) * Mask(s, v));
      assert p in it.cube * Mask(s, v);
    }
  }

  lemma WidestSingle(s: Space, T: CubeList) returns (it: Item)
    requires T.cof == {} && T.items != [] && NumActive(s, Below(s, T), |s.sizes|) == 1
    ensures it in T.items
    ensures forall v: nat :: v < |s.sizes| && CeilCube(s, T) * Mask(s, v) != {} ==> it.cube * Mask(s, v) != {}
  {
    hide Full, CeilCube, ActiveParts, Below;
    var u := TheActive(s, Below(s, T));
    it := T.items[0];
    assert it in T.items;
    if CeilCube(s, T) * Mask(s, u) != {} {
      var p := Member(CeilCube(s, T) * Mask(s, u));
      it := HasPart(s, T, p);
      assert p in it.cube * Mask(s, u);
    }
    forall v: nat | v < |s.sizes| && CeilCube(s, T) * Mask(s, v) != {}
      ensures it.cube * Mask(s, v) != {}
    {
      if v != u {
        IdleHolds(s, T, it, v);
        var q := Member(CeilCube(s, T) * Mask(s, v));
        assert q in it.cube * Mask(s, v);
      }
    }
  }

  lemma HasPart(s: Space, T: CubeList, p: Part) returns (it: Item)
    requires T.cof == {} && p in CeilCube(s, T)
    ensures it in T.items && p in it.cube
  {
    it :| it in T.items && p in it.cube;
  }

  lemma IdleHolds(s: Space, T: CubeList, it: Item, v: nat)
    requires it in T.items && v < |s.sizes| && ActiveParts(s, Below(s, T), v) == {}
    ensures CeilCube(s, T) * Mask(s, v) <= it.cube + T.cof
  {
    hide Full;
    forall p | p in CeilCube(s, T) * Mask(s, v)
      ensures p in it.cube + T.cof
    {
      assert p !in ActiveParts(s, Below(s, T), v);
      assert p in Full(s) && p !in Full(s) - CeilCube(s, T);
    }
  }

  lemma WideEnough(s: Space, T: CubeList, it: Item)
    requires forall v: nat :: v < |s.sizes| && CeilCube(s, T) * Mask(s, v) != {} ==> it.cube * Mask(s, v) != {}
    ensures NonVoid(s, it.cube + Masks(s, EmptyVars(s, T)))
  {
    hide CeilCube;
    forall v | 0 <= v < |s.sizes|
      ensures (it.cube + Masks(s, EmptyVars(s, T))) * Mask(s, v) != {}
    {
      if CeilCube(s, T) * Mask(s, v) != {} {
        var p := Member(it.cube * Mask(s, v));
        assert p in (it.cube + Masks(s, EmptyVars(s, T))) * Mask(s, v);
      } else {
        var p := Part(v, 0);
        assert p in Full(s) && v in EmptyVars(s, T);
        assert p in (it.cube + Masks(s, EmptyVars(s, T))) * Mask(s, v);
      }
    }
  }

  // ---- a cover that is split

  lemma AgreeIdle(s: Space, T: CubeList, v: nat)
    requires T.cof == {} && v < |s.sizes| && AgreeIn(s, T, v)
    ensures v in Idle(s, Below(s, T))
  {
    hide Full;
    forall q, b | q in Mask(s, v) && q in CeilCube(s, T) && b in T.items
      ensures q in b.cube
    {
      var a :| a in T.items && q in a.cube;
      assert q in a.cube * Mask(s, v);
    }
    assert forall q :: q in Mask(s, v) ==> q in Full(s);
  }

  /** No cube has a part that is still cofactored away once the idle variables are
      freed. */
  ghost predicate Clean(s: Space, T: CubeList, A: Cover) {
    forall i :: 0 <= i < |A| ==> A[i].cube !! Cleared(s, Below(s, T)).cof
  }

  /** The split takes the missing parts out of its own variable, and in the others the
      cubes agree. */
  lemma AgreeingClean(s: Space, T: CubeList, A: Cover)
    requires InSpace(s, T) && T.cof == {} && Agreeing(s, T) && SplitCrossed(s, Below(s, T), A)
    ensures Clean(s, T, A)
  {
    hide Full, CeilCube, ActiveParts, LiveParts, AgreeIn, Crossed, Cleared, Below, Agreeing, SplitOf, InRoom;
    var v, cl, cr :| Chosen(s, Below(s, T), v, cl, cr) && InRoom(A, cl + cr) && Crossed(s, Below(s, T), v, cl, cr, A);
    assert InRoom(A, cl + cr);
    forall i | 0 <= i < |A|
      ensures A[i].cube !! Cleared(s, Below(s, T)).cof
    {
      assert A[i].cube <= cl + cr by { RoomAt(A, cl + cr, i); }
      forall p | p in A[i].cube
        ensures p !in Cleared(s, Below(s, T)).cof
      {
        if p in Cleared(s, Below(s, T)).cof {
          StillMissing(s, T, v, cl, cr, p);
        }
      }
    }
  }

  lemma RoomAt(A: Cover, room: Cube, i: nat)
    requires InRoom(A, room) && i < |A|
    ensures A[i].cube <= room
  {
  }

  /** A missing part of an active variable is one of the variable split. */
  lemma StillMissing(s: Space, T: CubeList, v: nat, cl: Cube, cr: Cube, p: Part)
    requires InSpace(s, T) && T.cof == {} && Agreeing(s, T) && Chosen(s, Below(s, T), v, cl, cr)
    requires p in Cleared(s, Below(s, T)).cof
    ensures p !in cl + cr
  {
    hide Full, CeilCube, ActiveParts, LiveParts, AgreeIn, Idle;
    var T' := Below(s, T);
    assert p in T'.cof && p !in Masks(s, Idle(s, T'));
    assert p in Full(s) && p !in CeilCube(s, T) && p.v < |s.sizes|;
    if AgreeIn(s, T, p.v) {
      AgreeIdle(s, T, p.v);
    } else {
      assert Foremost(s, T', p.v);
      assert p.v == v;
    }
  }

  /** A prime of the freed list holds everything in the idle variables. */
  lemma PrimeWide(s: Space, T: CubeList, c: Cube)
    requires InSpace(s, T) && PrimeOn(s, Cleared(s, T), c)
    ensures Masks(s, Idle(s, T)) <= c
  {
    hide Full, NonVoid, Sound, Idle;
    var vs := Idle(s, T);
    FreedIdle(s, vs, T);
    ClearedFreed(s, vs, T);
    FreedSound(s, Cleared(s, T), c);
    assert !(c < c + Masks(s, vs));
  }

  /** So does a maximal cube without parts that are cofactored away. */
  lemma CleanWide(s: Space, T: CubeList, A: Cover, i: nat)
    requires InSpace(s, T) && Answers(s, Cleared(s, T), A) && AllNonVoid(s, A) && Containment.Antichain(A)
    requires i < |A| && A[i].cube !! Cleared(s, T).cof
    ensures Masks(s, Idle(s, T)) <= A[i].cube <= Full(s)
  {
    hide Full, NonVoid, Sound, Idle, PrimeOn, Freed;
    var U, c := Cleared(s, T), A[i].cube;
    FreedInSpace(s, Idle(s, T), T);
    SoundWithCof(s, U, c);
    assert c + U.cof - U.cof == c;
    var q := PrimeAbove(s, U, c + U.cof);
    assert Within(q - U.cof, A);
    var j :| 0 <= j < |A| && q - U.cof <= A[j].cube;
    assert i == j;
    PrimeWide(s, T, q);
    FreedApart(s, T);
  }

  lemma FreedApart(s: Space, T: CubeList)
    ensures Masks(s, Idle(s, T)) !! Cleared(s, T).cof
  {
    hide Idle, Masks;
  }

  lemma PrimesCut(s: Space, T: CubeList, A: Cover)
    requires InSpace(s, T) && T.cof == {} && EmptyVars(s, T) == {} && Clean(s, T, A)
    requires Answers(s, Cleared(s, Below(s, T)), A) && AllNonVoid(s, A) && Containment.Antichain(A)
    ensures AllNonVoid(s, CutAll(A, CeilCube(s, T))) && Containment.Antichain(CutAll(A, CeilCube(s, T)))
  {
    hide Full, NonVoid, CeilCube, Idle, Cleared, Below, EmptyVars, Answers;
    CeilFacts(s, T);
    CeilVoid(s, T);
    forall i | 0 <= i < |A|
      ensures NonVoid(s, A[i].cube * CeilCube(s, T))
      ensures Masks(s, Idle(s, Below(s, T))) <= A[i].cube <= Full(s)
    {
      CleanWide(s, Below(s, T), A, i);
      CutNonVoid(s, T, A[i].cube);
    }
    CutKeepsOrder(s, T, A);
  }

  /** A missing part is of an idle variable, or still cofactored away. */
  lemma MissingWhere(s: Space, T: CubeList, p: Part)
    requires p in Full(s) && p !in CeilCube(s, T)
    ensures p.v in Idle(s, Below(s, T)) || p in Cleared(s, Below(s, T)).cof
  {
    hide Full, Idle, CeilCube;
  }

  lemma CutKeepsOrder(s: Space, T: CubeList, A: Cover)
    requires Containment.Antichain(A) && Clean(s, T, A)
    requires forall i :: 0 <= i < |A| ==> Masks(s, Idle(s, Below(s, T))) <= A[i].cube <= Full(s)
    ensures Containment.Antichain(CutAll(A, CeilCube(s, T)))
  {
    hide Full, CeilCube, Idle, Cleared, Below;
    var ceil := CeilCube(s, T);
    var P := CutAll(A, ceil);
    forall i, j | 0 <= i < |A| && 0 <= j < |A| && P[i].cube <= P[j].cube
      ensures A[i].cube <= A[j].cube
    {
      forall p | p in A[i].cube
        ensures p in A[j].cube
      {
        if p in ceil {
          assert p in P[i].cube;
        } else {
          MissingWhere(s, T, p);
          assert p !in Cleared(s, Below(s, T)).cof;
          assert p in Masks(s, Idle(s, Below(s, T)));
        }
      }
    }
  }

  lemma CutNonVoid(s: Space, T: CubeList, c: Cube)
    requires NonVoid(s, c) && NonVoid(s, CeilCube(s, T)) && c <= Full(s)
    requires Masks(s, Idle(s, Below(s, T))) <= c && c !! Cleared(s, Below(s, T)).cof
    ensures NonVoid(s, c * CeilCube(s, T))
  {
    hide CeilCube, Idle, Below, Cleared;
    var ceil := CeilCube(s, T);
    forall v | 0 <= v < |s.sizes|
      ensures c * ceil * Mask(s, v) != {}
    {
      if v in Idle(s, Below(s, T)) {
        var q := Member(ceil * Mask(s, v));
        assert q in Masks(s, Idle(s, Below(s, T)));
        assert q in c * ceil * Mask(s, v);
      } else {
        var p := Member(c * Mask(s, v));
        if p !in ceil {
          MissingWhere(s, T, p);
        }
        assert p in c * ceil * Mask(s, v);
      }
    }
  }

  /** Freed, a cube is not void exactly if it is empty only where all are. */
  lemma FreedNonVoid(s: Space, T: CubeList, it: Item)
    requires InSpace(s, T) && T.cof == {} && it in T.items
    ensures NonVoid(s, it.cube + Masks(s, EmptyVars(s, T))) <==>
      NonVoid(s, it.cube + Masks(s, Idle(s, Below(s, T))))
  {
    hide Full, NonVoid, CeilCube, Idle, Below, ActiveParts;
    assert EmptyVars(s, T) <= Idle(s, Below(s, T)) by { EmptyIdle(s, T); }
    if NonVoid(s, it.cube + Masks(s, EmptyVars(s, T))) {
      WiderNonVoid(s, it.cube + Masks(s, EmptyVars(s, T)), it.cube + Masks(s, Idle(s, Below(s, T))));
    }
    if NonVoid(s, it.cube + Masks(s, Idle(s, Below(s, T)))) {
      forall v: nat | v < |s.sizes| && CeilCube(s, T) * Mask(s, v) != {}
        ensures it.cube * Mask(s, v) != {}
      {
        IdleValue(s, T, it, v);
      }
      WideEnough(s, T, it);
    }
  }

  lemma EmptyIdle(s: Space, T: CubeList)
    ensures EmptyVars(s, T) <= Idle(s, Below(s, T))
  {
    hide Full, CeilCube;
    forall v | v in EmptyVars(s, T)
      ensures v in Idle(s, Below(s, T))
    {
      forall p | p in Mask(s, v)
        ensures p in Below(s, T).cof
      {
        assert p !in CeilCube(s, T) * Mask(s, v);
        assert p in Full(s);
      }
    }
  }

  lemma IdleValue(s: Space, T: CubeList, it: Item, v: nat)
    requires it in T.items && v < |s.sizes| && CeilCube(s, T) * Mask(s, v) != {} && T.cof == {}
    requires NonVoid(s, it.cube + Masks(s, Idle(s, Below(s, T))))
    ensures it.cube * Mask(s, v) != {}
  {
    hide Full, CeilCube, ActiveParts, Below;
    if ActiveParts(s, Below(s, T), v) == {} {
      IdleHolds(s, T, it, v);
      var q := Member(CeilCube(s, T) * Mask(s, v));
      assert q in it.cube * Mask(s, v);
    } else {
      var q := Member((it.cube + Masks(s, Idle(s, Below(s, T)))) * Mask(s, v));
      assert q in it.cube * Mask(s, v);
    }
  }

  /** There are maximal implicants as soon as a cube of the list is not void. */
  lemma SomePrime(s: Space, U: CubeList, A: Cover)
    requires InSpace(s, U) && Answers(s, U, A) && AllNonVoid(s, A)
    requires forall i :: 0 <= i < |A| ==> A[i].cube !! U.cof
    requires forall u :: u in U.items ==> u.cube !! U.cof
    ensures A == [] <==> forall u :: u in U.items ==> !NonVoid(s, u.cube)
  {
    hide Full, NonVoid, PrimeOn, Sound;
    if u :| u in U.items && NonVoid(s, u.cube) {
      var i :| 0 <= i < |U.items| && U.items[i] == u;
      ItemSound(s, U, i);
      assert u.cube + U.cof - U.cof == u.cube;
      var q := PrimeAbove(s, U, u.cube + U.cof);
      assert Within(q - U.cof, A);
    }
    if A != [] {
      var c := A[0].cube;
      assert c - U.cof == c;
      var u := CoveringItem(s, U, c);
    }
  }

  lemma CoveringItem(s: Space, U: CubeList, c: Cube) returns (u: Item)
    requires c <= Full(s) && NonVoid(s, c - U.cof) && Sound(s, U, true, c)
    ensures u in U.items && NonVoid(s, u.cube)
  {
    hide Full, NonVoid;
    var m := LiveMinterm(s, U.cof, c);
    assert Covers(U.items, m);
    u :| u in U.items && In(m, u.cube);
    MintermMakesNonVoid(s, m, u.cube);
  }

  lemma VoidCeilExact(s: Space, T: CubeList, A: Cover)
    requires InSpace(s, T) && T.cof == {} && Clean(s, T, A)
    requires Answers(s, Cleared(s, Below(s, T)), A) && AllNonVoid(s, A)
    ensures A == [] <==> forall it :: it in T.items ==> !NonVoid(s, it.cube + Masks(s, EmptyVars(s, T)))
  {
    hide Full, NonVoid, CeilCube, Idle, Masks, EmptyVars, Answers, FreedItem, AllNonVoid;
    var T' := Below(s, T);
    var vs := Idle(s, T');
    var U := Cleared(s, T');
    CeilFacts(s, T);
    FreedInSpace(s, vs, T');
    FreedMembers(s, vs, T');
    forall it | it in T.items
      ensures FreedItem(s, vs, it).cube !! U.cof
      ensures NonVoid(s, it.cube + Masks(s, EmptyVars(s, T))) <==> NonVoid(s, FreedItem(s, vs, it).cube)
    {
      FreedNonVoid(s, T, it);
      FreedCube(s, vs, it);
      ItemBelow(s, T, it);
      FreedApart(s, T');
    }
    SomePrime(s, U, A);
  }

  lemma FreedCube(s: Space, vs: set<nat>, it: Item)
    ensures FreedItem(s, vs, it).cube == it.cube + Masks(s, vs)
  {
  }

  lemma DividedExact(s: Space, T: CubeList, A: Cover)
    requires InSpace(s, T) && T.cof == {} && Agreeing(s, T) && Divided(s, Below(s, T))
    requires Answers(s, Cleared(s, Below(s, T)), A) && AllNonVoid(s, A) && Containment.Antichain(A)
    requires SplitCrossed(s, Below(s, T), A) && Answers(s, T, CutAll(A, CeilCube(s, T)))
    ensures ExactlyPrimes(s, T, CutAll(A, CeilCube(s, T))) <==> VoidsVanish(s, T)
  {
    hide Full, NonVoid, CeilCube, Idle, Masks, EmptyVars, Agreeing, ExactlyPrimes, Answers, Cleared, Below, Clean,
      UnateMap.UnateList, AllNonVoid, Containment.Antichain, NoFullRow, SplitCrossed;
    var P := CutAll(A, CeilCube(s, T));
    AgreeingClean(s, T, A);
    if EmptyVars(s, T) == {} {
      PrimesCut(s, T, A);
      ExactFrom(s, T, P);
    } else {
      NoPrimeVoid(s, T, P);
      VoidCeilExact(s, T, A);
    }
  }

  // ---- the theorem

  /** The result of consensus is exactly the primes, each once, if and only if the void
      cubes of the cover vanish.  If the cover is split, its cubes must agree in every
      variable with a part that no cube has, but for the one that is split first. */
  lemma ExactPrimes(s: Space, T: CubeList, P: Cover)
    requires InSpace(s, T) && T.cof == {} && Answers(s, T, P) && AllPrimes(s, T, P)
    requires Divided(s, Below(s, T)) ==> Agreeing(s, T)
    ensures ExactlyPrimes(s, T, P) <==> VoidsVanish(s, T)
  {
    hide Full, NonVoid, CeilCube, Idle, Masks, EmptyVars, Agreeing, ExactlyPrimes, Answers, Cleared, Below, CeilOf,
      Divided, UnateMap.UnateList, Held, Uncut, CeilList;
    if T.items == [] {
      EmptyExact(s, T);
      return;
    }
    CeilFacts(s, T);
    var ceil: Cube, A: Cover :| CeilOf(T, ceil) && Uncut(s, CeilList(s, T, ceil), A) && P == CutAll(A, ceil);
    assert CeilList(s, T, ceil) == Below(s, T) by { BelowNow(s, T); }
    UncutExact(s, T, A);
  }

  lemma BelowNow(s: Space, T: CubeList)
    ensures Below(s, T) == CeilList(s, T, CeilCube(s, T))
  {
  }

  lemma EmptyExact(s: Space, T: CubeList)
    requires T.items == [] && Answers(s, T, []) && T.cof == {}
    ensures ExactlyPrimes(s, T, []) && VoidsVanish(s, T)
  {
    hide Full, NonVoid, Answers;
    ExactFrom(s, T, []);
  }

  lemma UncutExact(s: Space, T: CubeList, A: Cover)
    requires InSpace(s, T) && T.cof == {} && T.items != [] && Answers(s, T, CutAll(A, CeilCube(s, T)))
    requires Uncut(s, Below(s, T), A) && (Divided(s, Below(s, T)) ==> Agreeing(s, T))
    ensures ExactlyPrimes(s, T, CutAll(A, CeilCube(s, T))) <==> VoidsVanish(s, T)
  {
    hide Full, NonVoid, CeilCube, Agreeing, ExactlyPrimes, Answers, Cleared, Below, Divided, UnateMap.UnateList, Held,
      MostOf, AllNonVoid, Containment.Antichain, SplitCrossed, CutAll, VoidsVanish, Whole;
    if UnateMap.UnateList(s, Below(s, T)) {
      UnateExact(s, T, A);
      HeldVanish(s, T);
    } else if Divided(s, Below(s, T)) {
      DividedExact(s, T, A);
    } else {
      SingleExact(s, T);
    }
  }

  /** Where every cube lies in one that is not void, no variable is empty in all. */
  lemma HeldVanish(s: Space, T: CubeList)
    requires InSpace(s, T) && T.items != [] && UnateMap.UnateList(s, Below(s, T))
    ensures VoidsVanish(s, T) <==> Held(s, T)
  {
    hide Full, NonVoid, CeilCube, EmptyVars, UnateMap.UnateList, Below, Masks, Held;
    if Held(s, T) {
      assert T.items[0] in T.items;
      var b := Holder(s, T, T.items[0]);
      ItemBelow(s, T, b);
      WiderNonVoid(s, b.cube, CeilCube(s, T));
      CeilVoid(s, T);
    }
  }

  /** With every part in some cube and two values or more in every variable, the
      result is exactly the primes, whatever cubes are void. */
  lemma EveryPartExact(s: Space, T: CubeList, P: Cover)
    requires InSpace(s, T) && T.cof == {} && T.items != [] && Answers(s, T, P) && AllPrimes(s, T, P)
    requires CeilCube(s, T) == Full(s) && forall v :: 0 <= v < |s.sizes| ==> s.sizes[v] >= 2
    ensures ExactlyPrimes(s, T, P)
  {
    hide Full, NonVoid, CeilCube, EmptyVars, UnateMap.UnateList, Below, Masks, Held, Answers, AllPrimes, ExactlyPrimes,
      Divided;
    FullNonVoid(s);
    CeilVoid(s, T);
    assert Agreeing(s, T);
    ExactPrimes(s, T, P);
    if UnateMap.UnateList(s, Below(s, T)) {
      forall a | a in T.items
        ensures NonVoid(s, a.cube)
      {
        UnateValued(s, T, a);
      }
      assert Held(s, T) by { SelfHeld(s, T); }
    }
  }

  lemma SelfHeld(s: Space, T: CubeList)
    requires forall a :: a in T.items ==> NonVoid(s, a.cube)
    ensures Held(s, T)
  {
    hide NonVoid;
    forall a | a in T.items
      ensures exists b :: b in T.items && a.cube <= b.cube && NonVoid(s, b.cube)
    {
      assert a.cube <= a.cube;
    }
  }

  lemma UnateValued(s: Space, T: CubeList, a: Item)
    requires T.cof == {} && CeilCube(s, T) == Full(s) && a in T.items && UnateMap.UnateList(s, Below(s, T))
    requires forall v :: 0 <= v < |s.sizes| ==> s.sizes[v] >= 2
    ensures NonVoid(s, a.cube)
  {
    hide Full, CeilCube;
    forall v | 0 <= v < |s.sizes|
      ensures a.cube * Mask(s, v) != {}
    {
      if a.cube * Mask(s, v) == {} {
        var active := ActiveParts(s, Below(s, T), v);
        TwoActive(s, T, a, v);
        SubsetCard({Part(v, 0), Part(v, 1)}, active);
      }
    }
  }

  lemma TwoActive(s: Space, T: CubeList, a: Item, v: nat)
    requires T.cof == {} && CeilCube(s, T) == Full(s) && a in T.items && v < |s.sizes| && s.sizes[v] >= 2
    requires a.cube * Mask(s, v) == {}
    ensures {Part(v, 0), Part(v, 1)} <= ActiveParts(s, Below(s, T), v)
  {
    hide Full, CeilCube;
    forall p | p in {Part(v, 0), Part(v, 1)}
      ensures p in ActiveParts(s, Below(s, T), v)
    {
      assert p in Mask(s, v);
      assert p !in a.cube * Mask(s, v);
    }
  }

  // ---- a cover that does not agree

  /** Two cubes over two variables of three values; the last part is in neither. */
  ghost predicate MissingPart(s: Space, T: CubeList, x: Cube, y: Cube) {
    && s.sizes == [3, 3] && T == CubeList({}, [Item(x, 0), Item(y, 1)])
    && x == {Part(0, 0), Part(1, 0)} && y == {Part(0, 1), Part(0, 2), Part(1, 1)}
  }

  /** With a part that no cube has, in a variable where the cubes differ, the result for
      a cover without void cubes can hold a void cube.  The split on the first
      variable leaves the missing part in both halves, their consensus has nothing
      else in the second variable, and the cut to the ceiling takes that away. */
  method MissingPartVoid(s: Space) returns (T: CubeList, P: Cover)
    requires s.sizes == [3, 3]
    ensures T.cof == {} && InSpace(s, T) && forall it :: it in T.items ==> NonVoid(s, it.cube)
    ensures AllPrimes(s, T, P) && VoidsVanish(s, T) && !ExactlyPrimes(s, T, P)
    ensures exists i :: 0 <= i < |P| && !NonVoid(s, P[i].cube)
  {
    hide Full, NonVoid, AllPrimes, Answers, VoidsVanish, ExactlyPrimes;
    var x, y: Cube := {Part(0, 0), Part(1, 0)}, {Part(0, 1), Part(0, 2), Part(1, 1)};
    T := CubeList({}, [Item(x, 0), Item(y, 1)]);
    MissingSpace(s, T, x, y);
    P := PrimesConsensus(s, T);
    MissingVanish(s, T, x, y);
    ghost var i := MissingVoid(s, T, x, y, P);
    if ExactlyPrimes(s, T, P) {
      ExactNonVoid(s, T, P);
    }
  }

  lemma MissingSpace(s: Space, T: CubeList, x: Cube, y: Cube)
    requires MissingPart(s, T, x, y)
    ensures InSpace(s, T) && forall it :: it in T.items ==> NonVoid(s, it.cube)
  {
    hide NonVoid;
    MintermMakesNonVoid(s, [0, 0], x);
    MintermMakesNonVoid(s, [1, 1], y);
    assert T.items[0].cube == x && T.items[1].cube == y;
  }

  lemma MissingVanish(s: Space, T: CubeList, x: Cube, y: Cube)
    requires MissingPart(s, T, x, y)
    ensures VoidsVanish(s, T)
  {
    hide Full, NonVoid, CeilCube, EmptyVars, UnateMap.UnateList, Below, Masks, Held;
    MissingSpace(s, T, x, y);
    SelfHeld(s, T);
    assert T.items[0] in T.items;
    ItemBelow(s, T, T.items[0]);
    WiderNonVoid(s, x, CeilCube(s, T));
    CeilVoid(s, T);
  }

  lemma MissingBelow(s: Space, T: CubeList, x: Cube, y: Cube)
    requires MissingPart(s, T, x, y)
    ensures CeilCube(s, T) == x + y && Full(s) == x + y + {Part(1, 2)}
    ensures Below(s, T) == CubeList({Part(1, 2)}, T.items)
  {
    hide CeilCube;
    assert T.items[0].cube == x && T.items[1].cube == y;
    forall p | p in x + y
      ensures p in CeilCube(s, T)
    {
      assert T.items[if p in x then 0 else 1] in T.items;
    }
    assert Below(s, T).cof == {Part(1, 2)};
  }

  lemma MissingActives(s: Space, T: CubeList, x: Cube, y: Cube)
    requires MissingPart(s, T, x, y)
    ensures ActiveParts(s, Below(s, T), 0) == {Part(0, 0), Part(0, 1), Part(0, 2)}
    ensures ActiveParts(s, Below(s, T), 1) == {Part(1, 0), Part(1, 1)}
  {
    hide Full, Below;
    MissingBelow(s, T, x, y);
    var T' := Below(s, T);
    assert T'.items[0] in T'.items && T'.items[1] in T'.items;
    assert ActiveParts(s, T', 0) == {Part(0, 0), Part(0, 1), Part(0, 2)};
    assert ActiveParts(s, T', 1) == {Part(1, 0), Part(1, 1)};
  }

  lemma MissingDivided(s: Space, T: CubeList, x: Cube, y: Cube)
    requires MissingPart(s, T, x, y)
    ensures Divided(s, Below(s, T))
  {
    hide Full, Below, ActiveParts, NumActive, MissingPart, NoFullRow;
    MissingActives(s, T, x, y);
    MissingRows(s, T, x, y);
    MissingCount(s, Below(s, T));
    assert |ActiveParts(s, Below(s, T), 0)| == 3;
  }

  lemma MissingRows(s: Space, T: CubeList, x: Cube, y: Cube)
    requires MissingPart(s, T, x, y)
    ensures NoFullRow(s, Below(s, T)) && |s.sizes| == 2
  {
    hide Full, Below;
    MissingBelow(s, T, x, y);
    assert Part(0, 0) in Full(s) && Part(0, 1) in Full(s);
  }

  lemma MissingCount(s: Space, T: CubeList)
    requires |s.sizes| == 2 && |ActiveParts(s, T, 0)| > 0 && |ActiveParts(s, T, 1)| > 0
    ensures NumActive(s, T, |s.sizes|) == 2
  {
    hide ActiveParts;
    assert NumActive(s, T, 2) == NumActive(s, T, 1) + 1;
    assert NumActive(s, T, 1) == NumActive(s, T, 0) + 1;
  }

  lemma MissingSplit(s: Space, T: CubeList, x: Cube, y: Cube, v: nat, cl: Cube, cr: Cube)
    requires MissingPart(s, T, x, y) && Chosen(s, Below(s, T), v, cl, cr)
    ensures v == 0 && cl == Full(s) - {Part(0, 1), Part(0, 2)} && cr == Full(s) - {Part(0, 0)}
  {
    hide Full, Below, ActiveParts, LiveParts;
    MissingBelow(s, T, x, y);
    MissingActives(s, T, x, y);
    assert |ActiveParts(s, Below(s, T), 0)| == 3 && |ActiveParts(s, Below(s, T), 1)| == 2;
    assert v == 0;
    LiveThree(s, {Part(1, 2)});
    FirstOfThree(s, {Part(1, 2)}, cl, cr);
  }

  lemma LiveThree(s: Space, cof: Cube)
    requires s.sizes == [3, 3] && cof == {Part(1, 2)}
    ensures |LiveParts(s, cof, 0, 3)| == 3
  {
    assert LiveParts(s, cof, 0, 3) == {Part(0, 0), Part(0, 1), Part(0, 2)};
  }

  lemma FirstOfThree(s: Space, cof: Cube, cl: Cube, cr: Cube)
    requires s.sizes == [3, 3] && cof == {Part(1, 2)} && SplitOf(s, cof, 0, cl, cr) && |cl * Mask(s, 0)| == 1
    requires forall p, q :: p in cl * Mask(s, 0) && q in cr * Mask(s, 0) ==> p.k < q.k
    ensures cl == Full(s) - {Part(0, 1), Part(0, 2)} && cr == Full(s) - {Part(0, 0)}
  {
    hide Full, Mask;
    var p := Member(cl * Mask(s, 0));
    forall q | q in cl * Mask(s, 0)
      ensures q == p
    {
      SingletonCard(cl * Mask(s, 0), q, p);
    }
    forall q | q in Mask(s, 0) && q != p
      ensures q in cr && p.k < q.k
    {
      assert q !in cl * Mask(s, 0) && q !in cof;
      assert q in cr * Mask(s, 0);
    }
    assert p.k <= Part(0, 0).k by {
      assert Part(0, 0) in Mask(s, 0);
    }
    assert p == Part(0, 0);
    assert forall q :: q in cl <==> q in Full(s) && q != Part(0, 1) && q != Part(0, 2);
    assert forall q :: q in cr <==> q in Full(s) && q != Part(0, 0);
  }

  lemma MissingSides(s: Space, T: CubeList, x: Cube, y: Cube, cl: Cube, cr: Cube)
    requires MissingPart(s, T, x, y)
    requires cl == Full(s) - {Part(0, 1), Part(0, 2)} && cr == Full(s) - {Part(0, 0)}
    ensures SidePrime(s, {Part(1, 2)}, cl, x) == x + {Part(1, 2)}
    ensures SidePrime(s, {Part(1, 2)}, cr, y) == y + {Part(1, 2)}
    ensures OneSide(s, 0, x, cl, cr) && OneSide(s, 0, y, cr, cl)
  {
    hide Full;
    MissingBelow(s, T, x, y);
    assert Full(s) - cl == {Part(0, 1), Part(0, 2)} && Full(s) - cr == {Part(0, 0)};
    assert Part(0, 0) in x * (Mask(s, 0) * cl) && Part(0, 1) in y * (Mask(s, 0) * cr);
  }

  lemma MissingConsensus(s: Space, a: Cube, b: Cube, x: Cube, y: Cube)
    requires s.sizes == [3, 3] && a == x + {Part(1, 2)} && b == y + {Part(1, 2)}
    requires x == {Part(0, 0), Part(1, 0)} && y == {Part(0, 1), Part(0, 2), Part(1, 1)}
    ensures NonVoid(s, a) && NonVoid(s, b) && Distance(s, a, b) == 1
    ensures {Part(0, 0), Part(0, 1)} <= Consensus(s, a, b)
  {
    hide NonVoid, Consensus;
    MintermMakesNonVoid(s, [0, 0], a);
    MintermMakesNonVoid(s, [1, 1], b);
    assert a * b == {Part(1, 2)};
    assert Part(1, 2) in a * b * Mask(s, 1);
    assert Clashes(s, a, b) == {0};
  }

  /** An implicant with both first values has no value below the ceiling. */
  lemma MissingImplicant(s: Space, T: CubeList, x: Cube, y: Cube, q: Cube)
    requires MissingPart(s, T, x, y) && Sound(s, Below(s, T), true, q) && {Part(0, 0), Part(0, 1)} <= q
    ensures !NonVoid(s, q * CeilCube(s, T))
  {
    hide CeilCube, Full, Below, Sound, Covers, Outside, MissingPart;
    NotCovered(s, T, x, y, [1, 0]);
    NotCovered(s, T, x, y, [0, 1]);
    SoundCovers(s, Below(s, T), q, [1, 0]);
    SoundCovers(s, Below(s, T), q, [0, 1]);
    TwoMinterms(q);
    MissingValues(s, T, x, y);
    assert q * CeilCube(s, T) * Mask(s, 1) == q * (CeilCube(s, T) * Mask(s, 1));
    assert q * CeilCube(s, T) * Mask(s, 1) == {};
  }

  lemma TwoMinterms(q: Cube)
    requires {Part(0, 0), Part(0, 1)} <= q
    ensures (In([1, 0], q) <==> Part(1, 0) in q) && (In([0, 1], q) <==> Part(1, 1) in q)
  {
    var m, n: Minterm := [1, 0], [0, 1];
    assert m[0] == 1 && m[1] == 0 && n[0] == 0 && n[1] == 1;
    assert In(m, q) ==> Part(1, m[1]) in q;
    assert In(n, q) ==> Part(1, n[1]) in q;
  }

  lemma MissingValues(s: Space, T: CubeList, x: Cube, y: Cube)
    requires MissingPart(s, T, x, y)
    ensures |s.sizes| == 2 && CeilCube(s, T) * Mask(s, 1) == {Part(1, 0), Part(1, 1)}
  {
    hide CeilCube, Full, Below;
    MissingBelow(s, T, x, y);
  }

  lemma NotCovered(s: Space, T: CubeList, x: Cube, y: Cube, m: Minterm)
    requires MissingPart(s, T, x, y) && (m == [1, 0] || m == [0, 1])
    ensures Outside(s, Below(s, T).cof, m) && !Covers(Below(s, T).items, m)
  {
    hide Full, Below;
    MissingBelow(s, T, x, y);
    assert Part(0, m[0]) in Full(s) && Part(1, m[1]) in Full(s);
    assert Part(0, m[0]) !in x || Part(1, m[1]) !in x;
    assert Part(0, m[0]) !in y || Part(1, m[1]) !in y;
  }

  lemma MissingVoid(s: Space, T: CubeList, x: Cube, y: Cube, P: Cover) returns (i: nat)
    requires MissingPart(s, T, x, y) && AllPrimes(s, T, P)
    ensures i < |P| && !NonVoid(s, P[i].cube)
  {
    hide Full, NonVoid, Cleared, Answers, Below, CeilOf, CeilCube, Uncut, CutAll, CeilList, MissingPart;
    MissingSpace(s, T, x, y);
    CeilFacts(s, T);
    assert T.items != [] by { MissingItems(s, T, x, y); }
    var ceil: Cube, A: Cover :| CeilOf(T, ceil) && Uncut(s, CeilList(s, T, ceil), A) && P == CutAll(A, ceil);
    assert CeilList(s, T, ceil) == Below(s, T) by { BelowNow(s, T); }
    i := MissingUncut(s, T, x, y, A);
  }

  lemma MissingItems(s: Space, T: CubeList, x: Cube, y: Cube)
    requires MissingPart(s, T, x, y)
    ensures T.cof == {} && T.items == [Item(x, 0), Item(y, 1)]
  {
  }

  lemma MissingUncut(s: Space, T: CubeList, x: Cube, y: Cube, A: Cover) returns (i: nat)
    requires MissingPart(s, T, x, y) && Uncut(s, Below(s, T), A)
    ensures i < |A| && !NonVoid(s, A[i].cube * CeilCube(s, T))
  {
    hide Full, NonVoid, Cleared, Answers, CeilCube, Divided, SplitOf, LiveParts, ActiveParts, UnateMap.UnateList,
      MostOf, AllNonVoid, Whole, Containment.Antichain, Below, SidePrime, OneSide, Consensus, Distance, Sound;
    MissingDivided(s, T, x, y);
    MissingBelow(s, T, x, y);
    var v, cl, cr :| Chosen(s, Below(s, T), v, cl, cr) && InRoom(A, cl + cr) && Crossed(s, Below(s, T), v, cl, cr, A);
    MissingSplit(s, T, x, y, v, cl, cr);
    MissingSides(s, T, x, y, cl, cr);
    var a, b := SidePrime(s, {Part(1, 2)}, cl, x), SidePrime(s, {Part(1, 2)}, cr, y);
    MissingConsensus(s, a, b, x, y);
    assert Within(Consensus(s, a, b), A);
    i :| 0 <= i < |A| && Consensus(s, a, b) <= A[i].cube;
    assert Sound(s, Cleared(s, Below(s, T)), true, A[i].cube) by { AnswersAt(s, Cleared(s, Below(s, T)), A, i); }
    ClearedSound(s, Below(s, T), A[i].cube);
    MissingImplicant(s, T, x, y, A[i].cube);
  }

  lemma AnswersAt(s: Space, T: CubeList, P: Cover, i: nat)
    requires Answers(s, T, P) && i < |P|
    ensures Sound(s, T, true, P[i].cube)
  {
    hide Full, NonVoid, Sound;
  }
}
