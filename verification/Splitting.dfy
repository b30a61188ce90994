/** The two ways the recursive algorithms divide a cube list: halving the live
    parts of one variable, and separating cubes that share no active variable. */
module Splitting {
  import opened Cubes
  import opened Counting
  import opened CubeLists

  /** The parts of v with value below n that are not cofactored away. */
  ghost function LiveParts(s: Space, cof: Cube, v: nat, n: nat): (c: Cube)
    ensures forall p :: p in c <==> p.v == v && p.k < n && p !in cof
  {
    set k: nat | k < n && Part(v, k) !in cof :: Part(v, k)
  }

  /** How many parts of v with value below n are not cofactored away. */
  ghost function LiveCount(cof: Cube, v: nat, n: nat): nat {
    if n == 0 then 0
    else LiveCount(cof, v, n - 1) + if Part(v, n - 1) in cof then 0 else 1
  }

  lemma {:induction false} LiveCard(s: Space, cof: Cube, v: nat, n: nat)
    ensures |LiveParts(s, cof, v, n)| == LiveCount(cof, v, n)
  {
    if n == 0 {
      assert LiveParts(s, cof, v, 0) == {};
    } else {
      LiveCard(s, cof, v, n - 1);
      if Part(v, n - 1) in cof {
        assert LiveParts(s, cof, v, n) == LiveParts(s, cof, v, n - 1);
      } else {
        assert LiveParts(s, cof, v, n) == LiveParts(s, cof, v, n - 1) + {Part(v, n - 1)};
      }
    }
  }

  /** cl and cr divide the live parts of v between them and leave all other
      variables full. */
  ghost predicate SplitOf(s: Space, cof: Cube, v: nat, cl: Cube, cr: Cube)
    requires v < |s.sizes|
  {
    && cl <= Full(s) && cr <= Full(s)
    && (forall p :: p in Full(s) && p.v != v ==> p in cl && p in cr)
    && (forall p :: p in cl && p.v == v ==> p !in cof && p !in cr)
    && (forall p :: p in cr && p.v == v ==> p !in cof && p !in cl)
    && (forall p :: p in Mask(s, v) && p !in cof ==> p in cl || p in cr)
    && cl * Mask(s, v) != {} && cr * Mask(s, v) != {}
  }

  /** Both halves of a split cofactor more parts away, and stay alive. */
  lemma SplitProgress(s: Space, T: CubeList, v: nat, cl: Cube, cr: Cube)
    requires v < |s.sizes| && WellFormed(s, T) && Live(s, T.cof) && SplitOf(s, T.cof, v, cl, cr)
    ensures Live(s, T.cof + (Full(s) - cl)) && Live(s, T.cof + (Full(s) - cr))
    ensures |Full(s) - (T.cof + (Full(s) - cl))| < |Full(s) - T.cof|
    ensures |Full(s) - (T.cof + (Full(s) - cr))| < |Full(s) - T.cof|
  {
    SplitSide(s, T.cof, v, cl, cr);
    SplitSide(s, T.cof, v, cr, cl);
  }

  lemma SplitSide(s: Space, cof: Cube, v: nat, cl: Cube, cr: Cube)
    requires v < |s.sizes| && cof <= Full(s) && SplitOf(s, cof, v, cl, cr)
    ensures cof < cof + (Full(s) - cl) <= Full(s)
    ensures Live(s, cof) ==> Live(s, cof + (Full(s) - cl))
    ensures |Full(s) - (cof + (Full(s) - cl))| < |Full(s) - cof|
  {
    var p := Member(cr * Mask(s, v));
    assert p in Full(s) - cl && p !in cof;
    SmallerRest(Full(s), cof, cof + (Full(s) - cl), p);
    if Live(s, cof) {
      SplitStaysLive(s, cof, v, cl, cr);
    }
  }

  lemma SmallerRest(full: Cube, a: Cube, b: Cube, p: Part)
    requires a <= b <= full && p in b && p !in a
    ensures |full - b| < |full - a|
  {
    SubsetCard(full - b, full - a);
    assert p in full - a && p !in full - b;
  }

  lemma SplitStaysLive(s: Space, cof: Cube, v: nat, cl: Cube, cr: Cube)
    requires v < |s.sizes| && SplitOf(s, cof, v, cl, cr) && Live(s, cof)
    ensures Live(s, cof + (Full(s) - cl))
  {
    forall u | 0 <= u < |s.sizes|
      ensures (Full(s) - (cof + (Full(s) - cl))) * Mask(s, u) != {}
    {
      var q := Member((if u == v then cl * Mask(s, v) else (Full(s) - cof) * Mask(s, u)));
      assert q in (Full(s) - (cof + (Full(s) - cl))) * Mask(s, u);
    }
  }

  /** The first half of the live parts of v, and the rest. */
  method HalveLive(s: Space, cof: Cube, v: nat) returns (left: Cube, right: Cube, ghost h: nat)
    requires v < |s.sizes|
    ensures h <= s.sizes[v] && LiveCount(cof, v, h) == LiveCount(cof, v, s.sizes[v]) / 2
    ensures forall p :: p in left <==> p.v == v && p.k < h && p !in cof
    ensures forall p :: p in right <==> p.v == v && h <= p.k < s.sizes[v] && p !in cof
  {
    left, right := {}, {};
    var halfbit := 0;
    for i := 0 to s.sizes[v]
      invariant halfbit == LiveCount(cof, v, i)
    {
      if Part(v, i) !in cof {
        halfbit := halfbit + 1;
      }
    }
    var i := 0;
    halfbit := halfbit / 2;
    while halfbit > 0
      invariant 0 <= i <= s.sizes[v]
      invariant forall p :: p in left <==> p.v == v && p.k < i && p !in cof
      invariant 0 <= halfbit && halfbit + LiveCount(cof, v, i) == LiveCount(cof, v, s.sizes[v]) / 2
      decreases s.sizes[v] - i
    {
      if Part(v, i) !in cof {
        halfbit := halfbit - 1;
        left := left + {Part(v, i)};
      }
      i := i + 1;
    }
    h := i;
    while i < s.sizes[v]
      invariant h <= i <= s.sizes[v]
      invariant forall p :: p in right <==> p.v == v && h <= p.k < i && p !in cof
    {
      if Part(v, i) !in cof {
        right := right + {Part(v, i)};
      }
      i := i + 1;
    }
  }

  /** Halve the live parts of the best variable: the first half goes left. */
  method BinateSplitSelect(s: Space, T: CubeList, best: nat) returns (cl: Cube, cr: Cube)
    requires best < |s.sizes|
    ensures |LiveParts(s, T.cof, best, s.sizes[best])| >= 2 ==> SplitOf(s, T.cof, best, cl, cr)
    ensures |cl * Mask(s, best)| == |LiveParts(s, T.cof, best, s.sizes[best])| / 2
    ensures forall p, q :: p in cl * Mask(s, best) && q in cr * Mask(s, best) ==> p.k < q.k
  {
    hide Full, LiveParts, SplitOf;
    var left, right, h := HalveLive(s, T.cof, best);
    cl := (Full(s) - Mask(s, best)) + left;
    cr := (Full(s) - Mask(s, best)) + right;
    HalvesOfLive(s, T.cof, best, h, left, right);
    SplitShape(s, T.cof, best, left, right, cl, cr);
  }

  lemma HalvesOfLive(s: Space, cof: Cube, v: nat, h: nat, left: Cube, right: Cube)
    requires v < |s.sizes| && h <= s.sizes[v]
    requires LiveCount(cof, v, h) == LiveCount(cof, v, s.sizes[v]) / 2
    requires forall p :: p in left <==> p.v == v && p.k < h && p !in cof
    requires forall p :: p in right <==> p.v == v && h <= p.k < s.sizes[v] && p !in cof
    ensures left !! right && |left| == |LiveParts(s, cof, v, s.sizes[v])| / 2
    ensures left + right == LiveParts(s, cof, v, s.sizes[v])
  {
    hide LiveParts;
    LiveCard(s, cof, v, h);
    LiveCard(s, cof, v, s.sizes[v]);
    assert left == LiveParts(s, cof, v, h);
  }

  lemma SplitShape(s: Space, cof: Cube, v: nat, left: Cube, right: Cube, cl: Cube, cr: Cube)
    requires v < |s.sizes|
    requires left !! right && |left| == |LiveParts(s, cof, v, s.sizes[v])| / 2
    requires left + right == LiveParts(s, cof, v, s.sizes[v])
    requires cl == (Full(s) - Mask(s, v)) + left
    requires cr == (Full(s) - Mask(s, v)) + right
    ensures cl * Mask(s, v) == left && cr * Mask(s, v) == right
    ensures |LiveParts(s, cof, v, s.sizes[v])| >= 2 ==> SplitOf(s, cof, v, cl, cr)
  {
    hide Full, Mask, LiveParts;
    assert forall p :: p in left || p in right <==> p in LiveParts(s, cof, v, s.sizes[v]);
    assert cl * Mask(s, v) == left;
    assert cr * Mask(s, v) == right;
    if |LiveParts(s, cof, v, s.sizes[v])| >= 2 {
      assert left != {} && right != {};
      SplitMembers(s, cof, v, left, right, cl, cr);
    }
  }

  lemma SplitMembers(s: Space, cof: Cube, v: nat, left: Cube, right: Cube, cl: Cube, cr: Cube)
    requires v < |s.sizes|
    requires forall p :: p in left || p in right <==> p in Mask(s, v) && p !in cof
    requires left !! right && left != {} && right != {}
    requires cl * Mask(s, v) == left && cr * Mask(s, v) == right
    requires cl == (Full(s) - Mask(s, v)) + left && cr == (Full(s) - Mask(s, v)) + right
    ensures SplitOf(s, cof, v, cl, cr)
  {
    hide Full, Mask;
    assert forall p :: p in cl <==> p in Full(s) && (p.v == v ==> p in left);
    assert forall p :: p in cr <==> p in Full(s) && (p.v == v ==> p in right);
  }

  ghost predicate HasActivePair(s: Space, T: CubeList, d: CData) {
    && 0 <= d.best < |s.sizes|
    && |ActiveParts(s, T, d.best)| >= 2
  }

  /** A variable with two active parts has two live parts to split. */
  lemma SplitLegal(s: Space, T: CubeList, d: CData)
    requires WellFormed(s, T) && T.items != [] && HasActivePair(s, T, d)
    ensures Live(s, T.cof)
    ensures 0 <= d.best < |s.sizes|
    ensures |LiveParts(s, T.cof, d.best, s.sizes[d.best])| >= 2
  {
    WellFormedLive(s, T);
    assert ActiveParts(s, T, d.best) <= LiveParts(s, T.cof, d.best, s.sizes[d.best]);
    SubsetCard(ActiveParts(s, T, d.best), LiveParts(s, T.cof, d.best, s.sizes[d.best]));
  }

  /** What Scofactor(T, c, v) returns, for one half c of a split on v. */
  ghost predicate HalfOf(s: Space, T: CubeList, c: Cube, v: nat, H: CubeList)
    requires v < |s.sizes|
  {
    && H.cof == T.cof + (Full(s) - c)
    && forall it :: it in H.items <==> it in T.items && it.cube * (Mask(s, v) * c) != {}
  }

  /** The half covers a minterm of its own subspace exactly when T does. */
  lemma HalfCovers(s: Space, T: CubeList, v: nat, c: Cube, H: CubeList, m: Minterm)
    requires v < |s.sizes| && HalfOf(s, T, c, v, H) && Outside(s, H.cof, m)
    ensures Outside(s, T.cof, m)
    ensures Covers(T.items, m) <==> Covers(H.items, m)
  {
    assert Part(v, m[v]) in c;
    if it :| it in T.items && In(m, it.cube) {
      assert Part(v, m[v]) in it.cube * (Mask(s, v) * c);
      assert it in H.items;
    }
  }

  /** A minterm of the subspace lies on one side of the split. */
  lemma SideOf(s: Space, cof: Cube, v: nat, cl: Cube, cr: Cube, m: Minterm)
    requires v < |s.sizes| && SplitOf(s, cof, v, cl, cr) && Outside(s, cof, m)
    ensures Outside(s, cof + (Full(s) - cl), m) || Outside(s, cof + (Full(s) - cr), m)
  {
    assert Part(v, m[v]) in Mask(s, v);
    assert Part(v, m[v]) in cl || Part(v, m[v]) in cr;
  }

  lemma HalfFacts(s: Space, T: CubeList, v: nat, c: Cube, other: Cube, H: CubeList)
    requires v < |s.sizes| && WellFormed(s, T) && SplitOf(s, T.cof, v, c, other)
    requires H.cof == T.cof + (Full(s) - c)
    requires H.items == Filter(T.items, Touches(Mask(s, v) * c))
    ensures HalfOf(s, T, c, v, H) && WellFormed(s, H)
  {
    forall it | it in H.items
      ensures Survives(s, H.cof, it.cube)
    {
      HalfSurvives(s, T.cof, c, v, it.cube);
    }
  }

  lemma HalfSurvives(s: Space, cof: Cube, c: Cube, v: nat, cube: Cube)
    requires v < |s.sizes| && Survives(s, cof, cube) && cube * (Mask(s, v) * c) != {}
    requires forall p :: p in Full(s) && p.v != v ==> p in c
    requires forall p :: p in c && p.v == v ==> p !in cof
    ensures Survives(s, cof + (Full(s) - c), cube)
  {
    var cof' := cof + (Full(s) - c);
    forall u | 0 <= u < |s.sizes| && cof' * Mask(s, u) != {}
      ensures (cube - cof') * Mask(s, u) != {}
    {
      if u == v {
        var p := Member(cube * (Mask(s, v) * c));
        assert p in (cube - cof') * Mask(s, u);
      } else {
        var q := Member(cof' * Mask(s, u));
        assert q in cof * Mask(s, u);
        var p := Member((cube - cof) * Mask(s, u));
        assert p in (cube - cof') * Mask(s, u);
      }
    }
  }

  /** Cofactor against both halves of the best variable. */
  method SplitList(s: Space, T: CubeList, d: CData)
      returns (cl: Cube, cr: Cube, L: CubeList, R: CubeList)
    requires WellFormed(s, T) && T.items != [] && HasActivePair(s, T, d)
    ensures Live(s, T.cof) && 0 <= d.best < |s.sizes|
    ensures SplitOf(s, T.cof, d.best, cl, cr)
    ensures HalfOf(s, T, cl, d.best, L) && HalfOf(s, T, cr, d.best, R)
    ensures WellFormed(s, L) && WellFormed(s, R) && Live(s, L.cof) && Live(s, R.cof)
    ensures |Full(s) - L.cof| < |Full(s) - T.cof| && |Full(s) - R.cof| < |Full(s) - T.cof|
    ensures |L.items| <= |T.items| && |R.items| <= |T.items|
  {
    hide HasActivePair, HalfOf, WellFormed, Live, Full, SplitOf;
    SplitLegal(s, T, d);
    cl, cr := BinateSplitSelect(s, T, d.best);
    L := Scofactor(s, T, cl, d.best);
    R := Scofactor(s, T, cr, d.best);
    SplitProgress(s, T, d.best, cl, cr);
    HalfFacts(s, T, d.best, cl, cr, L);
    SplitSym(s, T.cof, d.best, cl, cr);
    HalfFacts(s, T, d.best, cr, cl, R);
  }

  lemma SplitSym(s: Space, cof: Cube, v: nat, cl: Cube, cr: Cube)
    requires v < |s.sizes| && SplitOf(s, cof, v, cl, cr)
    ensures SplitOf(s, cof, v, cr, cl)
  {
  }

  // ---- components

  /** a and b both leave out a live part of some variable (ccommon). */
  predicate Common(s: Space, a: Cube, b: Cube, cof: Cube) {
    exists v :: 0 <= v < |s.sizes| && ActiveIn(s, cof, a, v) && ActiveIn(s, cof, b, v)
  }

  /** No cube of A shares an active variable with a cube of B. */
  ghost predicate Separate(s: Space, cof: Cube, A: seq<Item>, B: seq<Item>) {
    forall a, b, v ::
      a in A && b in B && 0 <= v < |s.sizes| && ActiveIn(s, cof, a.cube, v)
      ==> !ActiveIn(s, cof, b.cube, v)
  }

  lemma MeetOfActive(s: Space, cof: Cube, a: Cube, b: Cube, v: nat)
    requires v < |s.sizes|
    ensures ActiveIn(s, cof, a * b, v) <==> ActiveIn(s, cof, a, v) || ActiveIn(s, cof, b, v)
  {
    if ActiveIn(s, cof, a * b, v) {
      var p :| p in Mask(s, v) && p !in a * b + cof;
    }
  }

  /** The variables active in the seed are those active in a covered cube. */
  ghost predicate SeedOf(s: Space, T: CubeList, covered: seq<bool>, seed: Cube) {
    && |covered| == |T.items|
    && forall v :: 0 <= v < |s.sizes| ==>
         (ActiveIn(s, T.cof, seed, v) <==>
          exists j :: 0 <= j < |covered| && covered[j] && ActiveIn(s, T.cof, T.items[j].cube, v))
  }

  lemma SeedStep(s: Space, T: CubeList, covered: seq<bool>, seed: Cube, i: nat)
    requires SeedOf(s, T, covered, seed) && i < |covered| && !covered[i]
    ensures SeedOf(s, T, covered[i := true], seed * T.items[i].cube)
  {
    hide ActiveIn;
    var covered' := covered[i := true];
    forall v | 0 <= v < |s.sizes|
      ensures ActiveIn(s, T.cof, seed * T.items[i].cube, v) <==>
        exists j :: 0 <= j < |covered'| && covered'[j] && ActiveIn(s, T.cof, T.items[j].cube, v)
    {
      MeetOfActive(s, T.cof, seed, T.items[i].cube, v);
      if j :| 0 <= j < |covered| && covered[j] && ActiveIn(s, T.cof, T.items[j].cube, v) {
        assert covered'[j];
      }
      if j :| 0 <= j < |covered'| && covered'[j] && ActiveIn(s, T.cof, T.items[j].cube, v) {
        assert j == i || covered[j];
      }
      assert covered'[i];
    }
  }

  /** The marked cubes share no active variable with the others, and the first one
      is marked. */
  ghost predicate Parts(s: Space, T: CubeList, side: seq<bool>) {
    && |side| == |T.items| && |side| > 0 && side[0]
    && forall i, j, v ::
         0 <= i < |side| && 0 <= j < |side| && side[i] && !side[j]
         && 0 <= v < |s.sizes| && ActiveIn(s, T.cof, T.items[i].cube, v)
         ==> !ActiveIn(s, T.cof, T.items[j].cube, v)
  }

  /** Whatever divides the cubes without a common variable leaves the covered ones
      with the first. */
  ghost predicate Connected(s: Space, T: CubeList, covered: seq<bool>) {
    forall side :: Parts(s, T, side) ==> forall j :: 0 <= j < |covered| && j < |side| && covered[j] ==> side[j]
  }

  lemma ConnectedStep(s: Space, T: CubeList, covered: seq<bool>, seed: Cube, i: nat)
    requires SeedOf(s, T, covered, seed) && Connected(s, T, covered) && i < |covered|
    requires Common(s, T.items[i].cube, seed, T.cof)
    ensures Connected(s, T, covered[i := true])
  {
    hide ActiveIn;
    var v := CommonVariable(s, T.items[i].cube, seed, T.cof);
    var j :| 0 <= j < |covered| && covered[j] && ActiveIn(s, T.cof, T.items[j].cube, v);
    forall side | Parts(s, T, side)
      ensures forall k :: 0 <= k < |covered| && k < |side| && covered[i := true][k] ==> side[k]
    {
      assert side[j];
    }
  }

  lemma CommonVariable(s: Space, a: Cube, b: Cube, cof: Cube) returns (v: nat)
    requires Common(s, a, b, cof)
    ensures v < |s.sizes| && ActiveIn(s, cof, a, v) && ActiveIn(s, cof, b, v)
  {
    hide ActiveIn;
    v :| 0 <= v < |s.sizes| && ActiveIn(s, cof, a, v) && ActiveIn(s, cof, b, v);
  }

  /** One sweep: pull in every cube that shares a variable with the seed. */
  method Sweep(s: Space, T: CubeList, covered0: seq<bool>, seed0: Cube, count0: nat)
      returns (covered: seq<bool>, seed: Cube, count: nat, change: bool)
    requires SeedOf(s, T, covered0, seed0) && count0 == CountTrue(covered0) && Connected(s, T, covered0)
    ensures SeedOf(s, T, covered, seed) && count == CountTrue(covered) && Connected(s, T, covered)
    ensures forall j :: 0 <= j < |covered| && covered0[j] ==> covered[j]
    ensures change ==> count > count0
    ensures !change ==> covered == covered0 && count == count0
    ensures !change ==> forall j :: 0 <= j < |covered| && !covered[j] ==>
              !Common(s, T.items[j].cube, seed, T.cof)
  {
    hide SeedOf, Common, Connected;
    assert SeedOf(s, T, covered0, seed0) ==> |covered0| == |T.items| by { SeedLength(s, T, covered0, seed0); }
    covered, seed, count, change := covered0, seed0, count0, false;
    var i := 0;
    while i < |T.items|
      invariant 0 <= i <= |T.items| == |covered| == |covered0|
      invariant SeedOf(s, T, covered, seed) && count == CountTrue(covered) && Connected(s, T, covered)
      invariant forall j :: 0 <= j < |covered| && covered0[j] ==> covered[j]
      invariant change ==> count > count0
      invariant !change ==> covered == covered0 && count == count0
      invariant !change ==> forall j :: 0 <= j < i && !covered[j] ==>
                  !Common(s, T.items[j].cube, seed, T.cof)
      invariant count >= count0
    {
      if !covered[i] && Common(s, T.items[i].cube, seed, T.cof) {
        SeedStep(s, T, covered, seed, i);
        ConnectedStep(s, T, covered, seed, i);
        CountUpdate(covered, i, true);
        seed := seed * T.items[i].cube;
        covered := covered[i := true];
        change := true;
        count := count + 1;
      }
      i := i + 1;
    }
  }

  lemma SeedLength(s: Space, T: CubeList, covered: seq<bool>, seed: Cube)
    requires SeedOf(s, T, covered, seed)
    ensures |covered| == |T.items|
  {
  }

  /** Separate the cubes connected to the first one from the rest.  The answer is
      zero exactly if all are connected: then nothing divides the list into two
      parts without a common variable. */
  method CubelistPartition(s: Space, T: CubeList) returns (A: CubeList, B: CubeList, n: nat)
    requires T.items != []
    ensures n > 0 ==> A.cof == T.cof && B.cof == T.cof
    ensures n > 0 ==> |B.items| == n && |A.items| + |B.items| == |T.items| && A.items != []
    ensures n > 0 ==> forall it :: it in T.items <==> it in A.items || it in B.items
    ensures n > 0 ==> Separate(s, T.cof, A.items, B.items)
    ensures n == 0 ==> forall side :: Parts(s, T, side) ==> forall j :: 0 <= j < |side| ==> side[j]
  {
    hide ActiveIn, Parts;
    var covered := seq(|T.items|, i => false)[0 := true];
    var seed := T.items[0].cube;
    var count := 1;
    CountUpdate(seq(|T.items|, i => false), 0, true);
    assert SeedOf(s, T, covered, seed) by { assert covered[0]; }
    FirstConnected(s, T, covered);
    var change := true;
    while change
      invariant SeedOf(s, T, covered, seed) && count == CountTrue(covered)
      invariant covered[0] && Connected(s, T, covered)
      invariant !change ==> forall j :: 0 <= j < |covered| && !covered[j] ==>
                  !Common(s, T.items[j].cube, seed, T.cof)
      decreases |T.items| - count, if change then 1 else 0
    {
      covered, seed, count, change := Sweep(s, T, covered, seed, count);
    }
    n := |T.items| - count;
    A, B := T, T;
    if n == 0 {
      AllConnected(s, T, covered);
    }
    if n > 0 {
      var a, b := Distribute(T.items, covered);
      A, B := CubeList(T.cof, a), CubeList(T.cof, b);
      forall x, y, v | x in a && y in b && 0 <= v < |s.sizes| && ActiveIn(s, T.cof, x.cube, v)
        ensures !ActiveIn(s, T.cof, y.cube, v)
      {
        var i :| 0 <= i < |covered| && covered[i] && T.items[i] == x;
        var j :| 0 <= j < |covered| && !covered[j] && T.items[j] == y;
        assert ActiveIn(s, T.cof, seed, v);
      }
    }
  }

  lemma FirstConnected(s: Space, T: CubeList, covered: seq<bool>)
    requires forall j :: 0 < j < |covered| ==> !covered[j]
    ensures Connected(s, T, covered)
  {
    hide ActiveIn;
  }

  lemma AllConnected(s: Space, T: CubeList, covered: seq<bool>)
    requires Connected(s, T, covered) && |covered| == |T.items| && forall j :: 0 <= j < |covered| ==> covered[j]
    ensures forall side :: Parts(s, T, side) ==> forall j :: 0 <= j < |side| ==> side[j]
  {
    hide ActiveIn;
  }

  /** Deal the covered items to one list and the others to another. */
  method Distribute(items: seq<Item>, covered: seq<bool>) returns (a: seq<Item>, b: seq<Item>)
    requires |items| == |covered|
    ensures |a| == CountTrue(covered) && |a| + |b| == |items|
    ensures forall it :: it in a <==> exists i :: 0 <= i < |items| && covered[i] && items[i] == it
    ensures forall it :: it in b <==> exists i :: 0 <= i < |items| && !covered[i] && items[i] == it
  {
    a, b := [], [];
    var i := 0;
    while i < |items|
      invariant 0 <= i <= |items|
      invariant |a| == CountTrue(covered[..i]) && |a| + |b| == i
      invariant forall it :: it in a <==> exists j :: 0 <= j < i && covered[j] && items[j] == it
      invariant forall it :: it in b <==> exists j :: 0 <= j < i && !covered[j] && items[j] == it
    {
      assert covered[..i + 1][..i] == covered[..i];
      if covered[i] {
        a := a + [items[i]];
      } else {
        b := b + [items[i]];
      }
      i := i + 1;
    }
    assert covered[..i] == covered;
  }
}
