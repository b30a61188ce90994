/** Merging the results of the two halves of a split, for the complement and for
    the simplification of a cube list. */
module Merging {
  import opened Cubes
  import opened Counting
  import opened CubeLists
  import opened Splitting
  import opened Families
  import opened SetOrder

  /** On the subspace, B holds exactly the minterms that T covers, or for pos false
      exactly those it does not. */
  ghost predicate Exact(s: Space, T: CubeList, pos: bool, B: Cover) {
    forall m :: Outside(s, T.cof, m) ==> (Has(B, m) <==> (Covers(T.items, m) <==> pos))
  }

  /** No minterm of c on the subspace is wrong. */
  ghost predicate Sound(s: Space, T: CubeList, pos: bool, c: Cube) {
    forall m :: Outside(s, T.cof, m) && In(m, c) ==> (Covers(T.items, m) <==> pos)
  }

  /** c has a value in each of the variables. */
  ghost predicate ValuedIn(s: Space, vs: set<nat>, c: Cube) {
    forall v :: v in vs ==> v < |s.sizes| && c * Mask(s, v) != {}
  }

  /** c is sound, and it keeps a live part in each variable of live. */
  ghost predicate Good(s: Space, T: CubeList, pos: bool, live: set<nat>, c: Cube) {
    c <= Full(s) && Sound(s, T, pos, c) && ValuedIn(s, live, c - T.cof)
  }

  ghost predicate AllGood(s: Space, T: CubeList, pos: bool, live: set<nat>, B: Cover) {
    forall i :: 0 <= i < |B| ==> Good(s, T, pos, live, B[i].cube)
  }

  /** Every cube keeps a live part in each variable of live. */
  ghost predicate LiveCubes(s: Space, live: set<nat>, cof: Cube, B: Cover) {
    forall i :: 0 <= i < |B| ==> ValuedIn(s, live, B[i].cube - cof)
  }

  lemma WiderLive(s: Space, live: set<nat>, a: Cube, b: Cube, cof: Cube)
    requires a <= b && ValuedIn(s, live, a - cof)
    ensures ValuedIn(s, live, b - cof)
  {
    forall v | v in live
      ensures v < |s.sizes| && (b - cof) * Mask(s, v) != {}
    {
      assert (a - cof) * Mask(s, v) != {};
      var p := Member((a - cof) * Mask(s, v));
      assert p in (b - cof) * Mask(s, v);
    }
  }

  // ---- raising parts of the splitting variable

  /** Two cubes that agree outside the variable can be joined. */
  lemma GoodJoin(s: Space, T: CubeList, pos: bool, live: set<nat>, v: nat, a: Cube, b: Cube)
    requires v < |s.sizes| && a - Mask(s, v) == b - Mask(s, v)
    requires Good(s, T, pos, live, a) && Good(s, T, pos, live, b)
    ensures Good(s, T, pos, live, a + b)
  {
    hide Full, ValuedIn, Covers, Outside;
    forall m | Outside(s, T.cof, m) && In(m, a + b)
      ensures Covers(T.items, m) <==> pos
    {
      OutsideLength(s, T.cof, m);
      JoinHolds(s, v, a, b, m);
    }
    WiderLive(s, live, a, a + b, T.cof);
  }

  lemma OutsideLength(s: Space, cof: Cube, m: Minterm)
    requires Outside(s, cof, m)
    ensures IsMinterm(s, m)
  {
  }

  lemma JoinHolds(s: Space, v: nat, a: Cube, b: Cube, m: Minterm)
    requires v < |s.sizes| && a - Mask(s, v) == b - Mask(s, v) && IsMinterm(s, m) && In(m, a + b)
    ensures In(m, a) || In(m, b)
  {
    forall u | 0 <= u < |m| && u != v
      ensures Part(u, m[u]) in a && Part(u, m[u]) in b
    {
      assert Part(u, m[u]) in a + b && Part(u, m[u]) !in Mask(s, v);
      assert Part(u, m[u]) in a - Mask(s, v) <==> Part(u, m[u]) in b - Mask(s, v);
    }
  }

  /** Parts of the variable can be raised when the cube moved there lies inside a
      good cube. */
  lemma GoodLift(s: Space, T: CubeList, pos: bool, live: set<nat>, v: nat, a: Cube, b: Cube, x: Cube)
    requires v < |s.sizes| && x <= Mask(s, v) && x + (a - Mask(s, v)) <= b
    requires Good(s, T, pos, live, a) && Good(s, T, pos, live, b)
    ensures Good(s, T, pos, live, a + x)
  {
    hide ValuedIn, Covers, Outside;
    forall m | Outside(s, T.cof, m) && In(m, a + x)
      ensures Covers(T.items, m) <==> pos
    {
      OutsideLength(s, T.cof, m);
      LiftHolds(s, v, a, x, m);
      if !In(m, a) {
        InWider(m, x + (a - Mask(s, v)), b);
      }
    }
    WiderLive(s, live, a, a + x, T.cof);
  }

  lemma InWider(m: Minterm, a: Cube, b: Cube)
    requires In(m, a) && a <= b
    ensures In(m, b)
  {
  }

  lemma LiftHolds(s: Space, v: nat, a: Cube, x: Cube, m: Minterm)
    requires v < |s.sizes| && x <= Mask(s, v) && IsMinterm(s, m) && In(m, a + x)
    ensures In(m, a) || In(m, x + (a - Mask(s, v)))
  {
    forall u | 0 <= u < |m| && u != v
      ensures Part(u, m[u]) in a && Part(u, m[u]) !in Mask(s, v)
    {
      assert Part(u, m[u]) in a + x;
    }
  }

  /** In a complement, parts can be raised when no cube of the list is met. */
  lemma GoodLiftOnset(s: Space, T: CubeList, live: set<nat>, a: Cube, lift: Cube)
    requires a <= lift <= Full(s) && Good(s, T, false, live, a)
    requires forall it :: it in T.items ==> !Meets(s, it.cube + T.cof, lift)
    ensures Good(s, T, false, live, lift)
  {
    hide Full, ValuedIn, Meets;
    forall m | Outside(s, T.cof, m) && In(m, lift)
      ensures !Covers(T.items, m)
    {
      if it :| it in T.items && In(m, it.cube) {
        InWider(m, it.cube, it.cube + T.cof);
        MeetsIffCommonMinterm(s, it.cube + T.cof, lift);
      }
    }
    WiderLive(s, live, a, lift, T.cof);
  }

  // ---- the two halves

  /** The cubes cut down to c and marked active. */
  function Halved(L0: Cover, c: Cube): (L: Cover)
    ensures |L| == |L0| && forall i :: 0 <= i < |L| ==> L[i].cube == L0[i].cube * c && L[i].active
  {
    seq(|L0|, i requires 0 <= i < |L0| => L0[i].(cube := L0[i].cube * c, active := true))
  }

  /** Restrict the result of one half to its side of the split. */
  method Halve(L0: Cover, c: Cube) returns (L: Cover)
    ensures L == Halved(L0, c)
  {
    L := [];
    var i := 0;
    while i < |L0|
      invariant 0 <= i <= |L0| && L == Halved(L0, c)[..i]
    {
      L := L + [L0[i].(cube := L0[i].cube * c, active := true)];
      i := i + 1;
    }
  }

  lemma HalveGood(s: Space, T: CubeList, pos: bool, live: set<nat>, v: nat, c: Cube, H: CubeList, L0: Cover, L: Cover)
    requires v < |s.sizes| && HalfOf(s, T, c, v, H) && Exact(s, H, pos, L0)
    requires Valid(s, L0) && LiveCubes(s, live, H.cof, L0)
    requires |L| == |L0| && forall i :: 0 <= i < |L| ==> L[i].cube == L0[i].cube * c && L[i].active
    ensures AllGood(s, T, pos, live, L)
  {
    hide Full, ValuedIn, Exact, HalfOf, Sound;
    forall i | 0 <= i < |L|
      ensures Good(s, T, pos, live, L[i].cube)
    {
      ValidAt(s, L0, i);
      HalfSound(s, T, pos, v, c, H, L0, i);
      HalfLive(s, T, live, c, v, H, L0[i].cube);
    }
  }

  lemma HalfLive(s: Space, T: CubeList, live: set<nat>, c: Cube, v: nat, H: CubeList, a: Cube)
    requires v < |s.sizes| && HalfOf(s, T, c, v, H) && a <= Full(s) && ValuedIn(s, live, a - H.cof)
    ensures ValuedIn(s, live, a * c - T.cof)
  {
    hide ValuedIn;
    assert a * c - T.cof == a - H.cof;
  }

  lemma HalfSound(s: Space, T: CubeList, pos: bool, v: nat, c: Cube, H: CubeList, L0: Cover, i: nat)
    requires v < |s.sizes| && HalfOf(s, T, c, v, H) && Exact(s, H, pos, L0) && i < |L0|
    ensures Sound(s, T, pos, L0[i].cube * c)
  {
    hide HalfOf, Covers;
    forall m | Outside(s, T.cof, m) && In(m, L0[i].cube * c)
      ensures Covers(T.items, m) <==> pos
    {
      SideOutside(s, T, c, v, H, m);
      HalfCovers(s, T, v, c, H, m);
      assert In(m, L0[i].cube);
    }
  }

  lemma SideOutside(s: Space, T: CubeList, c: Cube, v: nat, H: CubeList, m: Minterm)
    requires v < |s.sizes| && HalfOf(s, T, c, v, H) && Outside(s, T.cof, m)
    requires forall u :: 0 <= u < |m| ==> Part(u, m[u]) in c
    ensures Outside(s, H.cof, m)
  {
  }

  /** Some cube of L, or some active cube of R, holds m. */
  ghost predicate Holds(L: Cover, R: Cover, m: Minterm) {
    Has(L, m) || exists j :: 0 <= j < |R| && R[j].active && In(m, R[j].cube)
  }

  /** Together the halves hold every wanted minterm. */
  ghost predicate Complete(s: Space, T: CubeList, pos: bool, L: Cover, R: Cover) {
    forall m :: Outside(s, T.cof, m) && (Covers(T.items, m) <==> pos) ==> Holds(L, R, m)
  }

  lemma HalvesComplete(s: Space, T: CubeList, pos: bool, v: nat, cl: Cube, cr: Cube, HL: CubeList, HR: CubeList,
      L0: Cover, R0: Cover, L: Cover, R: Cover)
    requires v < |s.sizes| && SplitOf(s, T.cof, v, cl, cr)
    requires HalfOf(s, T, cl, v, HL) && HalfOf(s, T, cr, v, HR) && Exact(s, HL, pos, L0) && Exact(s, HR, pos, R0)
    requires |L| == |L0| && forall i :: 0 <= i < |L| ==> L[i].cube == L0[i].cube * cl && L[i].active
    requires |R| == |R0| && forall i :: 0 <= i < |R| ==> R[i].cube == R0[i].cube * cr && R[i].active
    ensures Complete(s, T, pos, L, R)
  {
    hide HalfOf, Covers, Outside, SplitOf, Exact, In;
    forall m | Outside(s, T.cof, m) && (Covers(T.items, m) <==> pos)
      ensures Holds(L, R, m)
    {
      SideOf(s, T.cof, v, cl, cr, m);
      HalfCof(s, T, cl, v, HL);
      HalfCof(s, T, cr, v, HR);
      if Outside(s, HL.cof, m) {
        HalfCovers(s, T, v, cl, HL, m);
        SideHas(s, T, pos, cl, HL, L0, L, m);
      } else {
        HalfCovers(s, T, v, cr, HR, m);
        SideHas(s, T, pos, cr, HR, R0, R, m);
      }
    }
  }

  lemma HalfCof(s: Space, T: CubeList, c: Cube, v: nat, H: CubeList)
    requires v < |s.sizes| && HalfOf(s, T, c, v, H)
    ensures H.cof == T.cof + (Full(s) - c)
  {
  }

  lemma SideHas(s: Space, T: CubeList, pos: bool, c: Cube, H: CubeList, L0: Cover, L: Cover, m: Minterm)
    requires H.cof == T.cof + (Full(s) - c) && Outside(s, H.cof, m) && Exact(s, H, pos, L0)
    requires (Covers(H.items, m) <==> pos)
    requires |L| == |L0| && forall i :: 0 <= i < |L| ==> L[i].cube == L0[i].cube * c && L[i].active
    ensures exists i :: 0 <= i < |L| && L[i].active && In(m, L[i].cube)
  {
    hide Covers;
    assert Has(L0, m);
    var i :| 0 <= i < |L0| && In(m, L0[i].cube);
    forall u | 0 <= u < |m|
      ensures Part(u, m[u]) in L[i].cube
    {
      assert Part(u, m[u]) in Full(s) - H.cof;
    }
  }

  // ---- merging cubes that agree outside the variable

  /** The cubes agree outside the variable. */
  predicate Agree(s: Space, v: nat, a: Cube, b: Cube)
    requires v < |s.sizes|
  {
    a - Mask(s, v) == b - Mask(s, v)
  }

  /** Compare two cubes outside the variable, as bit vectors: the larger comes first. */
  function D1Order(s: Space, v: nat, a: Cube, b: Cube): (order: int)
    requires v < |s.sizes|
    ensures -1 <= order <= 1
  {
    if Exceeds(a + Mask(s, v), b + Mask(s, v)) then -1
    else if Exceeds(b + Mask(s, v), a + Mask(s, v)) then 1
    else 0
  }

  /** The comparison is an order, up to the parts of the variable. */
  lemma D1Orders(s: Space, v: nat, a: Cube, b: Cube, c: Cube)
    requires v < |s.sizes|
    ensures D1Order(s, v, a, b) == 0 <==> Agree(s, v, a, b)
    ensures D1Order(s, v, a, b) == -1 <==> D1Order(s, v, b, a) == 1
    ensures D1Order(s, v, a, b) == -1 && D1Order(s, v, b, c) == -1 ==> D1Order(s, v, a, c) == -1
    ensures Agree(s, v, a, b) ==> D1Order(s, v, a, c) == D1Order(s, v, b, c)
  {
    hide Exceeds, Mask;
    var x, y, z := a + Mask(s, v), b + Mask(s, v), c + Mask(s, v);
    assert x == y <==> Agree(s, v, a, b) by {
      assert x - Mask(s, v) == a - Mask(s, v) && y - Mask(s, v) == b - Mask(s, v);
      assert x == a - Mask(s, v) + Mask(s, v) && y == b - Mask(s, v) + Mask(s, v);
    }
    if x != y {
      ExceedsTotal(x, y);
    }
    if Exceeds(x, y) {
      ExceedsOneWay(x, y);
      if Exceeds(y, z) {
        ExceedsTransitive(x, y, z);
      }
    }
    if Exceeds(y, x) {
      ExceedsOneWay(y, x);
    }
  }

  /** No cube comes before an earlier one. */
  ghost predicate D1Sorted(s: Space, v: nat, S: Cover)
    requires v < |s.sizes|
  {
    forall i, j :: 0 <= i < j < |S| ==> D1Order(s, v, S[i].cube, S[j].cube) != 1
  }

  /** Sort for the merge; the order of cubes that agree is left open. */
  method D1Sort(s: Space, v: nat, F: Cover) returns (S: Cover)
    requires v < |s.sizes|
    ensures |S| == |F| && multiset(S) == multiset(F) && D1Sorted(s, v, S)
  {
    hide D1Order, D1Sorted;
    var G := Reorder(F);
    assert D1Sorted(s, v, []) by { NoneSorted(s, v); }
    S := [];
    var i := 0;
    while i < |G|
      invariant 0 <= i <= |G| && D1Sorted(s, v, S) && |S| == i && multiset(S) == multiset(G[..i])
    {
      var n := 0;
      while n < |S| && D1Order(s, v, S[n].cube, G[i].cube) != 1
        invariant n <= |S| && forall k :: 0 <= k < n ==> D1Order(s, v, S[k].cube, G[i].cube) != 1
        decreases |S| - n
      {
        n := n + 1;
      }
      D1Insert(s, v, S, G[i], n);
      Inserted(S, G[i], n);
      assert G[..i + 1] == G[..i] + [G[i]];
      S := S[..n] + [G[i]] + S[n..];
      i := i + 1;
    }
    assert G[..i] == G;
  }

  lemma D1Insert(s: Space, v: nat, S: Cover, x: FCube, n: nat)
    requires v < |s.sizes| && D1Sorted(s, v, S) && n <= |S|
    requires forall k :: 0 <= k < n ==> D1Order(s, v, S[k].cube, x.cube) != 1
    requires n < |S| ==> D1Order(s, v, S[n].cube, x.cube) == 1
    ensures D1Sorted(s, v, S[..n] + [x] + S[n..])
  {
    hide D1Order;
    var r := S[..n] + [x] + S[n..];
    forall i, j | 0 <= i < j < |r|
      ensures D1Order(s, v, r[i].cube, r[j].cube) != 1
    {
      var y := if i < n then S[i] else if i == n then x else S[i - 1];
      var z := if j < n then S[j] else if j == n then x else S[j - 1];
      assert r[i] == y && r[j] == z;
      if i == n {
        D1Later(s, v, x.cube, S[n].cube, z.cube);
      }
    }
  }

  lemma NoneSorted(s: Space, v: nat)
    requires v < |s.sizes|
    ensures D1Sorted(s, v, [])
  {
  }

  lemma Inserted(S: Cover, x: FCube, n: nat)
    requires n <= |S|
    ensures multiset(S[..n] + [x] + S[n..]) == multiset(S + [x])
  {
    assert S == S[..n] + S[n..];
  }

  lemma D1Later(s: Space, v: nat, x: Cube, y: Cube, z: Cube)
    requires v < |s.sizes| && D1Order(s, v, y, x) == 1 && (z == y || D1Order(s, v, y, z) != 1)
    ensures D1Order(s, v, x, z) != 1
  {
    hide D1Order, Agree;
    D1Orders(s, v, x, y, z);
    D1Orders(s, v, y, z, x);
    D1Orders(s, v, z, x, y);
  }

  /** L has grown from L0 in the variable, and R lost active flags of cubes that lie now
      in a cube of L with which they agree. */
  ghost predicate Merged(s: Space, v: nat, L0: Cover, R0: Cover, L: Cover, R: Cover)
    requires v < |s.sizes|
  {
    && |L| == |L0| && |R| == |R0|
    && (forall i :: 0 <= i < |L| ==> Grows(s, v, L0[i], L[i]))
    && (forall j :: 0 <= j < |R| ==> R[j].cube == R0[j].cube && (R[j].active ==> R0[j].active))
    && (forall j :: 0 <= j < |R| && R0[j].active && !R[j].active ==> JoinedTo(s, v, L0, L, R0[j].cube))
  }

  /** The cube has grown in the variable only. */
  ghost predicate Grows(s: Space, v: nat, a: FCube, b: FCube)
    requires v < |s.sizes|
  {
    a.cube <= b.cube && b.active == a.active && Agree(s, v, a.cube, b.cube)
  }

  /** Some cube of L0 agrees with c, and took it up. */
  ghost predicate JoinedTo(s: Space, v: nat, L0: Cover, L: Cover, c: Cube)
    requires v < |s.sizes| && |L| == |L0|
  {
    exists i :: 0 <= i < |L0| && Agree(s, v, L0[i].cube, c) && L0[i].cube + c <= L[i].cube
  }

  /** No cube of L0 agrees with one that is still active. */
  ghost predicate AllJoined(s: Space, v: nat, L0: Cover, R0: Cover, R: Cover)
    requires v < |s.sizes| && |R| == |R0|
  {
    forall i, j :: 0 <= i < |L0| && 0 <= j < |R0| && Agree(s, v, L0[i].cube, R0[j].cube) ==> !R[j].active
  }

  /** So it is for the pairs behind position i of the left or j of the right list. */
  ghost predicate JoinedBehind(s: Space, v: nat, L0: Cover, R0: Cover, R: Cover, i: nat, j: nat)
    requires v < |s.sizes| && |R| == |R0|
  {
    forall x, y :: 0 <= x < |L0| && 0 <= y < |R0| && (x < i || y < j) && Agree(s, v, L0[x].cube, R0[y].cube) ==>
      !R[y].active
  }

  lemma MergeStep(s: Space, v: nat, L0: Cover, R0: Cover, L: Cover, R: Cover, i: nat, j: nat)
    requires v < |s.sizes| && Merged(s, v, L0, R0, L, R) && i < |L| && j < |R| && Agree(s, v, L[i].cube, R[j].cube)
    ensures Merged(s, v, L0, R0, L[i := L[i].(cube := L[i].cube + R[j].cube)], R[j := R[j].(active := false)])
  {
    hide JoinedTo, Mask;
    var L' := L[i := L[i].(cube := L[i].cube + R[j].cube)];
    assert Grows(s, v, L0[i], L'[i]) by {
      assert Grows(s, v, L0[i], L[i]);
      assert (L[i].cube + R[j].cube) - Mask(s, v) == (L[i].cube - Mask(s, v)) + (R[j].cube - Mask(s, v));
    }
    JoinedNow(s, v, L0, L', i, R[j].cube);
    forall k | 0 <= k < |R| && JoinedTo(s, v, L0, L, R[k].cube)
      ensures JoinedTo(s, v, L0, L', R[k].cube)
    {
      JoinedGrows(s, v, L0, L, L', R[k].cube);
    }
  }

  lemma JoinedNow(s: Space, v: nat, L0: Cover, L: Cover, i: nat, c: Cube)
    requires v < |s.sizes| && |L| == |L0| && i < |L| && L0[i].cube + c <= L[i].cube && Agree(s, v, L0[i].cube, c)
    ensures JoinedTo(s, v, L0, L, c)
  {
  }

  lemma JoinedGrows(s: Space, v: nat, L0: Cover, L: Cover, L': Cover, c: Cube)
    requires v < |s.sizes| && |L0| == |L| == |L'| && JoinedTo(s, v, L0, L, c)
    requires forall i :: 0 <= i < |L| ==> L[i].cube <= L'[i].cube
    ensures JoinedTo(s, v, L0, L', c)
  {
    hide Agree;
    var i :| 0 <= i < |L0| && Agree(s, v, L0[i].cube, c) && L0[i].cube + c <= L[i].cube;
    assert L0[i].cube + c <= L'[i].cube;
  }

  lemma MergeStart(s: Space, v: nat, L: Cover, R: Cover)
    requires v < |s.sizes|
    ensures Merged(s, v, L, R, L, R) && JoinedBehind(s, v, L, R, R, 0, 0)
  {
  }

  /** The first cube of one list comes before all that are left of the other. */
  lemma PassRight(s: Space, v: nat, L0: Cover, R0: Cover, R: Cover, i: nat, j: nat)
    requires v < |s.sizes| && |R| == |R0| && D1Sorted(s, v, L0) && i < |L0| && j < |R0|
    requires JoinedBehind(s, v, L0, R0, R, i, j) && D1Order(s, v, L0[i].cube, R0[j].cube) == 1
    ensures JoinedBehind(s, v, L0, R0, R, i, j + 1)
  {
    hide D1Order, Agree;
    forall x | i <= x < |L0|
      ensures !Agree(s, v, L0[x].cube, R0[j].cube)
    {
      D1Orders(s, v, L0[x].cube, R0[j].cube, L0[i].cube);
      D1Orders(s, v, L0[i].cube, R0[j].cube, L0[x].cube);
      D1Orders(s, v, R0[j].cube, L0[i].cube, L0[x].cube);
      D1Orders(s, v, L0[x].cube, L0[i].cube, R0[j].cube);
    }
  }

  lemma PassLeft(s: Space, v: nat, L0: Cover, R0: Cover, R: Cover, i: nat, j: nat)
    requires v < |s.sizes| && |R| == |R0| && D1Sorted(s, v, R0) && i < |L0| && j < |R0|
    requires JoinedBehind(s, v, L0, R0, R, i, j) && D1Order(s, v, L0[i].cube, R0[j].cube) == -1
    ensures JoinedBehind(s, v, L0, R0, R, i + 1, j)
  {
    hide D1Order, Agree;
    forall y | j <= y < |R0|
      ensures !Agree(s, v, L0[i].cube, R0[y].cube)
    {
      D1Orders(s, v, L0[i].cube, R0[y].cube, R0[j].cube);
      D1Orders(s, v, L0[i].cube, R0[j].cube, R0[y].cube);
      D1Orders(s, v, R0[y].cube, R0[j].cube, L0[i].cube);
    }
  }

  /** Join cubes of the two sorted lists that differ in the variable only. */
  method ComplD1Merge(s: Space, ghost T: CubeList, ghost pos: bool, ghost live: set<nat>, v: nat, L0: Cover, R0: Cover)
      returns (L: Cover, R: Cover)
    requires v < |s.sizes| && AllGood(s, T, pos, live, L0) && AllGood(s, T, pos, live, R0)
    requires D1Sorted(s, v, L0) && D1Sorted(s, v, R0)
    ensures Merged(s, v, L0, R0, L, R) && AllJoined(s, v, L0, R0, R) && AllGood(s, T, pos, live, L)
    ensures forall i, c: Cube | 0 <= i < |L| && (forall j :: 0 <= j < |R0| ==> R0[j].cube <= c) ::
      L[i].cube <= L0[i].cube + c
  {
    hide Good, Merged, Mask, Agree, D1Order, JoinedBehind, D1Sorted;
    L, R := L0, R0;
    MergeStart(s, v, L0, R0);
    var i, j := 0, 0;
    while i < |L| && j < |R|
      invariant 0 <= i <= |L| == |L0| && 0 <= j <= |R| && |R| == |R0|
      invariant Merged(s, v, L0, R0, L, R) && AllGood(s, T, pos, live, L) && JoinedBehind(s, v, L0, R0, R, i, j)
      invariant forall k :: 0 <= k < |R| ==> R[k].cube == R0[k].cube
      invariant forall x, c: Cube | 0 <= x < |L| && (forall y :: 0 <= y < |R0| ==> R0[y].cube <= c) ::
        L[x].cube <= L0[x].cube + c
      decreases |L| - i + |R| - j
    {
      var order := D1Order(s, v, L[i].cube, R[j].cube);
      LeftAgrees(s, v, L0, R0, L, R, i, R[j].cube);
      D1Orders(s, v, L[i].cube, R[j].cube, {});
      if order == 1 {
        PassRight(s, v, L0, R0, R, i, j);
        j := j + 1;
      } else if order == -1 {
        PassLeft(s, v, L0, R0, R, i, j);
        i := i + 1;
      } else {
        assert Good(s, T, pos, live, R0[j].cube);
        JoinGood(s, T, pos, live, v, L[i].cube, R[j].cube);
        MergeStep(s, v, L0, R0, L, R, i, j);
        BehindNow(s, v, L0, R0, R, i, j);
        L, R := L[i := L[i].(cube := L[i].cube + R[j].cube)], R[j := R[j].(active := false)];
        j := j + 1;
      }
    }
    BehindAll(s, v, L0, R0, R, i, j);
  }

  lemma LeftAgrees(s: Space, v: nat, L0: Cover, R0: Cover, L: Cover, R: Cover, i: nat, c: Cube)
    requires v < |s.sizes| && Merged(s, v, L0, R0, L, R) && i < |L|
    ensures i < |L0| && D1Order(s, v, L0[i].cube, c) == D1Order(s, v, L[i].cube, c)
  {
    hide D1Order, Agree, JoinedTo;
    assert Grows(s, v, L0[i], L[i]);
    D1Orders(s, v, L0[i].cube, L[i].cube, c);
  }

  lemma JoinGood(s: Space, T: CubeList, pos: bool, live: set<nat>, v: nat, a: Cube, b: Cube)
    requires v < |s.sizes| && Agree(s, v, a, b) && Good(s, T, pos, live, a) && Good(s, T, pos, live, b)
    ensures Good(s, T, pos, live, a + b)
  {
    hide Good, Mask;
    GoodJoin(s, T, pos, live, v, a, b);
  }

  lemma BehindNow(s: Space, v: nat, L0: Cover, R0: Cover, R: Cover, i: nat, j: nat)
    requires v < |s.sizes| && |R| == |R0| && j < |R| && JoinedBehind(s, v, L0, R0, R, i, j)
    ensures JoinedBehind(s, v, L0, R0, R[j := R[j].(active := false)], i, j + 1)
  {
    hide Agree;
  }

  lemma BehindAll(s: Space, v: nat, L0: Cover, R0: Cover, R: Cover, i: nat, j: nat)
    requires v < |s.sizes| && |R| == |R0| && JoinedBehind(s, v, L0, R0, R, i, j) && (i == |L0| || j == |R0|)
    ensures AllJoined(s, v, L0, R0, R)
  {
    hide Agree;
  }

  // ---- lifting

  /** The parts lift were raised exactly in the active cubes that pass the test. */
  ghost predicate Lifted(A0: Cover, lift: Cube, test: FCube -> bool, A: Cover) {
    |A| == |A0| && forall i :: 0 <= i < |A| ==>
      A[i] == if A0[i].active && test(A0[i]) then A0[i].(cube := A0[i].cube + lift) else A0[i]
  }

  /** The cube, moved in the variable to the parts lift, lies inside a cube of B. */
  ghost predicate MovesInto(s: Space, v: nat, lift: Cube, B: Cover, a: FCube)
    requires v < |s.sizes|
  {
    Within(lift + (a.cube - Mask(s, v)), B)
  }

  /** The cube with the parts lift meets no cube of the list. */
  ghost predicate ClearOf(s: Space, T: CubeList, lift: Cube, a: FCube) {
    forall it :: it in T.items ==> !Meets(s, it.cube + T.cof, a.cube + lift)
  }

  /** Raise the parts of the other side in a cube when, moved there, it lies inside
      a cube of that side. */
  method ComplLift(s: Space, ghost T: CubeList, ghost pos: bool, ghost live: set<nat>, v: nat, A0: Cover, B: Cover,
      bcube: Cube) returns (A: Cover)
    requires v < |s.sizes| && AllGood(s, T, pos, live, A0) && AllGood(s, T, pos, live, B)
    ensures Lifted(A0, bcube * Mask(s, v), a => MovesInto(s, v, bcube * Mask(s, v), B, a), A)
    ensures AllGood(s, T, pos, live, A)
  {
    hide Good, Mask;
    var liftor := bcube * Mask(s, v);
    A := A0;
    var i := 0;
    while i < |A|
      invariant 0 <= i <= |A| == |A0| && AllGood(s, T, pos, live, A)
      invariant Lifted(A0[..i], liftor, a => MovesInto(s, v, liftor, B, a), A[..i]) && A[i..] == A0[i..]
    {
      assert A[i] == A[i..][0] && A0[i] == A0[i..][0];
      ghost var done := A[..i];
      if A[i].active {
        var lift := liftor + (A[i].cube - Mask(s, v));
        var j := 0;
        while j < |B| && !(lift <= B[j].cube)
          invariant 0 <= j <= |B| && forall k :: 0 <= k < j ==> !(lift <= B[k].cube)
          decreases |B| - j
        {
          j := j + 1;
        }
        if j < |B| {
          GoodLift(s, T, pos, live, v, A[i].cube, B[j].cube, liftor);
          A := A[i := A[i].(cube := A[i].cube + liftor)];
        }
      }
      assert A[..i + 1] == done + [A[i]] && A0[..i + 1] == A0[..i] + [A0[i]];
      i := i + 1;
    }
    assert A[..i] == A && A0[..i] == A0;
  }

  /** Raise the parts of the other side in a cube of the complement when that meets
      no cube of the list. */
  method ComplLiftOnset(s: Space, T: CubeList, ghost live: set<nat>, v: nat, A0: Cover, bcube: Cube) returns (A: Cover)
    requires v < |s.sizes| && AllGood(s, T, false, live, A0) && bcube <= Full(s)
    ensures Lifted(A0, bcube * Mask(s, v), a => ClearOf(s, T, bcube * Mask(s, v), a), A)
    ensures AllGood(s, T, false, live, A)
  {
    hide Good, Mask, Full, Meets;
    ghost var parts := bcube * Mask(s, v);
    A := A0;
    var i := 0;
    while i < |A|
      invariant 0 <= i <= |A| == |A0| && AllGood(s, T, false, live, A)
      invariant Lifted(A0[..i], parts, a => ClearOf(s, T, parts, a), A[..i]) && A[i..] == A0[i..]
    {
      assert A[i] == A[i..][0] && A0[i] == A0[i..][0];
      ghost var done := A[..i];
      if A[i].active {
        var lift := A[i].cube + bcube * Mask(s, v);
        var met := MeetsSome(s, T, lift);
        if !met {
          GoodFull(s, T, false, live, A[i].cube);
          GoodLiftOnset(s, T, live, A[i].cube, lift);
          A := A[i := A[i].(cube := lift, active := true)];
        }
      }
      assert A[..i + 1] == done + [A[i]] && A0[..i + 1] == A0[..i] + [A0[i]];
      i := i + 1;
    }
    assert A[..i] == A && A0[..i] == A0;
  }

  lemma GoodFull(s: Space, T: CubeList, pos: bool, live: set<nat>, c: Cube)
    requires Good(s, T, pos, live, c)
    ensures c <= Full(s)
  {
  }

  method MeetsSome(s: Space, T: CubeList, c: Cube) returns (met: bool)
    ensures met <==> exists it :: it in T.items && Meets(s, it.cube + T.cof, c)
  {
    hide Meets;
    var i := 0;
    while i < |T.items|
      invariant 0 <= i <= |T.items| && forall it :: it in T.items[..i] ==> !Meets(s, it.cube + T.cof, c)
    {
      if Meets(s, T.items[i].cube + T.cof, c) {
        return true;
      }
      assert T.items[..i + 1] == T.items[..i] + [T.items[i]];
      i := i + 1;
    }
    assert T.items[..i] == T.items;
    met := false;
  }

  // ---- the merge

  datatype Lifting = UseComplLift | UseComplLiftOnset | NoLifting

  /** Whether the cube may be raised by the parts lift, under the lifting chosen. */
  ghost predicate Passes(s: Space, T: CubeList, v: nat, lifting: Lifting, lift: Cube, other: Cover, a: FCube)
    requires v < |s.sizes|
  {
    match lifting
    case UseComplLift => MovesInto(s, v, lift, other, a)
    case UseComplLiftOnset => ClearOf(s, T, lift, a)
    case NoLifting => false
  }

  ghost predicate AgreesSome(s: Space, v: nat, L: Cover, c: Cube)
    requires v < |s.sizes|
  {
    exists l :: l in L && Agree(s, v, l.cube, c)
  }

  /** Some cube of B holds c together with a cube of L that agrees with it. */
  ghost predicate JoinedIn(s: Space, v: nat, L: Cover, B: Cover, c: Cube)
    requires v < |s.sizes|
  {
    exists l :: l in L && Agree(s, v, l.cube, c) && Within(l.cube + c, B)
  }

  /** b is a cube of L, or one of R with which none of L agrees, raised in the variable. */
  ghost predicate GrownFrom(s: Space, v: nat, L: Cover, R: Cover, b: Cube)
    requires v < |s.sizes|
  {
    || (exists l :: l in L && Agree(s, v, l.cube, b) && l.cube <= b)
    || (exists r :: r in R && Agree(s, v, r.cube, b) && r.cube <= b && !AgreesSome(s, v, L, r.cube))
  }

  /** B is the merge of L and R: cubes of both that agree were joined, the others were
      raised if they pass the test, and there is nothing else. */
  ghost predicate MergeOf(s: Space, T: CubeList, v: nat, L: Cover, R: Cover, cl: Cube, cr: Cube, lifting: Lifting,
      B: Cover)
    requires v < |s.sizes|
  {
    && (forall b :: b in B ==> GrownFrom(s, v, L, R, b.cube))
    && (forall l, r :: l in L && r in R && Agree(s, v, l.cube, r.cube) ==> JoinedIn(s, v, L, B, r.cube))
    && (forall l :: l in L && Passes(s, T, v, lifting, cr * Mask(s, v), R, l) ==> Within(l.cube + cr * Mask(s, v), B))
    && (forall r :: r in R && !AgreesSome(s, v, L, r.cube) && Passes(s, T, v, lifting, cl * Mask(s, v), L, r) ==>
          Within(r.cube + cl * Mask(s, v), B))
  }

  /** The order of the cubes does not matter. */
  lemma OrderedMerge(s: Space, T: CubeList, v: nat, L0: Cover, R0: Cover, L: Cover, R: Cover, cl: Cube, cr: Cube,
      lifting: Lifting, B: Cover)
    requires v < |s.sizes| && MergeOf(s, T, v, L, R, cl, cr, lifting, B)
    requires (forall c :: c in L0 <==> c in L) && forall c :: c in R0 <==> c in R
    requires Inside(L0, L) && Inside(R0, R)
    ensures MergeOf(s, T, v, L0, R0, cl, cr, lifting, B)
  {
    hide Agree, Inside, ClearOf, Within;
    forall c: Cube
      ensures Within(c, L0) ==> Within(c, L)
      ensures Within(c, R0) ==> Within(c, R)
    {
      if Within(c, L0) {
        WithinInside(c, L0, L);
      }
      if Within(c, R0) {
        WithinInside(c, R0, R);
      }
    }
    forall c: Cube
      ensures AgreesSome(s, v, L0, c) <==> AgreesSome(s, v, L, c)
    {
    }
  }

  /** After the join and the lift of the left list: its cubes have grown in the
      variable, up to the parts that were to be lifted. */
  ghost predicate LeftDone(s: Space, T: CubeList, v: nat, L2: Cover, R2: Cover, cr: Cube, lifting: Lifting, L: Cover)
    requires v < |s.sizes|
  {
    && |L| == |L2| && (forall i :: 0 <= i < |L| ==> Grows(s, v, L2[i], L[i]))
    && (forall i :: 0 <= i < |L| && Passes(s, T, v, lifting, cr * Mask(s, v), R2, L2[i]) ==>
          L2[i].cube + cr * Mask(s, v) <= L[i].cube)
  }

  /** After both steps the right list keeps the cubes that were not joined. */
  ghost predicate RightDone(s: Space, T: CubeList, v: nat, L2: Cover, R2: Cover, cl: Cube, lifting: Lifting, R: Cover)
    requires v < |s.sizes|
  {
    && |R| == |R2| && (forall j :: 0 <= j < |R| ==> R2[j].cube <= R[j].cube && Agree(s, v, R2[j].cube, R[j].cube))
    && (forall j :: 0 <= j < |R| ==> (R[j].active <==> !AgreesSome(s, v, L2, R2[j].cube)))
    && (forall j :: 0 <= j < |R| && R[j].active && Passes(s, T, v, lifting, cl * Mask(s, v), L2, R2[j]) ==>
          R2[j].cube + cl * Mask(s, v) <= R[j].cube)
  }

  lemma MergeDone(s: Space, T: CubeList, v: nat, L2: Cover, R2: Cover, cl: Cube, cr: Cube, lifting: Lifting, L3: Cover,
      L: Cover, R: Cover, B: Cover)
    requires v < |s.sizes| && LeftDone(s, T, v, L2, R2, cr, lifting, L) && RightDone(s, T, v, L2, R2, cl, lifting, R)
    requires |L2| == |L3| == |L| && |R| == |R2| && (forall i :: 0 <= i < |L| ==> L3[i].cube <= L[i].cube)
    requires forall j :: 0 <= j < |R| && !R[j].active ==> JoinedTo(s, v, L2, L3, R2[j].cube)
    requires forall c :: c in B <==> c in L || (c in R && c.active)
    ensures MergeOf(s, T, v, L2, R2, cl, cr, lifting, B)
  {
    hide Agree, Passes, Within, Mask, GrownFrom, JoinedIn, LeftDone, RightDone, AgreesSome, JoinedTo;
    forall b | b in B
      ensures GrownFrom(s, v, L2, R2, b.cube)
    {
      DoneFrom(s, T, v, L2, R2, cl, cr, lifting, L, R, b);
    }
    forall l, r | l in L2 && r in R2 && Agree(s, v, l.cube, r.cube)
      ensures JoinedIn(s, v, L2, B, r.cube)
    {
      DoneJoined(s, T, v, L2, R2, cl, lifting, L3, L, R, B, l, r);
    }
    forall l | l in L2 && Passes(s, T, v, lifting, cr * Mask(s, v), R2, l)
      ensures Within(l.cube + cr * Mask(s, v), B)
    {
      var i := DoneLeft(s, T, v, L2, R2, cr, lifting, L, l);
      WithinElement(l.cube + cr * Mask(s, v), B, L[i]);
    }
    forall r | r in R2 && !AgreesSome(s, v, L2, r.cube) && Passes(s, T, v, lifting, cl * Mask(s, v), L2, r)
      ensures Within(r.cube + cl * Mask(s, v), B)
    {
      var j := DoneRight(s, T, v, L2, R2, cl, lifting, R, r);
      WithinElement(r.cube + cl * Mask(s, v), B, R[j]);
    }
  }

  lemma DoneFrom(s: Space, T: CubeList, v: nat, L2: Cover, R2: Cover, cl: Cube, cr: Cube, lifting: Lifting,
      L: Cover, R: Cover, b: FCube)
    requires v < |s.sizes| && LeftDone(s, T, v, L2, R2, cr, lifting, L) && RightDone(s, T, v, L2, R2, cl, lifting, R)
    requires b in L || (b in R && b.active)
    ensures GrownFrom(s, v, L2, R2, b.cube)
  {
    hide Agree, Passes, Mask, AgreesSome;
    if b in L {
      var i :| 0 <= i < |L| && L[i] == b;
      assert Grows(s, v, L2[i], L[i]) && L2[i] in L2;
    } else {
      var j :| 0 <= j < |R| && R[j] == b;
      assert R2[j] in R2;
    }
  }

  lemma DoneJoined(s: Space, T: CubeList, v: nat, L2: Cover, R2: Cover, cl: Cube, lifting: Lifting, L3: Cover,
      L: Cover, R: Cover, B: Cover, l: FCube, r: FCube)
    requires v < |s.sizes| && RightDone(s, T, v, L2, R2, cl, lifting, R) && l in L2 && r in R2
    requires Agree(s, v, l.cube, r.cube)
    requires |L2| == |L3| == |L| && (forall i :: 0 <= i < |L| ==> L3[i].cube <= L[i].cube)
    requires forall j :: 0 <= j < |R| && !R[j].active ==> JoinedTo(s, v, L2, L3, R2[j].cube)
    requires forall c :: c in L ==> c in B
    ensures JoinedIn(s, v, L2, B, r.cube)
  {
    hide Agree, Passes, Within, Mask;
    var j :| 0 <= j < |R2| && R2[j] == r;
    assert AgreesSome(s, v, L2, r.cube);
    var i :| 0 <= i < |L2| && Agree(s, v, L2[i].cube, r.cube) && L2[i].cube + r.cube <= L3[i].cube;
    assert L[i] in B && L2[i] in L2;
    WithinElement(L2[i].cube + r.cube, B, L[i]);
  }

  lemma DoneLeft(s: Space, T: CubeList, v: nat, L2: Cover, R2: Cover, cr: Cube, lifting: Lifting, L: Cover, l: FCube)
      returns (i: nat)
    requires v < |s.sizes| && LeftDone(s, T, v, L2, R2, cr, lifting, L) && l in L2
    requires Passes(s, T, v, lifting, cr * Mask(s, v), R2, l)
    ensures i < |L| && l.cube + cr * Mask(s, v) <= L[i].cube
  {
    hide Passes, Mask, Grows;
    i :| 0 <= i < |L2| && L2[i] == l;
  }

  lemma DoneRight(s: Space, T: CubeList, v: nat, L2: Cover, R2: Cover, cl: Cube, lifting: Lifting, R: Cover, r: FCube)
      returns (j: nat)
    requires v < |s.sizes| && RightDone(s, T, v, L2, R2, cl, lifting, R) && r in R2
    requires !AgreesSome(s, v, L2, r.cube) && Passes(s, T, v, lifting, cl * Mask(s, v), L2, r)
    ensures j < |R| && R[j].active && r.cube + cl * Mask(s, v) <= R[j].cube
  {
    hide Passes, Mask, Agree;
    j :| 0 <= j < |R2| && R2[j] == r;
  }

  lemma WithinElement(c: Cube, B: Cover, b: FCube)
    requires b in B && c <= b.cube
    ensures Within(c, B)
  {
    var i :| 0 <= i < |B| && B[i] == b;
    assert c <= B[i].cube;
  }

  /** Joining changes nothing about the test of a left cube, whose parts to lift
      include those taken up. */
  lemma JoinedPasses(s: Space, T: CubeList, v: nat, lifting: Lifting, lift: Cube, c: Cube, R2: Cover, R: Cover,
      a2: FCube, a: FCube)
    requires v < |s.sizes| && lift == c * Mask(s, v) && Grows(s, v, a2, a) && a.cube <= a2.cube + c
    requires |R| == |R2| && forall j :: 0 <= j < |R| ==> R[j].cube == R2[j].cube
    requires Passes(s, T, v, lifting, lift, R2, a2)
    ensures Passes(s, T, v, lifting, lift, R, a) && a2.cube + lift == a.cube + lift
  {
    hide Mask, Meets;
    assert a2.cube + lift == a.cube + lift by {
      forall p | p in a.cube
        ensures p in a2.cube + lift
      {
        assert p in a.cube - Mask(s, v) || p in Mask(s, v);
        assert p in a2.cube - Mask(s, v) || p !in a.cube - Mask(s, v);
      }
    }
    if lifting == UseComplLift {
      var x := lift + (a2.cube - Mask(s, v));
      var j :| 0 <= j < |R2| && x <= R2[j].cube;
      assert x <= R[j].cube;
    }
  }

  lemma LeftIsDone(s: Space, T: CubeList, v: nat, L2: Cover, R2: Cover, L3: Cover, R3: Cover, cr: Cube,
      lifting: Lifting, L: Cover)
    requires v < |s.sizes| && Merged(s, v, L2, R2, L3, R3) && (forall i :: 0 <= i < |L2| ==> L2[i].active)
    requires forall i :: 0 <= i < |L3| ==> L3[i].cube <= L2[i].cube + cr
    requires Lifted(L3, cr * Mask(s, v), a => Passes(s, T, v, lifting, cr * Mask(s, v), R3, a), L)
    ensures LeftDone(s, T, v, L2, R2, cr, lifting, L)
    ensures forall i :: 0 <= i < |L| ==> L3[i].cube <= L[i].cube
  {
    hide Mask, Passes, JoinedTo;
    forall i | 0 <= i < |L|
      ensures Grows(s, v, L2[i], L[i])
      ensures Passes(s, T, v, lifting, cr * Mask(s, v), R2, L2[i]) ==> L2[i].cube + cr * Mask(s, v) <= L[i].cube
    {
      assert Grows(s, v, L2[i], L3[i]);
      LiftAgrees(s, v, L3[i].cube, cr);
      if Passes(s, T, v, lifting, cr * Mask(s, v), R2, L2[i]) {
        JoinedPasses(s, T, v, lifting, cr * Mask(s, v), cr, R2, R3, L2[i], L3[i]);
      }
    }
  }

  lemma LiftAgrees(s: Space, v: nat, a: Cube, c: Cube)
    requires v < |s.sizes|
    ensures Agree(s, v, a, a + c * Mask(s, v))
  {
    hide Mask;
    assert (a + c * Mask(s, v)) - Mask(s, v) == a - Mask(s, v);
  }

  lemma RightIsDone(s: Space, T: CubeList, v: nat, L2: Cover, R2: Cover, L3: Cover, R3: Cover, cl: Cube,
      lifting: Lifting, L: Cover, R: Cover)
    requires v < |s.sizes| && Merged(s, v, L2, R2, L3, R3) && AllJoined(s, v, L2, R2, R3)
    requires (forall j :: 0 <= j < |R2| ==> R2[j].active) && |L| == |L2|
    requires forall i :: 0 <= i < |L| ==> L2[i].cube <= L[i].cube
    requires Lifted(R3, cl * Mask(s, v), a => Passes(s, T, v, lifting, cl * Mask(s, v), L, a), R)
    ensures RightDone(s, T, v, L2, R2, cl, lifting, R)
  {
    hide Mask, Agree, Grows;
    forall j | 0 <= j < |R|
      ensures R2[j].cube <= R[j].cube && Agree(s, v, R2[j].cube, R[j].cube)
      ensures R[j].active <==> !AgreesSome(s, v, L2, R2[j].cube)
      ensures R[j].active && Passes(s, T, v, lifting, cl * Mask(s, v), L2, R2[j]) ==>
        R2[j].cube + cl * Mask(s, v) <= R[j].cube
    {
      LiftAgrees(s, v, R2[j].cube, cl);
      SelfAgrees(s, v, R2[j].cube);
      RightActive(s, v, L2, R2, L3, R3, j);
      if R[j].active && Passes(s, T, v, lifting, cl * Mask(s, v), L2, R2[j]) {
        WiderPasses(s, T, v, lifting, cl * Mask(s, v), L2, L, R2[j], R3[j]);
      }
    }
  }

  lemma SelfAgrees(s: Space, v: nat, a: Cube)
    requires v < |s.sizes|
    ensures Agree(s, v, a, a)
  {
  }

  lemma RightActive(s: Space, v: nat, L2: Cover, R2: Cover, L3: Cover, R3: Cover, j: nat)
    requires v < |s.sizes| && Merged(s, v, L2, R2, L3, R3) && AllJoined(s, v, L2, R2, R3) && j < |R2| && R2[j].active
    ensures R3[j].active <==> !AgreesSome(s, v, L2, R2[j].cube)
  {
    hide Agree, Grows;
    if !R3[j].active {
      var i :| 0 <= i < |L2| && Agree(s, v, L2[i].cube, R2[j].cube) && L2[i].cube + R2[j].cube <= L3[i].cube;
      assert L2[i] in L2;
    } else {
      forall l | l in L2
        ensures !Agree(s, v, l.cube, R2[j].cube)
      {
        var i :| 0 <= i < |L2| && L2[i] == l;
      }
    }
  }

  lemma WiderPasses(s: Space, T: CubeList, v: nat, lifting: Lifting, lift: Cube, L2: Cover, L: Cover, a: FCube,
      a': FCube)
    requires v < |s.sizes| && Passes(s, T, v, lifting, lift, L2, a) && a'.cube == a.cube
    requires |L| == |L2| && forall i :: 0 <= i < |L| ==> L2[i].cube <= L[i].cube
    ensures Passes(s, T, v, lifting, lift, L, a')
  {
    hide Mask, Meets;
    if lifting == UseComplLift {
      var x := lift + (a.cube - Mask(s, v));
      var j :| 0 <= j < |L2| && x <= L2[j].cube;
      assert x <= L[j].cube;
    }
  }

  /** Growing the cubes loses no minterm. */
  lemma CompleteGrows(s: Space, T: CubeList, pos: bool, L0: Cover, R0: Cover, L: Cover, R: Cover)
    requires Complete(s, T, pos, L0, R0) && |L| == |L0| && |R| == |R0|
    requires forall i :: 0 <= i < |L| ==> L0[i].cube <= L[i].cube
    requires forall j :: 0 <= j < |R| ==> R0[j].cube <= R[j].cube
    requires forall j :: 0 <= j < |R| && R0[j].active && !R[j].active ==> Within(R0[j].cube, L)
    ensures Complete(s, T, pos, L, R)
  {
    hide Covers, Outside, Within;
    forall m | Outside(s, T.cof, m) && (Covers(T.items, m) <==> pos)
      ensures Holds(L, R, m)
    {
      assert Holds(L0, R0, m);
      HoldsGrows(L0, R0, L, R, m);
    }
  }

  lemma HoldsGrows(L0: Cover, R0: Cover, L: Cover, R: Cover, m: Minterm)
    requires Holds(L0, R0, m) && |L| == |L0| && |R| == |R0|
    requires forall i :: 0 <= i < |L| ==> L0[i].cube <= L[i].cube
    requires forall j :: 0 <= j < |R| ==> R0[j].cube <= R[j].cube
    requires forall j :: 0 <= j < |R| && R0[j].active && !R[j].active ==> Within(R0[j].cube, L)
    ensures Holds(L, R, m)
  {
    hide In;
    if Has(L0, m) {
      var i :| 0 <= i < |L0| && In(m, L0[i].cube);
      InWider(m, L0[i].cube, L[i].cube);
    } else {
      var j :| 0 <= j < |R0| && R0[j].active && In(m, R0[j].cube);
      InWider(m, R0[j].cube, R[j].cube);
      if !R[j].active {
        var i :| 0 <= i < |L| && R0[j].cube <= L[i].cube;
        InWider(m, R0[j].cube, L[i].cube);
      }
    }
  }

  /** The order of the cubes does not matter. */
  lemma OrderedComplete(s: Space, T: CubeList, pos: bool, live: set<nat>, L0: Cover, R0: Cover, L: Cover, R: Cover)
    requires Complete(s, T, pos, L0, R0) && AllGood(s, T, pos, live, L0) && AllGood(s, T, pos, live, R0)
    requires multiset(L) == multiset(L0) && multiset(R) == multiset(R0)
    ensures Complete(s, T, pos, L, R) && AllGood(s, T, pos, live, L) && AllGood(s, T, pos, live, R)
  {
    hide Covers, Outside, Has, Good, Holds, Valid, Inside;
    ReorderedFacts(s, L0, L);
    ReorderedFacts(s, R0, R);
    forall m | Outside(s, T.cof, m) && (Covers(T.items, m) <==> pos)
      ensures Holds(L, R, m)
    {
      OrderedHolds(L0, R0, L, R, m);
    }
    OrderedGood(s, T, pos, live, L0, L);
    OrderedGood(s, T, pos, live, R0, R);
  }

  lemma OrderedHolds(L0: Cover, R0: Cover, L: Cover, R: Cover, m: Minterm)
    requires Holds(L0, R0, m) && (Has(L0, m) ==> Has(L, m)) && forall c :: c in R0 ==> c in R
    ensures Holds(L, R, m)
  {
    hide In;
    if !Has(L0, m) {
      var j :| 0 <= j < |R0| && R0[j].active && In(m, R0[j].cube);
      assert R0[j] in R;
      var k :| 0 <= k < |R| && R[k] == R0[j];
    }
  }

  lemma OrderedGood(s: Space, T: CubeList, pos: bool, live: set<nat>, L0: Cover, L: Cover)
    requires AllGood(s, T, pos, live, L0) && forall c :: c in L ==> c in L0
    ensures AllGood(s, T, pos, live, L)
  {
    hide Good;
    forall i | 0 <= i < |L|
      ensures Good(s, T, pos, live, L[i].cube)
    {
      assert L[i] in L0;
      var k :| 0 <= k < |L0| && L0[k] == L[i];
    }
  }

  /** All of L and the active cubes of R. */
  method Collect(L: Cover, R: Cover) returns (B: Cover)
    ensures |B| <= |L| + |R|
    ensures forall c :: c in B <==> c in L || (c in R && c.active)
  {
    B := L;
    var j := 0;
    while j < |R|
      invariant 0 <= j <= |R| && |B| <= |L| + j
      invariant forall c :: c in B <==> c in L || (c in R[..j] && c.active)
    {
      assert R[..j + 1] == R[..j] + [R[j]];
      if R[j].active {
        B := B + [R[j]];
      }
      j := j + 1;
    }
    assert R[..j] == R;
  }

  lemma CollectExact(s: Space, T: CubeList, pos: bool, live: set<nat>, L: Cover, R: Cover, B: Cover)
    requires AllGood(s, T, pos, live, L) && AllGood(s, T, pos, live, R) && Complete(s, T, pos, L, R)
    requires forall c :: c in B <==> c in L || (c in R && c.active)
    ensures Exact(s, T, pos, B) && AllGood(s, T, pos, live, B)
  {
    hide Good, Covers, Outside, In;
    forall i | 0 <= i < |B|
      ensures Good(s, T, pos, live, B[i].cube)
    {
      assert B[i] in B;
      GoodElement(s, T, pos, live, L, R, B[i]);
    }
    forall m | Outside(s, T.cof, m)
      ensures Has(B, m) <==> (Covers(T.items, m) <==> pos)
    {
      if i :| 0 <= i < |B| && In(m, B[i].cube) {
        GoodSound(s, T, pos, live, B[i].cube, m);
      }
      if Covers(T.items, m) <==> pos {
        CollectHolds(L, R, B, m);
      }
    }
  }

  lemma GoodElement(s: Space, T: CubeList, pos: bool, live: set<nat>, L: Cover, R: Cover, c: FCube)
    requires AllGood(s, T, pos, live, L) && AllGood(s, T, pos, live, R) && (c in L || c in R)
    ensures Good(s, T, pos, live, c.cube)
  {
    hide Good;
    if c in L {
      var i :| 0 <= i < |L| && L[i] == c;
    } else {
      var j :| 0 <= j < |R| && R[j] == c;
    }
  }

  lemma GoodSound(s: Space, T: CubeList, pos: bool, live: set<nat>, c: Cube, m: Minterm)
    requires Good(s, T, pos, live, c) && Outside(s, T.cof, m) && In(m, c)
    ensures Covers(T.items, m) <==> pos
  {
    hide Covers, Outside, In, Full, ValuedIn;
  }

  lemma CollectHolds(L: Cover, R: Cover, B: Cover, m: Minterm)
    requires Holds(L, R, m) && forall c :: c in B <==> c in L || (c in R && c.active)
    ensures Has(B, m)
  {
    hide In;
    var c: FCube;
    if Has(L, m) {
      var i :| 0 <= i < |L| && In(m, L[i].cube);
      c := L[i];
    } else {
      var j :| 0 <= j < |R| && R[j].active && In(m, R[j].cube);
      c := R[j];
    }
    assert c in B;
    var k :| 0 <= k < |B| && B[k] == c;
  }

  /** Merge the results of both halves: restrict, join, lift and collect.  The result
      is exact for the whole list. */
  method ComplMerge(s: Space, T: CubeList, ghost pos: bool, ghost live: set<nat>, L0: Cover, R0: Cover, cl: Cube,
      cr: Cube, v: nat, lifting: Lifting, ghost HL: CubeList, ghost HR: CubeList) returns (B: Cover)
    requires v < |s.sizes| && SplitOf(s, T.cof, v, cl, cr)
    requires HalfOf(s, T, cl, v, HL) && HalfOf(s, T, cr, v, HR)
    requires Exact(s, HL, pos, L0) && Exact(s, HR, pos, R0) && Valid(s, L0) && Valid(s, R0)
    requires LiveCubes(s, live, HL.cof, L0) && LiveCubes(s, live, HR.cof, R0)
    requires lifting == UseComplLiftOnset ==> !pos
    ensures Exact(s, T, pos, B) && AllGood(s, T, pos, live, B) && |B| <= |L0| + |R0|
    ensures MergeOf(s, T, v, Halved(L0, cl), Halved(R0, cr), cl, cr, lifting, B)
  {
    hide Exact, HalfOf, AllGood, Complete, Full, LiveCubes, Valid, Merged, MergeOf, D1Sorted, Halved, Inside;
    var L1 := Halve(L0, cl);
    var R1 := Halve(R0, cr);
    HalveGood(s, T, pos, live, v, cl, HL, L0, L1);
    HalveGood(s, T, pos, live, v, cr, HR, R0, R1);
    HalvesComplete(s, T, pos, v, cl, cr, HL, HR, L0, R0, L1, R1);
    var L2 := D1Sort(s, v, L1);
    var R2 := D1Sort(s, v, R1);
    OrderedComplete(s, T, pos, live, L1, R1, L2, R2);
    SplitFull(s, T.cof, v, cl, cr);
    SortedHalf(s, L0, cl, L1, L2);
    SortedHalf(s, R0, cr, R1, R2);
    B := JoinAndLift(s, T, pos, live, L2, R2, cl, cr, v, lifting);
    OrderedMerge(s, T, v, L1, R1, L2, R2, cl, cr, lifting, B);
  }

  lemma SortedHalf(s: Space, L0: Cover, c: Cube, L1: Cover, L2: Cover)
    requires L1 == Halved(L0, c) && multiset(L2) == multiset(L1) && |L2| == |L1|
    ensures (forall x :: x in L1 <==> x in L2) && Inside(L1, L2)
    ensures forall i :: 0 <= i < |L2| ==> L2[i].active && L2[i].cube <= c
  {
    hide Valid, Has, Inside;
    ReorderedFacts(s, L1, L2);
    forall i | 0 <= i < |L2|
      ensures L2[i].active && L2[i].cube <= c
    {
      assert L2[i] in L2 && L2[i] in L1;
      var k :| 0 <= k < |L1| && L1[k] == L2[i];
    }
  }

  lemma SplitFull(s: Space, cof: Cube, v: nat, cl: Cube, cr: Cube)
    requires v < |s.sizes| && SplitOf(s, cof, v, cl, cr)
    ensures cl <= Full(s) && cr <= Full(s)
  {
  }

  method JoinAndLift(s: Space, T: CubeList, ghost pos: bool, ghost live: set<nat>, L2: Cover, R2: Cover, cl: Cube,
      cr: Cube, v: nat, lifting: Lifting) returns (B: Cover)
    requires v < |s.sizes| && cl <= Full(s) && cr <= Full(s) && D1Sorted(s, v, L2) && D1Sorted(s, v, R2)
    requires AllGood(s, T, pos, live, L2) && AllGood(s, T, pos, live, R2) && Complete(s, T, pos, L2, R2)
    requires forall i :: 0 <= i < |L2| ==> L2[i].active && L2[i].cube <= cl
    requires forall j :: 0 <= j < |R2| ==> R2[j].active && R2[j].cube <= cr
    requires lifting == UseComplLiftOnset ==> !pos
    ensures Exact(s, T, pos, B) && AllGood(s, T, pos, live, B) && |B| <= |L2| + |R2|
    ensures MergeOf(s, T, v, L2, R2, cl, cr, lifting, B)
  {
    hide Exact, AllGood, Complete, Full, Agree, D1Sorted, MovesInto, ClearOf, AllJoined, LeftDone, RightDone, MergeOf,
      JoinedTo;
    var L3, R3 := ComplD1Merge(s, T, pos, live, v, L2, R2);
    SameGood(s, T, pos, live, R2, R3);
    JoinedWithin(s, v, L2, R2, L3, R3);
    CompleteGrows(s, T, pos, L2, R2, L3, R3);
    var L, R := L3, R3;
    if lifting == UseComplLiftOnset {
      L := ComplLiftOnset(s, T, live, v, L, cr);
      R := ComplLiftOnset(s, T, live, v, R, cl);
    } else if lifting == UseComplLift {
      L := ComplLift(s, T, pos, live, v, L, R, cr);
      R := ComplLift(s, T, pos, live, v, R, L, cl);
    }
    LeftIsDone(s, T, v, L2, R2, L3, R3, cr, lifting, L);
    RightIsDone(s, T, v, L2, R2, L3, R3, cl, lifting, L, R);
    CompleteGrows(s, T, pos, L3, R3, L, R);
    B := Collect(L, R);
    CollectExact(s, T, pos, live, L, R, B);
    MergeDone(s, T, v, L2, R2, cl, cr, lifting, L3, L, R, B);
  }

  lemma JoinedWithin(s: Space, v: nat, L2: Cover, R2: Cover, L: Cover, R: Cover)
    requires v < |s.sizes| && Merged(s, v, L2, R2, L, R)
    ensures forall j :: 0 <= j < |R| && R2[j].active && !R[j].active ==> Within(R2[j].cube, L)
  {
    hide Agree, Grows;
    forall j | 0 <= j < |R| && R2[j].active && !R[j].active
      ensures Within(R2[j].cube, L)
    {
      var i :| 0 <= i < |L2| && Agree(s, v, L2[i].cube, R2[j].cube) && L2[i].cube + R2[j].cube <= L[i].cube;
      assert R2[j].cube <= L[i].cube;
    }
  }

  lemma SameGood(s: Space, T: CubeList, pos: bool, live: set<nat>, R0: Cover, R: Cover)
    requires AllGood(s, T, pos, live, R0) && |R| == |R0| && forall j :: 0 <= j < |R| ==> R[j].cube == R0[j].cube
    ensures AllGood(s, T, pos, live, R)
  {
    hide Good;
    forall j | 0 <= j < |R|
      ensures Good(s, T, pos, live, R[j].cube)
    {
      assert Good(s, T, pos, live, R0[j].cube);
    }
  }
}
