/** Removing duplicate and contained cubes from a cover, in place on a sorted
    array. */
module Containment {
  import opened Cubes
  import opened Counting
  import opened Families
  import opened SetOrder
  import opened Selections

  // ---- the sort

  /** No cube comes before an earlier one in the order by size and bits. */
  ghost predicate InOrder(S: Cover) {
    forall i, j :: 0 <= i < j < |S| ==> !Before(Stamp(S[j]), Stamp(S[i]))
  }

  /** Sizes do not increase, and equal cubes stand next to each other. */
  ghost predicate Descending(S: Cover) {
    && (forall i, j :: 0 <= i < j < |S| ==> |S[i].cube| >= |S[j].cube|)
    && (forall i, j, k :: 0 <= i < j < k < |S| && S[i].cube == S[k].cube ==> S[j].cube == S[i].cube)
  }

  lemma InOrderDescending(S: Cover)
    requires InOrder(S)
    ensures Descending(S)
  {
    hide Exceeds;
    forall i, j, k | 0 <= i < j < k < |S| && S[i].cube == S[k].cube
      ensures S[j].cube == S[i].cube
    {
      DescendOrder(Stamp(S[i]), Stamp(S[j]), Stamp(S[k]));
      DescendOrder(Stamp(S[j]), Stamp(S[k]), Stamp(S[i]));
    }
    forall i, j | 0 <= i < j < |S|
      ensures |S[i].cube| >= |S[j].cube|
    {
      assert !Before(Stamp(S[j]), Stamp(S[i]));
    }
  }

  /** Where x goes: after the cubes before it. */
  ghost predicate Place(S: Cover, x: FCube, n: nat) {
    && n <= |S|
    && (forall i :: 0 <= i < n ==> Before(Stamp(S[i]), Stamp(x)))
    && (n < |S| ==> !Before(Stamp(S[n]), Stamp(x)))
  }

  lemma PlaceInOrder(S: Cover, x: FCube, n: nat)
    requires InOrder(S) && Place(S, x, n)
    ensures InOrder(S[..n] + [x] + S[n..])
  {
    hide Before;
    var r := S[..n] + [x] + S[n..];
    forall i, j | 0 <= i < j < |r|
      ensures !Before(Stamp(r[j]), Stamp(r[i]))
    {
      if j == n {
        BeforeOneWay(Stamp(S[i]), Stamp(x));
      } else if i == n && j > n + 1 {
        assert !Before(Stamp(S[j - 1]), Stamp(S[n]));
        NotBeforeTransitive(Stamp(x), Stamp(S[n]), Stamp(S[j - 1]));
      }
    }
  }

  lemma BeforeOneWay(x: Sized, y: Sized)
    requires Before(x, y)
    ensures !Before(y, x)
  {
    DescendOrder(x, y, x);
  }

  lemma NotBeforeTransitive(x: Sized, y: Sized, z: Sized)
    requires !Before(y, x) && !Before(z, y)
    ensures !Before(z, x)
  {
    hide Exceeds;
    DescendOrder(x, y, z);
    DescendOrder(z, x, y);
    DescendOrder(y, z, x);
  }

  /** Sort a cover by size and bits. */
  method SfSort(F: Cover) returns (S: Cover)
    ensures multiset(S) == multiset(F) && InOrder(S)
  {
    hide InOrder, Place;
    S := [];
    EmptyInOrder();
    var i := 0;
    while i < |F|
      invariant 0 <= i <= |F| && InOrder(S) && multiset(S) == multiset(F[..i])
    {
      var n := FindPlace(S, F[i]);
      PlaceInOrder(S, F[i], n);
      PlaceKeeps(S, F[i], n);
      assert F[..i + 1] == F[..i] + [F[i]];
      S := S[..n] + [F[i]] + S[n..];
      i := i + 1;
    }
    assert F[..i] == F;
  }

  method FindPlace(S: Cover, x: FCube) returns (n: nat)
    ensures Place(S, x, n)
  {
    hide Before;
    n := 0;
    while n < |S| && Before(Stamp(S[n]), Stamp(x))
      invariant n <= |S|
      invariant forall i :: 0 <= i < n ==> Before(Stamp(S[i]), Stamp(x))
      decreases |S| - n
    {
      n := n + 1;
    }
  }

  lemma EmptyInOrder()
    ensures InOrder([])
  {
  }

  lemma PlaceKeeps(S: Cover, x: FCube, n: nat)
    requires Place(S, x, n)
    ensures n <= |S| && multiset(S[..n] + [x] + S[n..]) == multiset(S + [x])
  {
    assert S == S[..n] + S[n..];
  }

  // ---- removing duplicates

  /** No cube occurs twice. */
  ghost predicate Distinct(S: Cover) {
    forall i, j :: 0 <= i < j < |S| ==> S[i].cube != S[j].cube
  }

  /** Every cube of S is a cube of F, flags included, and the other way round up
      to the flags. */
  ghost predicate SameCubes(F: Cover, S: Cover) {
    && (forall i :: 0 <= i < |S| ==> S[i] in F)
    && (forall i :: 0 <= i < |F| ==> HasCube(S, F[i].cube))
  }

  ghost predicate HasCube(S: Cover, c: Cube) {
    exists j :: 0 <= j < |S| && S[j].cube == c
  }

  /** What the scan of rm_equal has written after comparing up to position p. */
  ghost predicate Compacted(S: Cover, p: nat, kept: Cover)
    requires 1 <= p <= |S|
  {
    && |kept| < p
    && Distinct(kept + [S[p - 1]])
    && (forall i :: 0 <= i < |kept| ==> kept[i] in S[..p - 1])
    && (forall i :: 0 <= i < p ==> HasCube(kept + [S[p - 1]], S[i].cube))
  }

  /** Drop the duplicates of a sorted array; the result is its first n cubes. */
  method RmEqual(a: array<FCube>) returns (n: nat)
    requires InOrder(a[..])
    modifies a
    ensures n <= a.Length && Distinct(a[..n]) && SameCubes(old(a[..]), a[..n])
    ensures InOrder(a[..n])
  {
    hide InOrder, Descending, Compacted, Distinct, SameCubes, Picked;
    ghost var S := a[..];
    InOrderDescending(S);
    if a.Length == 0 {
      NothingSame();
      assert S == [] && a[..0] == [];
      return 0;
    }
    n := 0;
    var p := 1;
    CompactStart(S);
    while p < a.Length
      invariant 1 <= p <= a.Length && n < p
      invariant Compacted(S, p, a[..n])
      invariant forall i :: p - 1 <= i < a.Length ==> a[i] == S[i]
      invariant Picked(S, p - 1, a[..n])
    {
      if a[p].cube != a[p - 1].cube {
        ghost var done := a[..n];
        CompactNew(S, p, done);
        PickStep(S, p - 1, done);
        a[n] := a[p - 1];
        n := n + 1;
        assert a[..n] == done + [S[p - 1]];
      } else {
        CompactSame(S, p, a[..n]);
        PickSkip(S, p - 1, a[..n]);
      }
      p := p + 1;
    }
    ghost var kept := a[..n];
    a[n] := a[p - 1];
    n := n + 1;
    assert a[..n] == kept + [S[p - 1]];
    CompactEnd(S, kept);
    PickStep(S, p - 1, kept);
    PickInOrder(S, |S|, a[..n]);
  }

  lemma PickInOrder(S: Cover, p: nat, kept: Cover)
    requires InOrder(S) && Picked(S, p, kept)
    ensures InOrder(kept)
  {
    hide Before;
    var from :| Selects(S, p, kept, from);
    forall i, j | 0 <= i < j < |kept|
      ensures !Before(Stamp(kept[j]), Stamp(kept[i]))
    {
      assert from[i] < from[j];
    }
  }

  lemma NothingSame()
    ensures Distinct([]) && SameCubes([], []) && InOrder([])
  {
  }

  lemma CompactStart(S: Cover)
    requires S != []
    ensures Compacted(S, 1, []) && Picked(S, 0, [])
  {
    assert Selects(S, 0, [], []);
    assert ([] + [S[0]])[0].cube == S[0].cube;
  }

  lemma CompactNew(S: Cover, p: nat, kept: Cover)
    requires 1 <= p < |S| && Descending(S) && Compacted(S, p, kept) && S[p].cube != S[p - 1].cube
    ensures Compacted(S, p + 1, kept + [S[p - 1]])
  {
    hide Descending, HasCube;
    var done := kept + [S[p - 1]];
    forall i | 0 <= i < |done|
      ensures done[i].cube != S[p].cube && done[i] in S[..p]
    {
      if i < |kept| {
        assert kept[i] in S[..p - 1];
        NotAgain(S, p, kept[i]);
      } else {
        assert S[..p][p - 1] == S[p - 1];
      }
    }
    forall i | 0 <= i <= p
      ensures HasCube(done + [S[p]], S[i].cube)
    {
      StillHas(done, S[p], S[i].cube);
    }
  }

  lemma StillHas(kept: Cover, x: FCube, c: Cube)
    ensures HasCube(kept, c) || x.cube == c ==> HasCube(kept + [x], c)
  {
    if HasCube(kept, c) {
      var j :| 0 <= j < |kept| && kept[j].cube == c;
      assert (kept + [x])[j].cube == c;
    }
    if x.cube == c {
      assert (kept + [x])[|kept|].cube == c;
    }
  }

  lemma CompactSame(S: Cover, p: nat, kept: Cover)
    requires 1 <= p < |S| && Compacted(S, p, kept) && S[p].cube == S[p - 1].cube
    ensures Compacted(S, p + 1, kept)
  {
    var done := kept + [S[p - 1]];
    var next := kept + [S[p]];
    assert S[..p] == S[..p - 1] + [S[p - 1]];
    forall i, j | 0 <= i < j < |next|
      ensures next[i].cube != next[j].cube
    {
      assert done[i].cube != done[j].cube;
    }
    forall i | 0 <= i <= p
      ensures HasCube(next, S[i].cube)
    {
      var i' := if i < p then i else p - 1;
      var j :| 0 <= j < |done| && done[j].cube == S[i'].cube;
      assert next[j].cube == S[i].cube;
    }
  }

  lemma NotAgain(S: Cover, p: nat, x: FCube)
    requires 1 <= p < |S| && Descending(S) && S[p].cube != S[p - 1].cube && x in S[..p - 1]
    ensures x.cube != S[p].cube
  {
    var i :| 0 <= i < p - 1 && S[..p - 1][i] == x;
    assert S[i] == x;
  }

  lemma CompactEnd(S: Cover, kept: Cover)
    requires S != [] && Compacted(S, |S|, kept)
    ensures Distinct(kept + [S[|S| - 1]]) && SameCubes(S, kept + [S[|S| - 1]])
  {
    var p := |S|;
    var all := kept + [S[p - 1]];
    forall i | 0 <= i < |all|
      ensures all[i] in S
    {
      if i < |kept| {
        assert kept[i] in S[..p - 1];
      }
    }
  }

  /** Delete the duplicate cubes of a cover. */
  method SfDupl(F: Cover) returns (G: Cover)
    ensures Distinct(G) && SameCubes(F, G) && |G| <= |F|
  {
    hide InOrder, Distinct, SameCubes;
    var S := SfSort(F);
    var a := new FCube[|S|](i requires 0 <= i < |S| => S[i]);
    assert a[..] == S;
    var n := RmEqual(a);
    G := a[..n];
    SortedSame(F, S, G);
  }

  lemma SortedSame(F: Cover, S: Cover, G: Cover)
    requires multiset(S) == multiset(F) && SameCubes(S, G)
    ensures |S| == |F| && SameCubes(F, G)
  {
    hide HasCube;
    assert |multiset(S)| == |multiset(F)|;
    forall i | 0 <= i < |G|
      ensures G[i] in F
    {
      assert G[i] in S;
      assert G[i] in multiset(S);
    }
    forall i | 0 <= i < |F|
      ensures HasCube(G, F[i].cube)
    {
      assert F[i] in multiset(F);
      assert F[i] in S;
      var j :| 0 <= j < |S| && S[j] == F[i];
      assert HasCube(G, S[j].cube);
    }
  }

  lemma SameCubesMeaning(s: Space, F: Cover, G: Cover)
    requires SameCubes(F, G)
    ensures Valid(s, F) ==> Valid(s, G)
    ensures Inside(F, G) && Inside(G, F)
    ensures forall m :: Has(F, m) <==> Has(G, m)
  {
    hide Full, In, Has, Valid, SameCubes, Inside;
    SameFrom(F, G);
    SubcoverFacts(s, F, G);
    SameInside(F, G);
    forall m | Has(F, m)
      ensures Has(G, m)
    {
      InsideHas(F, G, m);
    }
  }

  lemma SameFrom(F: Cover, G: Cover)
    requires SameCubes(F, G)
    ensures forall c :: c in G ==> c in F
  {
    hide HasCube;
    forall c | c in G
      ensures c in F
    {
      var i :| 0 <= i < |G| && G[i] == c;
    }
  }

  lemma SameInside(F: Cover, G: Cover)
    requires SameCubes(F, G)
    ensures Inside(F, G)
  {
    hide Within;
    forall i | 0 <= i < |F|
      ensures Within(F[i].cube, G)
    {
      CubeWithin(G, F[i].cube);
    }
  }

  lemma CubeWithin(G: Cover, c: Cube)
    requires HasCube(G, c)
    ensures Within(c, G)
  {
  }

  // ---- removing contained cubes

  /** No cube lies inside another. */
  ghost predicate Antichain(S: Cover) {
    forall i, j :: 0 <= i < |S| && 0 <= j < |S| && i != j ==> !(S[i].cube <= S[j].cube)
  }

  /** kept are the maximal ones of the first p cubes of S; those from position c
      on have the size of the p-th. */
  ghost predicate MaximalOnes(S: Cover, p: nat, kept: Cover) {
    && p <= |S| && |kept| <= p
    && Antichain(kept)
    && (forall i :: 0 <= i < |kept| ==> kept[i] in S[..p])
    && (forall i :: 0 <= i < p ==> Within(S[i].cube, kept))
  }

  /** Which of the kept cubes are larger than the last one looked at. */
  ghost predicate CheckPoint(S: Cover, p: nat, kept: Cover, check: nat, lastSize: int) {
    && check <= |kept|
    && (p == 0 ==> lastSize == -1)
    && (0 < p <= |S| ==> lastSize == |S[p - 1].cube|)
    && (forall i :: check <= i < |kept| ==> |kept[i].cube| == lastSize)
    && (forall i :: 0 <= i < check ==> |kept[i].cube| > lastSize)
  }

  /** Drop the contained cubes of an array without duplicates sorted by decreasing
      size.  Only larger cubes are compared. */
  method RmContain(a: array<FCube>, count: nat) returns (n: nat)
    requires count <= a.Length && InOrder(a[..count]) && Distinct(a[..count])
    modifies a
    ensures n <= count && MaximalOnes(old(a[..count]), count, a[..n])
    ensures InOrder(a[..n])
  {
    hide InOrder, Descending, MaximalOnes, Distinct, CheckPoint, Ranked, Picked;
    ghost var S := a[..count];
    InOrderDescending(S);
    PickNothing(S);
    n := 0;
    var p, check, lastSize := 0, 0, -1;
    MaximalStart(S);
    while p < count
      invariant 0 <= p <= count && n <= p
      invariant MaximalOnes(S, p, a[..n])
      invariant CheckPoint(S, p, a[..n], check, lastSize)
      invariant Picked(S, p, a[..n])
      invariant forall i :: p <= i < count ==> a[i] == S[i]
    {
      ghost var kept, check0, last0 := a[..n], check, lastSize;
      if |a[p].cube| != lastSize {
        lastSize, check := |a[p].cube|, n;
      }
      CheckNext(S, p, kept, check0, last0, check, lastSize);
      var contained := InsideSome(a, check, a[p].cube);
      if !contained {
        NotInside(S, p, kept, check, lastSize);
        PickStep(S, p, kept);
        a[n] := a[p];
        n := n + 1;
        assert a[..n] == kept + [S[p]];
      } else {
        InsideKept(S, p, kept, check, lastSize);
        PickSkip(S, p, kept);
      }
      p := p + 1;
    }
    PickInOrder(S, count, a[..n]);
  }

  method InsideSome(a: array<FCube>, check: nat, c: Cube) returns (inside: bool)
    requires check <= a.Length
    ensures inside <==> exists i :: 0 <= i < check && c <= a[i].cube
  {
    var i := 0;
    while i < check
      invariant 0 <= i <= check && forall j :: 0 <= j < i ==> !(c <= a[j].cube)
    {
      if c <= a[i].cube {
        return true;
      }
      i := i + 1;
    }
    inside := false;
  }

  lemma MaximalStart(S: Cover)
    ensures MaximalOnes(S, 0, []) && CheckPoint(S, 0, [], 0, -1)
  {
  }

  /** The kept cubes before check are larger than the p-th, the others as large. */
  ghost predicate Ranked(S: Cover, p: nat, kept: Cover, check: nat, lastSize: int) {
    && p < |S| && check <= |kept| && lastSize == |S[p].cube|
    && (forall i :: check <= i < |kept| ==> |kept[i].cube| == lastSize)
    && (forall i :: 0 <= i < check ==> |kept[i].cube| > lastSize)
  }

  lemma CheckNext(S: Cover, p: nat, kept: Cover, check0: nat, last0: int, check: nat, lastSize: int)
    requires p < |S| && Descending(S) && MaximalOnes(S, p, kept) && CheckPoint(S, p, kept, check0, last0)
    requires lastSize == |S[p].cube| && check == if |S[p].cube| != last0 then |kept| else check0
    ensures check <= |kept| && Ranked(S, p, kept, check, lastSize)
  {
    hide Antichain, Within;
    if p > 0 {
      assert |S[p - 1].cube| >= |S[p].cube|;
    }
  }

  lemma NotInside(S: Cover, p: nat, kept: Cover, check: nat, lastSize: int)
    requires Distinct(S) && MaximalOnes(S, p, kept) && Ranked(S, p, kept, check, lastSize)
    requires forall i :: 0 <= i < check ==> !(S[p].cube <= kept[i].cube)
    ensures MaximalOnes(S, p + 1, kept + [S[p]])
    ensures CheckPoint(S, p + 1, kept + [S[p]], check, lastSize)
  {
    hide Within, Distinct;
    var next := kept + [S[p]];
    forall i | 0 <= i < |kept|
      ensures !(kept[i].cube <= S[p].cube) && !(S[p].cube <= kept[i].cube)
    {
      assert kept[i] in S[..p];
      NotCopied(S, p, kept[i]);
      Incomparable(S[p].cube, kept[i].cube, i < check);
    }
    forall i | 0 <= i <= p
      ensures Within(S[i].cube, next)
    {
      StillWithin(S[i].cube, kept, S[p]);
    }
  }

  lemma NotCopied(S: Cover, p: nat, x: FCube)
    requires p < |S| && Distinct(S) && x in S[..p]
    ensures x.cube != S[p].cube
  {
    var i :| 0 <= i < p && S[..p][i] == x;
    assert S[i] == x;
  }

  lemma Incomparable(a: Cube, b: Cube, larger: bool)
    requires a != b && (if larger then |b| > |a| && !(a <= b) else |b| == |a|)
    ensures !(a <= b) && !(b <= a)
  {
    if a <= b {
      SubsetCard(a, b);
    }
    if b <= a {
      SubsetCard(b, a);
    }
  }

  lemma StillWithin(c: Cube, kept: Cover, x: FCube)
    ensures Within(c, kept) ==> Within(c, kept + [x])
    ensures c == x.cube ==> Within(c, kept + [x])
  {
    if Within(c, kept) {
      var j :| 0 <= j < |kept| && c <= kept[j].cube;
      assert c <= (kept + [x])[j].cube;
    }
    if c == x.cube {
      assert c <= (kept + [x])[|kept|].cube;
    }
  }

  lemma InsideKept(S: Cover, p: nat, kept: Cover, check: nat, lastSize: int)
    requires MaximalOnes(S, p, kept) && Ranked(S, p, kept, check, lastSize)
    requires exists i :: 0 <= i < check && S[p].cube <= kept[i].cube
    ensures MaximalOnes(S, p + 1, kept)
    ensures CheckPoint(S, p + 1, kept, check, lastSize)
  {
    hide Antichain;
  }

  /** Delete the duplicate cubes and those inside a larger one. */
  method SfContain(F: Cover) returns (G: Cover)
    ensures Antichain(G) && Inside(F, G) && |G| <= |F|
    ensures forall i :: 0 <= i < |G| ==> G[i] in F
    ensures Sorted(Stamped(G))
  {
    hide InOrder, Distinct, SameCubes, MaximalOnes, Antichain, Inside;
    var S := SfSort(F);
    var a := new FCube[|S|](i requires 0 <= i < |S| => S[i]);
    assert a[..] == S;
    var count := RmEqual(a);
    ghost var E := a[..count];
    SortedSame(F, S, E);
    var n := RmContain(a, count);
    G := a[..n];
    MaximalMeaning(F, E, G);
    AntichainSorted(G);
  }

  lemma AntichainSorted(G: Cover)
    requires Antichain(G) && InOrder(G)
    ensures Sorted(Stamped(G))
  {
    hide Descend;
    forall i, j | 0 <= i < j < |G|
      ensures Before(Stamp(G[i]), Stamp(G[j]))
    {
      assert !(G[i].cube <= G[j].cube);
      DescendOrder(Stamp(G[i]), Stamp(G[j]), Stamp(G[i]));
      DescendOneOf(Stamp(G[i]), Stamp(G[j]));
    }
  }

  lemma DescendOneOf(x: Sized, y: Sized)
    ensures Descend(x, y) == -1 || Descend(x, y) == 0 || Descend(x, y) == 1
    ensures Descend(x, y) == 1 ==> Before(y, x)
  {
    DescendOrder(y, x, y);
  }

  lemma MaximalMeaning(F: Cover, E: Cover, G: Cover)
    requires SameCubes(F, E) && MaximalOnes(E, |E|, G)
    ensures Antichain(G) && Inside(F, G)
    ensures forall i :: 0 <= i < |G| ==> G[i] in F
  {
    hide Antichain;
    assert E[..|E|] == E;
    forall i | 0 <= i < |F|
      ensures Within(F[i].cube, G)
    {
      assert HasCube(E, F[i].cube);
      var j :| 0 <= j < |E| && E[j].cube == F[i].cube;
      assert Within(E[j].cube, G);
    }
    forall i | 0 <= i < |G|
      ensures G[i] in F
    {
      assert G[i] in E[..|E|];
    }
  }
}
