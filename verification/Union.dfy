/** The contained union of two set families by one walk over two sorted arrays. */
module Union {
  import opened Cubes
  import opened Families
  import opened SetOrder
  import opened Selections
  import Containment
  import Counting

  // ---- what the walk may rely on

  /** What sf_contain leaves and sf_union assumes: the headers hold the sizes, the sets
      are in order, and none lies inside another. */
  ghost predicate Proper(S: seq<Sized>) {
    TrueSizes(S) && Sorted(S) && NoneInside(S)
  }

  ghost predicate TrueSizes(S: seq<Sized>) {
    forall i :: 0 <= i < |S| ==> S[i].size == |S[i].c.cube|
  }

  ghost predicate NoneInside(S: seq<Sized>) {
    forall i, j :: 0 <= i < |S| && 0 <= j < |S| && i != j ==> !(S[i].c.cube <= S[j].c.cube)
  }

  /** The cube lies inside some set of the list. */
  ghost predicate Inner(c: Cube, S: seq<Sized>) {
    exists j :: 0 <= j < |S| && c <= S[j].c.cube
  }

  ghost predicate AllInner(A: seq<Sized>, S: seq<Sized>) {
    forall i :: 0 <= i < |A| ==> Inner(A[i].c.cube, S)
  }

  // ---- equal sets

  /** The first i sets of S are those kept and those in E. */
  ghost predicate Parted(S: seq<Sized>, i: nat, kept: seq<Sized>, E: seq<Sized>) {
    && Picked(S, i, kept) && Picked(S, i, E)
    && multiset(S[..i]) == multiset(kept) + multiset(E)
  }

  /** The k-th sets of both lists hold the same cube. */
  ghost predicate Twins(E: seq<Sized>, E': seq<Sized>) {
    |E| == |E'| && forall k :: 0 <= k < |E| ==> E[k].c.cube == E'[k].c.cube
  }

  /** Every kept set comes before those of S that are still to be looked at. */
  ghost predicate Passed(kept: seq<Sized>, S: seq<Sized>, j: nat) {
    forall x, k :: 0 <= x < |kept| && j <= k < |S| ==> Before(kept[x], S[k])
  }

  /** No set is in both lists. */
  ghost predicate Apart(K: seq<Sized>, L: seq<Sized>) {
    forall x, y :: 0 <= x < |K| && 0 <= y < |L| ==> Descend(K[x], L[y]) != 0
  }

  ghost predicate Walked(A: seq<Sized>, i: nat, kA: seq<Sized>, B: seq<Sized>, j: nat, kB: seq<Sized>) {
    Sorted(A) && Sorted(B) ==> Passed(kA, B, j) && Passed(kB, A, i) && Apart(kA, kB)
  }

  /** Move the sets that are in both arrays out of them. */
  method Rm2Equal(a: array<Sized>, b: array<Sized>) returns (na: nat, nb: nat, E: seq<Sized>, ghost E': seq<Sized>)
    requires a != b
    modifies a, b
    ensures na <= a.Length && nb <= b.Length
    ensures Parted(old(a[..]), a.Length, a[..na], E) && Parted(old(b[..]), b.Length, b[..nb], E') && Twins(E, E')
    ensures Sorted(old(a[..])) && Sorted(old(b[..])) ==> Apart(a[..na], b[..nb])
  {
    hide Parted, Walked, Sorted, Apart, Descend, Twins;
    ghost var A, B := a[..], b[..];
    na, nb, E, E' := 0, 0, [], [];
    var i, j := 0, 0;
    PartStart(A);
    PartStart(B);
    NoTwins();
    WalkStart(A, B);
    while i < a.Length && j < b.Length
      invariant 0 <= na <= i <= a.Length && 0 <= nb <= j <= b.Length
      invariant forall k :: i <= k < a.Length ==> a[k] == A[k]
      invariant forall k :: j <= k < b.Length ==> b[k] == B[k]
      invariant Parted(A, i, a[..na], E) && Parted(B, j, b[..nb], E') && Twins(E, E')
      invariant Walked(A, i, a[..na], B, j, b[..nb])
      decreases a.Length - i + b.Length - j
    {
      ghost var kA, kB := a[..na], b[..nb];
      var order := Descend(a[i], b[j]);
      if order == -1 {
        PartKeep(A, i, kA, E);
        WalkFirst(A, i, kA, B, j, kB);
        a[na] := a[i];
        na, i := na + 1, i + 1;
        assert a[..na] == kA + [A[i - 1]];
      } else if order == 0 {
        PartMove(A, i, kA, E);
        PartMove(B, j, kB, E');
        NextTwins(E, E', A[i], B[j]);
        WalkBoth(A, i, kA, B, j, kB);
        E, E' := E + [a[i]], E' + [b[j]];
        i, j := i + 1, j + 1;
      } else {
        PartKeep(B, j, kB, E');
        WalkSecond(A, i, kA, B, j, kB);
        b[nb] := b[j];
        nb, j := nb + 1, j + 1;
        assert b[..nb] == kB + [B[j - 1]];
      }
    }
    while i < a.Length
      invariant 0 <= na <= i <= a.Length && 0 <= nb <= j <= b.Length
      invariant i == a.Length || j == b.Length
      invariant forall k :: i <= k < a.Length ==> a[k] == A[k]
      invariant forall k :: j <= k < b.Length ==> b[k] == B[k]
      invariant Parted(A, i, a[..na], E) && Parted(B, j, b[..nb], E')
      invariant Walked(A, i, a[..na], B, j, b[..nb])
    {
      ghost var kA := a[..na];
      PartKeep(A, i, kA, E);
      WalkRestFirst(A, i, kA, B, b[..nb]);
      a[na] := a[i];
      na, i := na + 1, i + 1;
      assert a[..na] == kA + [A[i - 1]];
    }
    while j < b.Length
      invariant 0 <= na <= a.Length && 0 <= nb <= j <= b.Length
      invariant forall k :: j <= k < b.Length ==> b[k] == B[k]
      invariant Parted(A, a.Length, a[..na], E) && Parted(B, j, b[..nb], E')
      invariant Walked(A, a.Length, a[..na], B, j, b[..nb])
    {
      ghost var kB := b[..nb];
      PartKeep(B, j, kB, E');
      WalkRestSecond(A, a[..na], B, j, kB);
      b[nb] := b[j];
      nb, j := nb + 1, j + 1;
      assert b[..nb] == kB + [B[j - 1]];
    }
    WalkEnd(A, a.Length, a[..na], B, b.Length, b[..nb]);
  }

  lemma PartStart(S: seq<Sized>)
    ensures Parted(S, 0, [], [])
  {
    PickNothing(S);
    assert S[..0] == [];
  }

  lemma PartKeep(S: seq<Sized>, i: nat, kept: seq<Sized>, E: seq<Sized>)
    requires i < |S| && Parted(S, i, kept, E)
    ensures Parted(S, i + 1, kept + [S[i]], E)
  {
    hide Picked;
    PickStep(S, i, kept);
    PickSkip(S, i, E);
    assert S[..i + 1] == S[..i] + [S[i]];
  }

  lemma PartMove(S: seq<Sized>, i: nat, kept: seq<Sized>, E: seq<Sized>)
    requires i < |S| && Parted(S, i, kept, E)
    ensures Parted(S, i + 1, kept, E + [S[i]])
  {
    hide Picked;
    PickSkip(S, i, kept);
    PickStep(S, i, E);
    assert S[..i + 1] == S[..i] + [S[i]];
  }

  lemma NoTwins()
    ensures Twins([], [])
  {
  }

  lemma NextTwins(E: seq<Sized>, E': seq<Sized>, x: Sized, y: Sized)
    requires Twins(E, E') && Descend(x, y) == 0
    ensures Twins(E + [x], E' + [y])
  {
    hide Descend;
    DescendOrder(x, y, x);
  }

  lemma WalkStart(A: seq<Sized>, B: seq<Sized>)
    ensures Walked(A, 0, [], B, 0, [])
  {
  }

  lemma WalkEnd(A: seq<Sized>, i: nat, kA: seq<Sized>, B: seq<Sized>, j: nat, kB: seq<Sized>)
    requires Walked(A, i, kA, B, j, kB)
    ensures Sorted(A) && Sorted(B) ==> Apart(kA, kB)
  {
    hide Sorted, Apart;
  }

  /** x comes before the j-th set of a sorted list, and so before all from there on. */
  lemma PassedNext(kept: seq<Sized>, x: Sized, S: seq<Sized>, j: nat)
    requires Sorted(S) && j < |S| && Passed(kept, S, j) && Before(x, S[j])
    ensures Passed(kept + [x], S, j)
  {
    hide Before;
    forall k | j <= k < |S|
      ensures Before(x, S[k])
    {
      if j < k {
        DescendOrder(x, S[j], S[k]);
      }
    }
  }

  lemma PassedLater(kept: seq<Sized>, S: seq<Sized>, j: nat)
    requires Passed(kept, S, j)
    ensures Passed(kept, S, j + 1)
  {
    hide Before;
  }

  lemma ApartNext(kept: seq<Sized>, S: seq<Sized>, i: nat, L: seq<Sized>)
    requires i < |S| && Passed(L, S, i) && Apart(kept, L)
    ensures Apart(kept + [S[i]], L)
  {
    hide Descend;
    forall y | 0 <= y < |L|
      ensures Descend(S[i], L[y]) != 0
    {
      assert Before(L[y], S[i]);
      DescendOrder(L[y], S[i], L[y]);
    }
  }

  lemma ApartSwap(K: seq<Sized>, L: seq<Sized>)
    requires Apart(K, L)
    ensures Apart(L, K)
  {
    hide Descend;
    forall y, x | 0 <= y < |L| && 0 <= x < |K|
      ensures Descend(L[y], K[x]) != 0
    {
      assert Descend(K[x], L[y]) != 0;
      DescendOrder(K[x], L[y], K[x]);
      DescendOrder(L[y], K[x], L[y]);
    }
  }

  lemma WalkFirst(A: seq<Sized>, i: nat, kA: seq<Sized>, B: seq<Sized>, j: nat, kB: seq<Sized>)
    requires i < |A| && j < |B| && Walked(A, i, kA, B, j, kB) && Descend(A[i], B[j]) == -1
    ensures Walked(A, i + 1, kA + [A[i]], B, j, kB)
  {
    hide Sorted, Passed, Apart, Descend;
    if Sorted(A) && Sorted(B) {
      PassedNext(kA, A[i], B, j);
      PassedLater(kB, A, i);
      ApartNext(kA, A, i, kB);
    }
  }

  lemma WalkSecond(A: seq<Sized>, i: nat, kA: seq<Sized>, B: seq<Sized>, j: nat, kB: seq<Sized>)
    requires i < |A| && j < |B| && Walked(A, i, kA, B, j, kB)
    requires Descend(A[i], B[j]) != -1 && Descend(A[i], B[j]) != 0
    ensures Walked(A, i, kA, B, j + 1, kB + [B[j]])
  {
    hide Sorted, Passed, Apart, Descend;
    Otherwise(A[i], B[j]);
    if Sorted(A) && Sorted(B) {
      PassedNext(kB, B[j], A, i);
      PassedLater(kA, B, j);
      ApartSwap(kA, kB);
      ApartNext(kB, B, j, kA);
      ApartSwap(kB + [B[j]], kA);
    }
  }

  lemma Otherwise(x: Sized, y: Sized)
    requires Descend(x, y) != -1 && Descend(x, y) != 0
    ensures Before(y, x)
  {
    DescendOrder(y, x, y);
  }

  lemma WalkBoth(A: seq<Sized>, i: nat, kA: seq<Sized>, B: seq<Sized>, j: nat, kB: seq<Sized>)
    requires Walked(A, i, kA, B, j, kB)
    ensures Walked(A, i + 1, kA, B, j + 1, kB)
  {
    hide Sorted, Passed, Apart;
    if Sorted(A) && Sorted(B) {
      PassedLater(kA, B, j);
      PassedLater(kB, A, i);
    }
  }

  lemma WalkRestFirst(A: seq<Sized>, i: nat, kA: seq<Sized>, B: seq<Sized>, kB: seq<Sized>)
    requires i < |A| && Walked(A, i, kA, B, |B|, kB)
    ensures Walked(A, i + 1, kA + [A[i]], B, |B|, kB)
  {
    hide Sorted, Apart, Before;
    if Sorted(A) && Sorted(B) {
      PassedLater(kB, A, i);
      ApartNext(kA, A, i, kB);
    }
  }

  lemma WalkRestSecond(A: seq<Sized>, kA: seq<Sized>, B: seq<Sized>, j: nat, kB: seq<Sized>)
    requires j < |B| && Walked(A, |A|, kA, B, j, kB)
    ensures Walked(A, |A|, kA, B, j + 1, kB + [B[j]])
  {
    hide Sorted, Apart, Before;
    if Sorted(A) && Sorted(B) {
      PassedLater(kA, B, j);
      ApartSwap(kA, kB);
      ApartNext(kB, B, j, kA);
      ApartSwap(kB + [B[j]], kA);
    }
  }

  // ---- contained sets

  /** The first i sets of A are kept or lie inside a set of B. */
  ghost predicate Sifted(A: seq<Sized>, i: nat, B: seq<Sized>, kept: seq<Sized>) {
    && Picked(A, i, kept)
    && (forall k :: 0 <= k < i && k < |A| ==> A[k] in kept || Inner(A[k].c.cube, B))
  }

  /** No kept set lies inside a set of B with a larger size in its header. */
  ghost predicate NoneLarger(kept: seq<Sized>, B: seq<Sized>) {
    forall x, y :: 0 <= x < |kept| && 0 <= y < |B| && B[y].size > kept[x].size ==> !(kept[x].c.cube <= B[y].c.cube)
  }

  ghost predicate BySize(B: seq<Sized>) {
    forall x, y :: 0 <= x < y < |B| ==> B[x].size >= B[y].size
  }

  /** Drop the sets that lie inside one of the larger sets of B. */
  method Rm2Contain(a: array<Sized>, na: nat, B: seq<Sized>) returns (n: nat)
    requires na <= a.Length
    modifies a
    ensures n <= na && Sifted(old(a[..na]), na, B, a[..n])
    ensures BySize(B) ==> NoneLarger(a[..n], B)
  {
    hide Sifted, BySize, NoneLarger, Inner;
    ghost var A := a[..na];
    n := 0;
    var p := 0;
    SiftStart(A, B);
    while p < na
      invariant 0 <= n <= p <= na
      invariant Sifted(A, p, B, a[..n]) && (BySize(B) ==> NoneLarger(a[..n], B))
      invariant forall k :: p <= k < na ==> a[k] == A[k]
    {
      ghost var kept := a[..n];
      var inside := InLarger(a[p], B);
      if inside {
        SiftDrop(A, p, B, kept);
      } else {
        SiftKeep(A, p, B, kept);
        a[n] := a[p];
        n := n + 1;
        assert a[..n] == kept + [A[p]];
      }
      p := p + 1;
    }
  }

  /** Compare with the sets of B as long as they are larger. */
  method InLarger(x: Sized, B: seq<Sized>) returns (inside: bool)
    ensures inside ==> Inner(x.c.cube, B)
    ensures !inside && BySize(B) ==> NoneLarger([x], B)
  {
    var q := 0;
    while q < |B| && B[q].size > x.size
      invariant 0 <= q <= |B|
      invariant forall k :: 0 <= k < q ==> !(x.c.cube <= B[k].c.cube)
    {
      if x.c.cube <= B[q].c.cube {
        return true;
      }
      q := q + 1;
    }
    inside := false;
  }

  lemma SiftStart(A: seq<Sized>, B: seq<Sized>)
    ensures Sifted(A, 0, B, []) && NoneLarger([], B)
  {
    PickNothing(A);
  }

  lemma SiftDrop(A: seq<Sized>, p: nat, B: seq<Sized>, kept: seq<Sized>)
    requires p < |A| && Sifted(A, p, B, kept) && Inner(A[p].c.cube, B)
    ensures Sifted(A, p + 1, B, kept)
  {
    hide Picked, Inner;
    PickSkip(A, p, kept);
  }

  lemma SiftKeep(A: seq<Sized>, p: nat, B: seq<Sized>, kept: seq<Sized>)
    requires p < |A| && Sifted(A, p, B, kept)
    ensures Sifted(A, p + 1, B, kept + [A[p]])
    ensures NoneLarger(kept, B) && NoneLarger([A[p]], B) ==> NoneLarger(kept + [A[p]], B)
  {
    hide Picked, Inner;
    PickStep(A, p, kept);
    if NoneLarger(kept, B) && NoneLarger([A[p]], B) {
      assert [A[p]][0] == A[p];
    }
  }

  // ---- merging

  /** Compare the heads of two lists; the end of a list comes last. */
  function Desc1(p: seq<Sized>, q: seq<Sized>): int {
    if p == [] then (if q == [] then 0 else 1)
    else if q == [] then -1
    else Descend(p[0], q[0])
  }

  /** The heads are in order. */
  predicate HeadsInOrder(p: seq<Sized>, q: seq<Sized>, r: seq<Sized>) {
    Desc1(p, q) <= 0 && Desc1(q, r) <= 0
  }

  ghost predicate InOrder(S: seq<Sized>) {
    forall i, j :: 0 <= i < j < |S| ==> !Before(S[j], S[i])
  }

  /** Nothing in p comes before a set of R. */
  ghost predicate Leads(R: seq<Sized>, p: seq<Sized>) {
    forall x, y :: 0 <= x < |R| && 0 <= y < |p| ==> !Before(p[y], R[x])
  }

  ghost predicate Merging(R: seq<Sized>, p: seq<Sized>, q: seq<Sized>, r: seq<Sized>) {
    && InOrder(R) && InOrder(p) && InOrder(q) && InOrder(r)
    && Leads(R, p) && Leads(R, q) && Leads(R, r)
  }

  /** Merge three sorted lists. */
  method SfMerge(A: seq<Sized>, B: seq<Sized>, E: seq<Sized>) returns (R: seq<Sized>)
    ensures multiset(R) == multiset(A) + multiset(B) + multiset(E)
    ensures InOrder(A) && InOrder(B) && InOrder(E) ==> InOrder(R)
  {
    hide InOrder, Merging, Desc1;
    var pmin, pmid, pmax := OrderHeads(A, B, E);
    R := [];
    if InOrder(pmin) && InOrder(pmid) && InOrder(pmax) {
      MergeStart(pmin, pmid, pmax);
    }
    while pmin != []
      invariant multiset(R) + multiset(pmin) + multiset(pmid) + multiset(pmax) == multiset(A) + multiset(B)
          + multiset(E)
      invariant HeadsInOrder(pmin, pmid, pmax)
      invariant InOrder(A) && InOrder(B) && InOrder(E) ==> Merging(R, pmin, pmid, pmax)
      decreases |pmin| + |pmid| + |pmax|
    {
      ghost var was := pmin;
      if Merging(R, pmin, pmid, pmax) {
        MergeStep(R, pmin, pmid, pmax);
      }
      R := R + [pmin[0]];
      pmin := pmin[1..];
      assert was == [was[0]] + pmin;
      Desc1OneWay(pmin, pmax);
      Desc1OneWay(pmin, pmid);
      if Merging(R, pmin, pmid, pmax) {
        MergingAny(R, pmin, pmid, pmax);
      }
      if Desc1(pmin, pmax) > 0 {
        pmin, pmid, pmax := pmid, pmax, pmin;
      } else if Desc1(pmin, pmid) > 0 {
        pmin, pmid := pmid, pmin;
      }
    }
    AllEmpty(pmin, pmid, pmax);
    if Merging(R, pmin, pmid, pmax) {
      MergeEnd(R, pmin, pmid, pmax);
    }
  }

  /** Exchange until the heads of the three lists are in order. */
  method OrderHeads(A: seq<Sized>, B: seq<Sized>, E: seq<Sized>) returns (p: seq<Sized>, q: seq<Sized>, r: seq<Sized>)
    ensures HeadsInOrder(p, q, r)
    ensures multiset(p) + multiset(q) + multiset(r) == multiset(A) + multiset(B) + multiset(E)
    ensures InOrder(A) && InOrder(B) && InOrder(E) ==> InOrder(p) && InOrder(q) && InOrder(r)
  {
    hide Desc1, InOrder;
    p, q, r := A, B, E;
    Desc1OneWay(p, q);
    if Desc1(p, q) > 0 {
      p, q := q, p;
    }
    Desc1OneWay(p, r);
    if Desc1(p, r) > 0 {
      Desc1Transitive(r, p, q);
      p, r := r, p;
    }
    Desc1OneWay(q, r);
    if Desc1(q, r) > 0 {
      q, r := r, q;
    }
  }

  lemma Desc1OneWay(p: seq<Sized>, q: seq<Sized>)
    ensures Desc1(p, q) > 0 ==> Desc1(q, p) <= 0
  {
    if p != [] && q != [] {
      DescendOrder(q[0], p[0], q[0]);
    }
  }

  lemma Desc1Transitive(p: seq<Sized>, q: seq<Sized>, r: seq<Sized>)
    requires Desc1(p, q) <= 0 && Desc1(q, r) <= 0
    ensures Desc1(p, r) <= 0
  {
    hide Descend;
    if p != [] && q != [] && r != [] {
      HeadFirst(p, q);
      HeadFirst(q, r);
      Containment.NotBeforeTransitive(p[0], q[0], r[0]);
      HeadFirst(p, r);
    }
  }

  lemma HeadFirst(p: seq<Sized>, q: seq<Sized>)
    requires p != [] && q != []
    ensures Desc1(p, q) <= 0 <==> !Before(q[0], p[0])
  {
    DescendOrder(q[0], p[0], q[0]);
  }

  lemma MergeStart(p: seq<Sized>, q: seq<Sized>, r: seq<Sized>)
    requires InOrder(p) && InOrder(q) && InOrder(r)
    ensures Merging([], p, q, r)
  {
    hide Before;
  }

  /** The three lists may be named in any order. */
  lemma MergingAny(R: seq<Sized>, p: seq<Sized>, q: seq<Sized>, r: seq<Sized>)
    requires Merging(R, p, q, r)
    ensures Merging(R, q, r, p) && Merging(R, q, p, r)
  {
    hide InOrder, Leads;
  }

  /** The head of the first list goes before everything that is left. */
  lemma MergeStep(R: seq<Sized>, p: seq<Sized>, q: seq<Sized>, r: seq<Sized>)
    requires p != [] && HeadsInOrder(p, q, r) && Merging(R, p, q, r)
    ensures Merging(R + [p[0]], p[1..], q, r)
  {
    hide Desc1, Leads, InOrder;
    Desc1Transitive(p, q, r);
    TailInOrder(p);
    HeadInOrder(R, p);
    LeadsNext(R, p, q);
    LeadsNext(R, p, r);
    LeadsTail(R, p);
  }

  lemma TailInOrder(p: seq<Sized>)
    requires p != [] && InOrder(p)
    ensures InOrder(p[1..])
  {
    hide Before;
  }

  lemma HeadInOrder(R: seq<Sized>, p: seq<Sized>)
    requires p != [] && InOrder(R) && Leads(R, p)
    ensures InOrder(R + [p[0]])
  {
    hide Before;
  }

  lemma LeadsTail(R: seq<Sized>, p: seq<Sized>)
    requires p != [] && InOrder(p) && Leads(R, p)
    ensures Leads(R + [p[0]], p[1..])
  {
    hide Before;
  }

  lemma LeadsNext(R: seq<Sized>, p: seq<Sized>, q: seq<Sized>)
    requires p != [] && InOrder(q) && Leads(R, q) && Desc1(p, q) <= 0
    ensures Leads(R + [p[0]], q)
  {
    hide Before, Desc1;
    forall y | 0 <= y < |q|
      ensures !Before(q[y], p[0])
    {
      HeadFirst(p, q);
      if y > 0 {
        assert !Before(q[y], q[0]);
        Containment.NotBeforeTransitive(p[0], q[0], q[y]);
      }
    }
  }

  lemma AllEmpty(p: seq<Sized>, q: seq<Sized>, r: seq<Sized>)
    requires HeadsInOrder(p, q, r) && p == []
    ensures q == [] && r == []
  {
  }

  lemma MergeEnd(R: seq<Sized>, p: seq<Sized>, q: seq<Sized>, r: seq<Sized>)
    requires Merging(R, p, q, r)
    ensures InOrder(R)
  {
    hide InOrder, Leads;
  }

  // ---- the union

  /** The contained union: what is dropped equals a kept set or lies inside one, whatever
      the headers say; with correct headers and sorted families without containment, so
      is the result. */
  method SfUnion(A: seq<Sized>, B: seq<Sized>) returns (R: seq<Sized>)
    ensures multiset(R) <= multiset(A) + multiset(B)
    ensures AllInner(A, R) && AllInner(B, R)
    ensures Proper(A) && Proper(B) ==> Proper(R)
  {
    hide Parted, Twins, Apart, Survive, BothSifted, BothNoneLarger, InOrder, Proper, AllInner, Sorted;
    var a := new Sized[|A|](i requires 0 <= i < |A| => A[i]);
    var b := new Sized[|B|](i requires 0 <= i < |B| => B[i]);
    assert a[..] == A && b[..] == B;
    var na, nb, E;
    ghost var E';
    na, nb, E, E' := Rm2Equal(a, b);
    ghost var kA, kB := a[..na], b[..nb];
    var n, m := SiftBoth(a, na, b, nb);
    R := SfMerge(a[..n], b[..m], E);
    ghost var A2, B2 := a[..n], b[..m];
    Survivors(kA, kB, A2, B2);
    UnionKeeps(A, B, kA, kB, E, E', A2, B2, R);
    if Proper(A) && Proper(B) {
      ProperParts(A);
      ProperParts(B);
      SortedPart(A, kA, E, A2);
      SortedPart(B, kB, E', B2);
      UnionProper(A, B, kA, kB, E, E', A2, B2, R);
    }
  }

  /** One list was sifted against the other, and then that one against what was left. */
  ghost predicate BothSifted(kA: seq<Sized>, kB: seq<Sized>, A2: seq<Sized>, B2: seq<Sized>) {
    || (Sifted(kA, |kA|, kB, A2) && Sifted(kB, |kB|, A2, B2))
    || (Sifted(kB, |kB|, kA, B2) && Sifted(kA, |kA|, B2, A2))
  }

  ghost predicate BothNoneLarger(kA: seq<Sized>, kB: seq<Sized>, A2: seq<Sized>, B2: seq<Sized>) {
    (NoneLarger(A2, kB) && NoneLarger(B2, A2)) || (NoneLarger(B2, kA) && NoneLarger(A2, B2))
  }

  /** Drop from each array what lies inside a larger set of the other.  The program leaves
      open which array comes first. */
  method SiftBoth(a: array<Sized>, na: nat, b: array<Sized>, nb: nat) returns (n: nat, m: nat)
    requires na <= a.Length && nb <= b.Length && a != b
    modifies a, b
    ensures n <= a.Length && m <= b.Length && BothSifted(old(a[..na]), old(b[..nb]), a[..n], b[..m])
    ensures Sorted(old(a[..na])) && Sorted(old(b[..nb])) ==> BothNoneLarger(old(a[..na]), old(b[..nb]), a[..n], b[..m])
  {
    hide Sifted, NoneLarger, BySize, Sorted;
    ghost var kA, kB := a[..na], b[..nb];
    if * {
      n := Rm2Contain(a, na, b[..nb]);
      SiftedSorted(kA, kB, a[..n]);
      m := Rm2Contain(b, nb, a[..n]);
    } else {
      m := Rm2Contain(b, nb, a[..na]);
      SiftedSorted(kB, kA, b[..m]);
      n := Rm2Contain(a, na, b[..m]);
    }
    SortedSizes(kA);
    SortedSizes(kB);
  }

  lemma SortedSizes(S: seq<Sized>)
    ensures Sorted(S) ==> BySize(S)
  {
    hide Exceeds;
  }

  lemma SiftedSorted(kA: seq<Sized>, kB: seq<Sized>, A2: seq<Sized>)
    requires Sifted(kA, |kA|, kB, A2)
    ensures Sorted(kA) ==> BySize(A2)
  {
    hide Sorted, Picked, Inner, BySize;
    if Sorted(kA) {
      SortedSome(kA, |kA|, A2);
    }
  }

  /** Every set that was sifted still lies in a set of one of the lists. */
  lemma Survivors(kA: seq<Sized>, kB: seq<Sized>, A2: seq<Sized>, B2: seq<Sized>)
    requires BothSifted(kA, kB, A2, B2)
    ensures Survive(kA, A2, B2) && Survive(kB, A2, B2)
    ensures multiset(A2) <= multiset(kA) && multiset(B2) <= multiset(kB)
    ensures Picked(kA, |kA|, A2) && Picked(kB, |kB|, B2)
  {
    hide Sifted, Inner, Picked;
    if Sifted(kA, |kA|, kB, A2) && Sifted(kB, |kB|, A2, B2) {
      SurvivorsInOrder(kA, kB, A2, B2);
    } else {
      SurvivorsInOrder(kB, kA, B2, A2);
    }
  }

  ghost predicate Survive(kA: seq<Sized>, A2: seq<Sized>, B2: seq<Sized>) {
    forall i :: 0 <= i < |kA| ==> Inner(kA[i].c.cube, A2) || Inner(kA[i].c.cube, B2)
  }

  lemma SurvivorsInOrder(kA: seq<Sized>, kB: seq<Sized>, A2: seq<Sized>, B2: seq<Sized>)
    requires Sifted(kA, |kA|, kB, A2) && Sifted(kB, |kB|, A2, B2)
    ensures Survive(kA, A2, B2) && Survive(kB, A2, B2)
    ensures multiset(A2) <= multiset(kA) && multiset(B2) <= multiset(kB)
    ensures Picked(kA, |kA|, A2) && Picked(kB, |kB|, B2)
  {
    hide Inner, Picked;
    SiftFewer(kA, kB, A2);
    SiftFewer(kB, A2, B2);
    forall i | 0 <= i < |kA|
      ensures Inner(kA[i].c.cube, A2) || Inner(kA[i].c.cube, B2)
    {
      SiftInner(kA, kB, A2, kA[i]);
      if Inner(kA[i].c.cube, kB) {
        ThroughSecond(kB, A2, B2, kA[i].c.cube);
      }
    }
    forall i | 0 <= i < |kB|
      ensures Inner(kB[i].c.cube, A2) || Inner(kB[i].c.cube, B2)
    {
      SiftInner(kB, A2, B2, kB[i]);
    }
  }

  lemma UnionKeeps(A: seq<Sized>, B: seq<Sized>, kA: seq<Sized>, kB: seq<Sized>, E: seq<Sized>, E': seq<Sized>,
                   A2: seq<Sized>, B2: seq<Sized>, R: seq<Sized>)
    requires Parted(A, |A|, kA, E) && Parted(B, |B|, kB, E') && Twins(E, E')
    requires Survive(kA, A2, B2) && Survive(kB, A2, B2) && multiset(A2) <= multiset(kA) && multiset(B2) <= multiset(kB)
    requires multiset(R) == multiset(A2) + multiset(B2) + multiset(E)
    ensures multiset(R) <= multiset(A) + multiset(B)
    ensures AllInner(A, R) && AllInner(B, R)
  {
    hide Inner, Parted, Survive, Twins;
    PartSum(A, kA, E);
    PartSum(B, kB, E');
    forall c | Inner(c, A2) || Inner(c, B2) || Inner(c, E)
      ensures Inner(c, R)
    {
      MergedInner(A2, B2, E, R, c);
    }
    forall i | 0 <= i < |A|
      ensures Inner(A[i].c.cube, R)
    {
      FirstInner(A, kA, E, A2, B2, i);
    }
    forall i | 0 <= i < |B|
      ensures Inner(B[i].c.cube, R)
    {
      SecondInner(B, kB, E, E', A2, B2, i);
    }
  }

  lemma SiftFewer(kA: seq<Sized>, B: seq<Sized>, A2: seq<Sized>)
    requires Sifted(kA, |kA|, B, A2)
    ensures multiset(A2) <= multiset(kA)
  {
    hide Picked, Inner;
    PickedMultiset(kA, |kA|, A2);
    assert kA[..|kA|] == kA;
  }

  lemma PartSum(A: seq<Sized>, kA: seq<Sized>, E: seq<Sized>)
    requires Parted(A, |A|, kA, E)
    ensures multiset(A) == multiset(kA) + multiset(E)
  {
    assert A[..|A|] == A;
  }

  lemma MemberInner(x: Sized, S: seq<Sized>)
    requires x in multiset(S)
    ensures x in S && Inner(x.c.cube, S)
  {
    assert x in S;
    var j :| 0 <= j < |S| && S[j] == x;
    assert x.c.cube <= S[j].c.cube;
  }

  lemma MergedInner(A2: seq<Sized>, B2: seq<Sized>, E: seq<Sized>, R: seq<Sized>, c: Cube)
    requires multiset(R) == multiset(A2) + multiset(B2) + multiset(E)
    requires Inner(c, A2) || Inner(c, B2) || Inner(c, E)
    ensures Inner(c, R)
  {
    var x: Sized;
    if j :| 0 <= j < |A2| && c <= A2[j].c.cube {
      x := A2[j];
      assert x in multiset(A2);
    } else if j :| 0 <= j < |B2| && c <= B2[j].c.cube {
      x := B2[j];
      assert x in multiset(B2);
    } else {
      var j :| 0 <= j < |E| && c <= E[j].c.cube;
      x := E[j];
      assert x in multiset(E);
    }
    assert x in multiset(R);
    assert x in R;
  }

  lemma InnerTransitive(c: Cube, x: Cube, S: seq<Sized>)
    requires c <= x && Inner(x, S)
    ensures Inner(c, S)
  {
    var j :| 0 <= j < |S| && x <= S[j].c.cube;
    assert c <= S[j].c.cube;
  }

  /** A set kept so far survives in A2, or lies inside a set of kB. */
  lemma SiftInner(kA: seq<Sized>, kB: seq<Sized>, A2: seq<Sized>, x: Sized)
    requires Sifted(kA, |kA|, kB, A2) && x in kA
    ensures Inner(x.c.cube, A2) || Inner(x.c.cube, kB)
  {
    hide Picked, Inner;
    var k :| 0 <= k < |kA| && kA[k] == x;
    if x in A2 {
      MemberInner(x, A2);
    }
  }

  lemma FirstInner(A: seq<Sized>, kA: seq<Sized>, E: seq<Sized>, A2: seq<Sized>, B2: seq<Sized>, i: nat)
    requires i < |A| && multiset(A) == multiset(kA) + multiset(E) && Survive(kA, A2, B2)
    ensures Inner(A[i].c.cube, A2) || Inner(A[i].c.cube, B2) || Inner(A[i].c.cube, E)
  {
    hide Inner;
    assert A[i] in multiset(A);
    if A[i] in multiset(E) {
      MemberInner(A[i], E);
    } else {
      assert A[i] in kA;
      var k :| 0 <= k < |kA| && kA[k] == A[i];
    }
  }

  lemma ThroughSecond(kB: seq<Sized>, A2: seq<Sized>, B2: seq<Sized>, c: Cube)
    requires Sifted(kB, |kB|, A2, B2) && Inner(c, kB)
    ensures Inner(c, A2) || Inner(c, B2)
  {
    hide Sifted;
    var k :| 0 <= k < |kB| && c <= kB[k].c.cube;
    SiftInner(kB, A2, B2, kB[k]);
    if Inner(kB[k].c.cube, A2) {
      InnerTransitive(c, kB[k].c.cube, A2);
    } else {
      InnerTransitive(c, kB[k].c.cube, B2);
    }
  }

  lemma SecondInner(B: seq<Sized>, kB: seq<Sized>, E: seq<Sized>, E': seq<Sized>, A2: seq<Sized>, B2: seq<Sized>,
      i: nat)
    requires i < |B| && multiset(B) == multiset(kB) + multiset(E') && Twins(E, E')
    requires Survive(kB, A2, B2)
    ensures Inner(B[i].c.cube, A2) || Inner(B[i].c.cube, B2) || Inner(B[i].c.cube, E)
  {
    assert B[i] in multiset(B);
    if B[i] in multiset(E') {
      assert B[i] in E';
      var k :| 0 <= k < |E'| && E'[k] == B[i];
      assert B[i].c.cube <= E[k].c.cube;
    } else {
      assert B[i] in kB;
      var k :| 0 <= k < |kB| && kB[k] == B[i];
    }
  }

  // ---- the union of proper families

  lemma ProperParts(S: seq<Sized>)
    requires Proper(S)
    ensures TrueSizes(S) && Sorted(S) && NoneInside(S)
  {
  }

  lemma SortedSome(S: seq<Sized>, p: nat, kept: seq<Sized>)
    requires Sorted(S) && Picked(S, p, kept)
    ensures Sorted(kept) && InOrder(kept) && BySize(kept)
  {
    hide Picked, Exceeds;
    forall i, j | 0 <= i < j < |kept|
      ensures Before(kept[i], kept[j]) && !Before(kept[j], kept[i])
    {
      var i', j' := PickedPlaces(S, p, kept, i, j);
      Containment.BeforeOneWay(kept[i], kept[j]);
    }
  }

  lemma SortedPart(A: seq<Sized>, kA: seq<Sized>, E: seq<Sized>, A2: seq<Sized>)
    requires Sorted(A) && Parted(A, |A|, kA, E) && Picked(kA, |kA|, A2)
    ensures Sorted(kA) && InOrder(A2) && InOrder(E) && Picked(A, |A|, A2)
  {
    hide Sorted, InOrder, BySize, Picked;
    SortedSome(A, |A|, kA);
    SortedSome(A, |A|, E);
    SortedSome(kA, |kA|, A2);
    PickedTwice(A, |A|, kA, |kA|, A2);
  }

  lemma NoneInsideSome(S: seq<Sized>, p: nat, kept: seq<Sized>)
    requires NoneInside(S) && Picked(S, p, kept)
    ensures NoneInside(kept)
  {
    hide Picked;
    forall i, j | 0 <= i < |kept| && 0 <= j < |kept| && i != j
      ensures !(kept[i].c.cube <= kept[j].c.cube)
    {
      var i', j' := PickedPlaces(S, p, kept, i, j);
    }
  }

  /** No set of the one list lies inside a set of the other. */
  ghost predicate Unrelated(K: seq<Sized>, L: seq<Sized>) {
    forall x, y :: 0 <= x < |K| && 0 <= y < |L| ==> !(K[x].c.cube <= L[y].c.cube) && !(L[y].c.cube <= K[x].c.cube)
  }

  /** Sets kept and sets moved out are different ones. */
  lemma PartUnrelated(A: seq<Sized>, kA: seq<Sized>, E: seq<Sized>, A2: seq<Sized>)
    requires NoneInside(A) && multiset(A) == multiset(kA) + multiset(E) && multiset(A2) <= multiset(kA)
    ensures Unrelated(A2, E)
  {
    forall x, y | 0 <= x < |A2| && 0 <= y < |E|
      ensures !(A2[x].c.cube <= E[y].c.cube) && !(E[y].c.cube <= A2[x].c.cube)
    {
      assert A2[x] in multiset(A2) && E[y] in multiset(E);
      assert A2[x] in multiset(kA);
      PartPair(A, kA, E, A2[x], E[y]);
    }
  }

  lemma PartPair(A: seq<Sized>, kA: seq<Sized>, E: seq<Sized>, x: Sized, e: Sized)
    requires NoneInside(A) && multiset(A) == multiset(kA) + multiset(E) && x in multiset(kA) && e in multiset(E)
    ensures !(x.c.cube <= e.c.cube) && !(e.c.cube <= x.c.cube)
  {
    assert x in multiset(A) && e in multiset(A);
    assert x in A && e in A;
    var i :| 0 <= i < |A| && A[i] == x;
    var j :| 0 <= j < |A| && A[j] == e;
    if x == e {
      assert multiset(A)[x] >= 2;
      OnePlace(A, i);
    }
    assert i != j;
  }

  lemma TwinsUnrelated(K: seq<Sized>, E: seq<Sized>, E': seq<Sized>)
    requires Twins(E, E') && Unrelated(K, E')
    ensures Unrelated(K, E)
  {
  }

  lemma SidesUnrelated(kA: seq<Sized>, kB: seq<Sized>, A2: seq<Sized>, B2: seq<Sized>)
    requires TrueSizes(A2) && TrueSizes(B2) && Apart(kA, kB)
    requires multiset(A2) <= multiset(kA) && multiset(B2) <= multiset(kB)
    requires NoneLarger(A2, kB) && NoneLarger(B2, A2)
    ensures Unrelated(A2, B2)
  {
    hide Descend, Apart, NoneLarger;
    forall x, y | 0 <= x < |A2| && 0 <= y < |B2|
      ensures !(A2[x].c.cube <= B2[y].c.cube) && !(B2[y].c.cube <= A2[x].c.cube)
    {
      assert A2[x] in multiset(A2) && B2[y] in multiset(B2);
      assert A2[x] in multiset(kA) && B2[y] in multiset(kB);
      NotTheSame(kA, kB, A2[x], B2[y]);
      NotBelow(A2, kB, A2[x], B2[y]);
      NotBelow(B2, A2, B2[y], A2[x]);
    }
  }

  lemma BothUnrelated(kA: seq<Sized>, kB: seq<Sized>, A2: seq<Sized>, B2: seq<Sized>)
    requires TrueSizes(A2) && TrueSizes(B2) && Apart(kA, kB) && BothNoneLarger(kA, kB, A2, B2)
    requires multiset(A2) <= multiset(kA) && multiset(B2) <= multiset(kB)
    ensures Unrelated(A2, B2)
  {
    hide TrueSizes, Apart, NoneLarger;
    if NoneLarger(A2, kB) && NoneLarger(B2, A2) {
      SidesUnrelated(kA, kB, A2, B2);
    } else {
      ApartSwap(kA, kB);
      SidesUnrelated(kB, kA, B2, A2);
    }
  }

  lemma NotTheSame(kA: seq<Sized>, kB: seq<Sized>, x: Sized, y: Sized)
    requires Apart(kA, kB) && x in multiset(kA) && y in multiset(kB) && x.size == |x.c.cube| && y.size == |y.c.cube|
    ensures x.c.cube != y.c.cube
  {
    assert x in kA && y in kB;
    DescendOrder(x, y, x);
  }

  lemma NotBelow(K: seq<Sized>, L: seq<Sized>, x: Sized, y: Sized)
    requires NoneLarger(K, L) && x in K && y in L && x.size == |x.c.cube| && y.size == |y.c.cube|
    requires x.c.cube != y.c.cube
    ensures !(x.c.cube <= y.c.cube)
  {
    if x.c.cube <= y.c.cube {
      Counting.SubsetCard(x.c.cube, y.c.cube);
    }
  }

  lemma MembersTrueSizes(A: seq<Sized>, B: seq<Sized>, R: seq<Sized>)
    requires TrueSizes(A) && TrueSizes(B) && multiset(R) <= multiset(A) + multiset(B)
    ensures TrueSizes(R)
  {
    forall i | 0 <= i < |R|
      ensures R[i].size == |R[i].c.cube|
    {
      assert R[i] in multiset(R);
      assert R[i] in A || R[i] in B;
    }
  }

  /** Whether sets lie inside one another does not depend on their order. */
  lemma NoneInsideOrder(C: seq<Sized>, R: seq<Sized>)
    requires NoneInside(C) && multiset(R) == multiset(C)
    ensures NoneInside(R)
  {
    forall i, j | 0 <= i < |R| && 0 <= j < |R| && i != j
      ensures !(R[i].c.cube <= R[j].c.cube)
    {
      var i', j' := PlacesIn(C, R, i, j);
    }
  }

  lemma JoinNoneInside(A2: seq<Sized>, B2: seq<Sized>, E: seq<Sized>)
    requires NoneInside(A2) && NoneInside(B2) && NoneInside(E)
    requires Unrelated(A2, B2) && Unrelated(A2, E) && Unrelated(B2, E)
    ensures NoneInside(A2 + B2 + E)
  {
    NoneInsideJoin(A2, B2);
    var C := A2 + B2;
    assert Unrelated(C, E);
    NoneInsideJoin(C, E);
  }

  lemma NoneInsideJoin(K: seq<Sized>, L: seq<Sized>)
    requires NoneInside(K) && NoneInside(L) && Unrelated(K, L)
    ensures NoneInside(K + L)
  {
  }

  lemma InOrderSorted(R: seq<Sized>)
    requires InOrder(R) && NoneInside(R)
    ensures Sorted(R)
  {
    hide Descend;
    forall i, j | 0 <= i < j < |R|
      ensures Before(R[i], R[j])
    {
      assert !(R[i].c.cube <= R[j].c.cube);
      DescendOrder(R[i], R[j], R[i]);
      Containment.DescendOneOf(R[i], R[j]);
    }
  }

  lemma UnionProper(A: seq<Sized>, B: seq<Sized>, kA: seq<Sized>, kB: seq<Sized>, E: seq<Sized>, E': seq<Sized>,
                    A2: seq<Sized>, B2: seq<Sized>, R: seq<Sized>)
    requires TrueSizes(A) && NoneInside(A) && TrueSizes(B) && NoneInside(B)
    requires Parted(A, |A|, kA, E) && Parted(B, |B|, kB, E') && Twins(E, E') && Apart(kA, kB)
    requires BothNoneLarger(kA, kB, A2, B2) && multiset(A2) <= multiset(kA) && multiset(B2) <= multiset(kB)
    requires Picked(A, |A|, A2) && Picked(B, |B|, B2)
    requires multiset(R) == multiset(A2) + multiset(B2) + multiset(E) && multiset(R) <= multiset(A) + multiset(B)
    requires InOrder(R)
    ensures Proper(R)
  {
    hide Parted, Twins, Apart, BothNoneLarger, Picked, InOrder, Sorted, TrueSizes, NoneInside, Unrelated;
    PartSum(A, kA, E);
    PartSum(B, kB, E');
    MembersTrueSizes(A, B, R);
    MembersTrueSizes(A, B, A2);
    MembersTrueSizes(A, B, B2);
    PartPicked(A, kA, E);
    NoneInsideSome(A, |A|, A2);
    NoneInsideSome(A, |A|, E);
    NoneInsideSome(B, |B|, B2);
    PartUnrelated(A, kA, E, A2);
    PartUnrelated(B, kB, E', B2);
    TwinsUnrelated(B2, E, E');
    BothUnrelated(kA, kB, A2, B2);
    JoinNoneInside(A2, B2, E);
    assert multiset(A2 + B2 + E) == multiset(R);
    NoneInsideOrder(A2 + B2 + E, R);
    InOrderSorted(R);
  }

  lemma PartPicked(A: seq<Sized>, kA: seq<Sized>, E: seq<Sized>)
    requires Parted(A, |A|, kA, E)
    ensures Picked(A, |A|, E)
  {
  }

  // ---- covers whose headers hold the sizes

  /** In order, and no cube inside another. */
  ghost predicate Ordered(F: Cover) {
    Containment.Antichain(F) && Sorted(Stamped(F))
  }

  /** The contained union of two covers that are sorted and free of containment. */
  method CoverUnion(A: Cover, B: Cover) returns (R: Cover)
    requires Ordered(A) && Ordered(B)
    ensures Ordered(R) && Inside(A, R) && Inside(B, R)
    ensures forall i :: 0 <= i < |R| ==> R[i] in A || R[i] in B
  {
    hide Ordered, Proper, AllInner;
    OrderedProper(A);
    OrderedProper(B);
    var U := SfUnion(Stamped(A), Stamped(B));
    R := seq(|U|, i requires 0 <= i < |U| => U[i].c);
    ProperOrdered(U, R);
    InnerInside(A, U, R);
    InnerInside(B, U, R);
    UnionMembers(A, B, U, R);
  }

  lemma OrderedProper(F: Cover)
    requires Ordered(F)
    ensures Proper(Stamped(F))
  {
    hide Sorted;
  }

  lemma ProperOrdered(U: seq<Sized>, R: Cover)
    requires Proper(U) && |R| == |U| && forall i :: 0 <= i < |U| ==> R[i] == U[i].c
    ensures Ordered(R)
  {
    hide Sorted;
    assert Stamped(R) == U;
  }

  lemma InnerInside(F: Cover, U: seq<Sized>, R: Cover)
    requires AllInner(Stamped(F), U) && |R| == |U| && forall i :: 0 <= i < |U| ==> R[i] == U[i].c
    ensures Inside(F, R)
  {
    forall i | 0 <= i < |F|
      ensures Within(F[i].cube, R)
    {
      assert Inner(Stamped(F)[i].c.cube, U);
      var j :| 0 <= j < |U| && F[i].cube <= U[j].c.cube;
      assert F[i].cube <= R[j].cube;
    }
  }

  lemma UnionMembers(A: Cover, B: Cover, U: seq<Sized>, R: Cover)
    requires multiset(U) <= multiset(Stamped(A)) + multiset(Stamped(B))
    requires |R| == |U| && forall i :: 0 <= i < |U| ==> R[i] == U[i].c
    ensures forall i :: 0 <= i < |R| ==> R[i] in A || R[i] in B
  {
    forall i | 0 <= i < |R|
      ensures R[i] in A || R[i] in B
    {
      assert U[i] in multiset(U);
      assert U[i] in Stamped(A) || U[i] in Stamped(B);
    }
  }
}
