/** Making the cover sparse: drop parts of the sparse variables that other cubes
    cover, using the irredundant step part by part. */
module Sparse {
  import opened Cubes
  import opened Counting
  import opened Families
  import Irredundant

  // ---- the cubes that hold one part

  /** c with nothing but the part p left in the variable of p. */
  function Slice(s: Space, c: Cube, p: Part): (r: Cube)
    requires p in Full(s)
    ensures forall q :: q in r <==> q == p || (q in c && q !in Mask(s, p.v))
  {
    (c - Mask(s, p.v)) + {p}
  }

  /** The cubes of F that hold p, sliced; from says which ones they are. */
  ghost predicate Sliced(s: Space, F: Cover, p: Part, n: nat, F1: Cover, from: seq<nat>)
    requires p in Full(s) && n <= |F|
  {
    && |from| == |F1|
    && (forall i :: 0 <= i < |F1| ==> from[i] < n && p in F[from[i]].cube && F1[i].cube == Slice(s, F[from[i]].cube, p))
    && (forall k :: 0 <= k < n && p in F[k].cube ==> k in from)
    && (forall i, j :: 0 <= i < j < |from| ==> from[i] < from[j])
  }

  method SliceCover(s: Space, F: Cover, p: Part) returns (F1: Cover, from: seq<nat>)
    requires Valid(s, F) && p in Full(s)
    ensures Sliced(s, F, p, |F|, F1, from) && Valid(s, F1)
  {
    hide Full, Slice, Mask;
    F1, from := [], [];
    var k := 0;
    while k < |F|
      invariant 0 <= k <= |F| && Sliced(s, F, p, k, F1, from) && Valid(s, F1)
    {
      if p in F[k].cube {
        SliceFull(s, F[k].cube, p);
        F1 := F1 + [Plain(Slice(s, F[k].cube, p))];
        from := from + [k];
      }
      k := k + 1;
    }
  }

  lemma SliceFull(s: Space, c: Cube, p: Part)
    requires p in Full(s) && c <= Full(s)
    ensures Slice(s, c, p) <= Full(s)
  {
    hide Full, Mask;
  }

  /** A minterm through p lies in the slice exactly when it lies in the cube. */
  lemma SliceHolds(s: Space, c: Cube, p: Part, m: Minterm)
    requires p in Full(s) && p in c && IsMinterm(s, m)
    ensures In(m, Slice(s, c, p)) <==> In(m, c) && m[p.v] == p.k
  {
    var r := Slice(s, c, p);
    if In(m, r) {
      assert Part(p.v, m[p.v]) in r;
      forall v | 0 <= v < |m|
        ensures Part(v, m[v]) in c
      {
        assert Part(v, m[v]) in r;
        assert v == p.v ==> Part(v, m[v]) == p;
      }
    }
    if In(m, c) && m[p.v] == p.k {
      forall v | 0 <= v < |m|
        ensures Part(v, m[v]) in r
      {
        assert v == p.v ==> Part(v, m[v]) == p;
      }
    }
  }

  /** The slices hold the minterms of F through p. */
  lemma SlicedHolds(s: Space, F: Cover, p: Part, F1: Cover, from: seq<nat>, m: Minterm)
    requires p in Full(s) && Sliced(s, F, p, |F|, F1, from) && IsMinterm(s, m)
    ensures Has(F1, m) <==> Has(F, m) && m[p.v] == p.k
  {
    hide Full, In, Slice;
    if i :| 0 <= i < |F1| && In(m, F1[i].cube) {
      SliceHolds(s, F[from[i]].cube, p, m);
      assert In(m, F[from[i]].cube);
    }
    if m[p.v] == p.k {
      if k :| 0 <= k < |F| && In(m, F[k].cube) {
        ThroughPart(m, F[k].cube, p);
        var i :| 0 <= i < |from| && from[i] == k;
        SliceHolds(s, F[k].cube, p, m);
        assert In(m, F1[i].cube);
      }
    }
  }

  lemma ThroughPart(m: Minterm, c: Cube, p: Part)
    requires In(m, c) && p.v < |m| && m[p.v] == p.k
    ensures p in c
  {
    assert p == Part(p.v, m[p.v]);
  }

  // ---- one part

  /** Whether the part may be dropped from the cube: a variable that is full stays
      full, unless it is the output variable. */
  predicate MayDrop(s: Space, c: Cube, v: nat)
    requires v < |s.sizes|
  {
    v == |s.sizes| - 1 || !(Mask(s, v) <= c)
  }

  /** F' is F with p dropped from some of its cubes. */
  ghost predicate Dropped(s: Space, F: Cover, p: Part, F': Cover)
    requires p in Full(s)
  {
    && |F'| == |F|
    && forall k :: 0 <= k < |F| ==>
      F'[k].cube == F[k].cube || (MayDrop(s, F[k].cube, p.v) && F'[k].cube == F[k].cube - {p})
  }

  /** What the irredundant step kept of the slices is kept in F'. */
  ghost predicate KeepsActive(F: Cover, M: Cover, from: seq<nat>, F': Cover)
    requires |from| == |M| && |F'| == |F|
  {
    forall i :: 0 <= i < |M| && M[i].active && from[i] < |F| ==> F'[from[i]].cube == F[from[i]].cube
  }

  /** Dropping the part where the slice was redundant keeps the minterms. */
  lemma DropKeeps(s: Space, F: Cover, D: Cover, p: Part, F1: Cover, from: seq<nat>, D1: Cover, fromD: seq<nat>,
      M: Cover, F': Cover, m: Minterm)
    requires p in Full(s) && Sliced(s, F, p, |F|, F1, from) && Sliced(s, D, p, |D|, D1, fromD)
    requires Irredundant.MarksOf(s, F1, D1, M)
    requires Dropped(s, F, p, F') && KeepsActive(F, M, from, F') && IsMinterm(s, m)
    ensures Has(F', m) || Has(D, m) <==> Has(F, m) || Has(D, m)
  {
    hide Full, In, Sliced, Has, Irredundant.Kept, Irredundant.Redundant, Irredundant.Needed, Irredundant.ClosesAlone;
    DroppedLess(s, F, p, F', m);
    if Has(F, m) && !Has(D, m) {
      if m[p.v] == p.k {
        SlicedHolds(s, F, p, F1, from, m);
        SlicedHolds(s, D, p, D1, fromD, m);
        var i := KeptActive(M, D1, m);
        ActiveHolds(s, F, p, F1, from, M, F', i, m);
      } else {
        OtherHolds(s, F, p, F', m);
      }
    }
  }

  lemma DroppedLess(s: Space, F: Cover, p: Part, F': Cover, m: Minterm)
    requires p in Full(s) && Dropped(s, F, p, F')
    ensures Has(F', m) ==> Has(F, m)
  {
    hide Full, MayDrop;
    if k :| 0 <= k < |F'| && In(m, F'[k].cube) {
      assert F'[k].cube <= F[k].cube;
      assert In(m, F[k].cube);
    }
  }

  lemma KeptActive(M: Cover, D: Cover, m: Minterm) returns (i: nat)
    requires Irredundant.Kept(M, D, m) && !Has(D, m)
    ensures i < |M| && M[i].active && In(m, M[i].cube)
  {
    i :| 0 <= i < |M| && M[i].active && In(m, M[i].cube);
  }

  lemma ActiveHolds(s: Space, F: Cover, p: Part, F1: Cover, from: seq<nat>, M: Cover, F': Cover, i: nat, m: Minterm)
    requires p in Full(s) && Sliced(s, F, p, |F|, F1, from)
    requires |M| == |F1| && i < |M| && M[i].active && M[i].cube == F1[i].cube && IsMinterm(s, m) && In(m, M[i].cube)
    requires |F'| == |F| && KeepsActive(F, M, from, F')
    ensures Has(F', m)
  {
    hide Full, In, Slice;
    SliceHolds(s, F[from[i]].cube, p, m);
    assert In(m, F'[from[i]].cube);
  }

  lemma OtherHolds(s: Space, F: Cover, p: Part, F': Cover, m: Minterm)
    requires p in Full(s) && Dropped(s, F, p, F') && Has(F, m) && p.v < |m| && m[p.v] != p.k
    ensures Has(F', m)
  {
    hide Full, MayDrop;
    var k :| 0 <= k < |F| && In(m, F[k].cube);
    forall v | 0 <= v < |m|
      ensures Part(v, m[v]) in F'[k].cube
    {
      assert Part(v, m[v]) in F[k].cube && Part(v, m[v]) != p;
    }
    assert In(m, F'[k].cube);
  }

  // ---- why a part is kept

  /** m is a minterm of the k-th cube through p. */
  ghost predicate Through(s: Space, F: Cover, k: nat, p: Part, m: Minterm)
    requires k < |F|
  {
    IsMinterm(s, m) && In(m, F[k].cube) && p.v < |m| && m[p.v] == p.k
  }

  /** Some minterm of the k-th cube through p is in no other cube of F and D. */
  ghost predicate EssentialAt(s: Space, F: Cover, D: Cover, k: nat, p: Part)
    requires k < |F|
  {
    exists m :: Through(s, F, k, p, m) && !HasOther(F, D, k, m)
  }

  /** Some minterm of the k-th cube through p is not in D, nor in another cube of F that
      is essential at p. */
  ghost predicate Reason(s: Space, F: Cover, D: Cover, k: nat, p: Part)
    requires k < |F|
  {
    exists m :: Through(s, F, k, p, m) && !Has(D, m) &&
      forall j :: 0 <= j < |F| && j != k && In(m, F[j].cube) ==> !EssentialAt(s, F, D, j, p)
  }

  /** For a minterm through p, the other slices hold it exactly when the other cubes
      do. */
  lemma OtherSlices(s: Space, F: Cover, D: Cover, p: Part, F1: Cover, from: seq<nat>, D1: Cover, fromD: seq<nat>,
      i: nat, m: Minterm)
    requires p in Full(s) && Sliced(s, F, p, |F|, F1, from) && Sliced(s, D, p, |D|, D1, fromD) && i < |F1|
    requires IsMinterm(s, m) && m[p.v] == p.k
    ensures HasOther(F1, D1, i, m) <==> HasOther(F, D, from[i], m)
  {
    hide Full, In, Slice, Sliced;
    SlicedAt(s, F, p, F1, from, i);
    AllOthers(F1, D1, i, m);
    AllOthers(F, D, from[i], m);
    SlicedHolds(s, D, p, D1, fromD, m);
    OtherCubes(s, F, p, F1, from, i, m);
  }

  lemma AllOthers(F: Cover, D: Cover, k: nat, m: Minterm)
    requires k < |F|
    ensures HasOther(F, D, k, m) <==> Has(D, m) || exists i :: 0 <= i < |F| && i != k && In(m, F[i].cube)
  {
    hide In;
    if Has(D, m) {
      var j :| 0 <= j < |D| && In(m, D[j].cube);
      assert |F| + j != k;
    }
  }

  lemma OtherCubes(s: Space, F: Cover, p: Part, F1: Cover, from: seq<nat>, i: nat, m: Minterm)
    requires p in Full(s) && Sliced(s, F, p, |F|, F1, from) && i < |F1| && IsMinterm(s, m) && m[p.v] == p.k
    ensures (exists j :: 0 <= j < |F1| && j != i && In(m, F1[j].cube)) <==>
      exists k :: 0 <= k < |F| && k != from[i] && In(m, F[k].cube)
  {
    hide Full, In, Slice;
    if j :| 0 <= j < |F1| && j != i && In(m, F1[j].cube) {
      SliceHolds(s, F[from[j]].cube, p, m);
      assert from[j] != from[i];
      assert In(m, F[from[j]].cube);
    }
    if k :| 0 <= k < |F| && k != from[i] && In(m, F[k].cube) {
      var j := SliceOf(s, F, p, F1, from, k, m);
      assert In(m, F1[j].cube);
    }
  }

  lemma SliceOf(s: Space, F: Cover, p: Part, F1: Cover, from: seq<nat>, k: nat, m: Minterm) returns (j: nat)
    requires p in Full(s) && Sliced(s, F, p, |F|, F1, from) && k < |F|
    requires IsMinterm(s, m) && m[p.v] == p.k && In(m, F[k].cube)
    ensures j < |F1| && from[j] == k && In(m, F1[j].cube)
  {
    hide Full, In, Slice;
    ThroughPart(m, F[k].cube, p);
    j :| 0 <= j < |from| && from[j] == k;
    SliceHolds(s, F[k].cube, p, m);
  }

  /** A slice that is kept has a minterm that explains it. */
  lemma KeptReason(s: Space, F: Cover, D: Cover, p: Part, F1: Cover, from: seq<nat>, D1: Cover, fromD: seq<nat>,
      M: Cover, i: nat)
    requires p in Full(s) && Sliced(s, F, p, |F|, F1, from) && Sliced(s, D, p, |D|, D1, fromD)
    requires Irredundant.MarksOf(s, F1, D1, M) && i < |M| && M[i].active && NonVoid(s, F[from[i]].cube)
    ensures Reason(s, F, D, from[i], p)
  {
    hide Full, In, Slice, Sliced, NonVoid, Has, HasOther, EssentialAt, Irredundant.Kept, Irredundant.ClosesAlone,
      Irredundant.AtMostOne;
    SlicedAt(s, F, p, F1, from, i);
    var m := ExplainingMinterm(s, F1, D1, M, i);
    SliceHolds(s, F[from[i]].cube, p, m);
    SlicedHolds(s, D, p, D1, fromD, m);
    forall k | 0 <= k < |F| && k != from[i] && In(m, F[k].cube)
      ensures !EssentialAt(s, F, D, k, p)
    {
      var j := SliceOf(s, F, p, F1, from, k, m);
      NotEssentialAt(s, F, D, p, F1, from, D1, fromD, M, i, j, m);
    }
    assert Through(s, F, from[i], p, m);
  }

  lemma SlicedAt(s: Space, F: Cover, p: Part, F1: Cover, from: seq<nat>, i: nat)
    requires p in Full(s) && Sliced(s, F, p, |F|, F1, from) && i < |F1|
    ensures i < |from| && from[i] < |F| && p in F[from[i]].cube && F1[i].cube == Slice(s, F[from[i]].cube, p)
    ensures NonVoid(s, F[from[i]].cube) ==> NonVoid(s, F1[i].cube)
  {
    hide Full;
    var c := F[from[i]].cube;
    if NonVoid(s, c) {
      forall v | 0 <= v < |s.sizes|
        ensures Slice(s, c, p) * Mask(s, v) != {}
      {
        if v == p.v {
          assert p in Slice(s, c, p) * Mask(s, v);
        } else {
          var q := Member(c * Mask(s, v));
          assert q in Slice(s, c, p) * Mask(s, v);
        }
      }
    }
  }

  /** A minterm in no other cube, or at least in no relatively essential one. */
  lemma ExplainingMinterm(s: Space, F1: Cover, D1: Cover, M: Cover, i: nat) returns (m: Minterm)
    requires Irredundant.MarksOf(s, F1, D1, M) && i < |M| && M[i].active && NonVoid(s, F1[i].cube)
    ensures IsMinterm(s, m) && In(m, F1[i].cube) && !Has(D1, m)
    ensures if M[i].relEssen then !HasOther(F1, D1, i, m) else !Irredundant.EssenCovers(M, D1, m)
  {
    hide In, NonVoid, Irredundant.Kept, Irredundant.ClosesAlone, Irredundant.AtMostOne, HasOther;
    if M[i].relEssen {
      m :| IsMinterm(s, m) && In(m, F1[i].cube) && !HasOther(F1, D1, i, m);
      AllOthers(F1, D1, i, m);
    } else {
      assert Irredundant.Needed(s, F1, D1, M, i);
      m :| IsMinterm(s, m) && In(m, F1[i].cube) && !Irredundant.EssenCovers(M, D1, m);
    }
  }

  lemma NotEssentialAt(s: Space, F: Cover, D: Cover, p: Part, F1: Cover, from: seq<nat>, D1: Cover, fromD: seq<nat>,
      M: Cover, i: nat, j: nat, m: Minterm)
    requires p in Full(s) && Sliced(s, F, p, |F|, F1, from) && Sliced(s, D, p, |D|, D1, fromD)
    requires Irredundant.MarksOf(s, F1, D1, M) && i < |M| && j < |M| && from[i] != from[j]
    requires IsMinterm(s, m) && In(m, F1[j].cube)
    requires if M[i].relEssen then !HasOther(F1, D1, i, m) else !Irredundant.EssenCovers(M, D1, m)
    ensures !EssentialAt(s, F, D, from[j], p)
  {
    hide Full, In, Slice, NonVoid, Has, Sliced, HasOther, Irredundant.Kept, Irredundant.ClosesAlone,
      Irredundant.AtMostOne, Irredundant.Needed;
    SlicedAt(s, F, p, F1, from, j);
    AllOthers(F1, D1, i, m);
    assert !M[j].relEssen;
    assert Irredundant.Redundant(s, F1, D1, j);
    forall x | Through(s, F, from[j], p, x)
      ensures HasOther(F, D, from[j], x)
    {
      SliceHolds(s, F[from[j]].cube, p, x);
      OtherSlices(s, F, D, p, F1, from, D1, fromD, j, x);
    }
  }

  /** A part that may be dropped is kept only for a reason. */
  ghost predicate KeptFor(s: Space, F: Cover, D: Cover, p: Part, F': Cover)
    requires p in Full(s) && |F'| == |F|
  {
    forall k :: 0 <= k < |F| && p in F'[k].cube && MayDrop(s, F[k].cube, p.v) && NonVoid(s, F[k].cube) ==>
      Reason(s, F, D, k, p)
  }

  lemma AllKeptFor(s: Space, F: Cover, D: Cover, p: Part, F1: Cover, from: seq<nat>, D1: Cover, fromD: seq<nat>,
      M: Cover, F': Cover)
    requires p in Full(s) && Sliced(s, F, p, |F|, F1, from) && Sliced(s, D, p, |D|, D1, fromD)
    requires Irredundant.MarksOf(s, F1, D1, M) && Dropped(s, F, p, F')
    requires forall i :: 0 <= i < |M| && !M[i].active && from[i] < |F| && MayDrop(s, F[from[i]].cube, p.v) ==>
      p !in F'[from[i]].cube
    ensures KeptFor(s, F, D, p, F')
  {
    hide Full, MayDrop, NonVoid, Reason, Irredundant.MarksOf;
    forall k | 0 <= k < |F| && p in F'[k].cube && MayDrop(s, F[k].cube, p.v) && NonVoid(s, F[k].cube)
      ensures Reason(s, F, D, k, p)
    {
      assert p in F[k].cube;
      var i :| 0 <= i < |from| && from[i] == k;
      MarksLength(s, F1, D1, M);
      KeptReason(s, F, D, p, F1, from, D1, fromD, M, i);
    }
  }

  lemma MarksLength(s: Space, F: Cover, D: Cover, M: Cover)
    requires Irredundant.MarksOf(s, F, D, M)
    ensures |M| == |F|
  {
    hide Irredundant.Redundant, Irredundant.Needed, Irredundant.ClosesAlone, Irredundant.AtMostOne, Irredundant.Kept;
  }

  lemma SlicedFrom(s: Space, F: Cover, p: Part, F1: Cover, from: seq<nat>)
    requires p in Full(s) && Sliced(s, F, p, |F|, F1, from)
    ensures |from| == |F1| && forall i :: 0 <= i < |from| ==> from[i] < |F|
    ensures forall i, j :: 0 <= i < j < |from| ==> from[i] < from[j]
  {
  }

  /** The cube without the part p if it may be dropped; it is no longer a known prime. */
  function WithoutPart(s: Space, c: FCube, p: Part): FCube
    requires p.v < |s.sizes|
  {
    if MayDrop(s, c.cube, p.v) then c.(cube := c.cube - {p}, prime := false) else c.(prime := false)
  }

  /** In F' the first n slices that are not active in M took p from their cubes, and
      the other cubes are as before. */
  ghost predicate DroppedUpTo(s: Space, F: Cover, p: Part, M: Cover, from: seq<nat>, n: nat, F': Cover)
    requires p.v < |s.sizes| && |from| == |M| && n <= |M|
  {
    && |F'| == |F|
    && (forall k :: 0 <= k < |F| && k !in from[..n] ==> F'[k] == F[k])
    && (forall i :: 0 <= i < n && from[i] < |F| ==>
      F'[from[i]] == if M[i].active then F[from[i]] else WithoutPart(s, F[from[i]], p))
  }

  /** Take p from the cubes whose slice is not active. */
  method DropInactive(s: Space, F: Cover, p: Part, M: Cover, from: seq<nat>) returns (F': Cover)
    requires p.v < |s.sizes| && |from| == |M| && (forall i :: 0 <= i < |from| ==> from[i] < |F|)
    requires forall i, j :: 0 <= i < j < |from| ==> from[i] < from[j]
    ensures DroppedUpTo(s, F, p, M, from, |M|, F')
  {
    hide MayDrop;
    F' := F;
    var i := 0;
    while i < |M|
      invariant 0 <= i <= |M| && DroppedUpTo(s, F, p, M, from, i, F')
    {
      assert from[..i + 1] == from[..i] + [from[i]] && from[i] !in from[..i];
      if !M[i].active {
        F' := F'[from[i] := WithoutPart(s, F[from[i]], p)];
      }
      i := i + 1;
    }
  }

  lemma DroppedUpToFacts(s: Space, F: Cover, p: Part, F1: Cover, M: Cover, from: seq<nat>, F': Cover)
    requires p in Full(s) && Sliced(s, F, p, |F|, F1, from) && |M| == |F1|
    requires DroppedUpTo(s, F, p, M, from, |M|, F')
    ensures Dropped(s, F, p, F') && KeepsActive(F, M, from, F')
    ensures forall i :: 0 <= i < |M| && !M[i].active && from[i] < |F| && MayDrop(s, F[from[i]].cube, p.v) ==>
      p !in F'[from[i]].cube
  {
    hide Full, MayDrop;
    assert from[..|M|] == from;
    forall k | 0 <= k < |F|
      ensures F'[k].cube == F[k].cube || (MayDrop(s, F[k].cube, p.v) && F'[k].cube == F[k].cube - {p})
    {
      if i :| 0 <= i < |from| && from[i] == k {
        assert F'[from[i]] == if M[i].active then F[from[i]] else WithoutPart(s, F[from[i]], p);
      } else {
        assert k !in from;
      }
    }
  }

  /** H and F have the same minterms, up to those of D. */
  ghost predicate SameWith(s: Space, F: Cover, D: Cover, H: Cover) {
    forall m :: IsMinterm(s, m) ==> (Has(H, m) || Has(D, m) <==> Has(F, m) || Has(D, m))
  }

  /** Drop the part p from the cubes where the others cover it. */
  method ReducePart(s: Space, F: Cover, D: Cover, p: Part) returns (F': Cover)
    requires Valid(s, F) && Valid(s, D) && p in Full(s)
    ensures Dropped(s, F, p, F') && KeptFor(s, F, D, p, F') && SameWith(s, F, D, F')
  {
    hide Full, Sliced, Has, Valid, Dropped, DroppedUpTo, KeepsActive, Irredundant.MarksOf, KeptFor;
    var F1, from := SliceCover(s, F, p);
    var D1, fromD := SliceCover(s, D, p);
    var M := Irredundant.MarkIrredundant(s, F1, D1);
    SlicedFrom(s, F, p, F1, from);
    MarksLength(s, F1, D1, M);
    F' := DropInactive(s, F, p, M, from);
    DroppedUpToFacts(s, F, p, F1, M, from, F');
    AllKeptFor(s, F, D, p, F1, from, D1, fromD, M, F');
    forall m | IsMinterm(s, m)
      ensures Has(F', m) || Has(D, m) <==> Has(F, m) || Has(D, m)
    {
      DropKeeps(s, F, D, p, F1, from, D1, fromD, M, F', m);
    }
  }

  // ---- all the sparse variables

  /** c' is what sparse reduction may make of c: only sparse variables shrink, and
      one that is full stays full unless it is the output variable. */
  ghost predicate Thinned(s: Space, sparse: set<nat>, c: Cube, c': Cube) {
    && c' <= c
    && forall p :: p in c && p !in c' ==>
      p.v in sparse && (p.v == |s.sizes| - 1 || (p.v < |s.sizes| && !(Mask(s, p.v) <= c)))
  }

  ghost predicate AllThinned(s: Space, sparse: set<nat>, F: Cover, F': Cover) {
    |F'| == |F| && forall k :: 0 <= k < |F| ==> Thinned(s, sparse, F[k].cube, F'[k].cube)
  }

  lemma ThinnedStart(s: Space, sparse: set<nat>, F: Cover)
    ensures AllThinned(s, sparse, F, F)
  {
  }

  lemma ThinnedStep(s: Space, sparse: set<nat>, F0: Cover, F: Cover, p: Part, F': Cover)
    requires p in Full(s) && p.v in sparse && AllThinned(s, sparse, F0, F) && Dropped(s, F, p, F')
    ensures AllThinned(s, sparse, F0, F') && |F'| == |F|
  {
    hide Full;
    forall k | 0 <= k < |F0|
      ensures Thinned(s, sparse, F0[k].cube, F'[k].cube)
    {
      ThinnedCube(s, sparse, F0[k].cube, F[k].cube, p, F'[k].cube);
    }
  }

  lemma ThinnedCube(s: Space, sparse: set<nat>, c0: Cube, c: Cube, p: Part, c': Cube)
    requires p in Full(s) && p.v in sparse && Thinned(s, sparse, c0, c)
    requires c' == c || (MayDrop(s, c, p.v) && c' == c - {p})
    ensures Thinned(s, sparse, c0, c')
  {
    hide Full;
    if p.v != |s.sizes| - 1 && Mask(s, p.v) <= c0 {
      FullStays(s, sparse, c0, c, p.v);
    }
  }

  lemma FullStays(s: Space, sparse: set<nat>, c: Cube, c': Cube, v: nat)
    requires v < |s.sizes| - 1 && Thinned(s, sparse, c, c') && Mask(s, v) <= c
    ensures Mask(s, v) <= c'
  {
    forall q | q in Mask(s, v)
      ensures q in c'
    {
      assert q in c && q.v == v;
    }
  }

  lemma ThinnedValid(s: Space, sparse: set<nat>, F: Cover, F': Cover)
    requires AllThinned(s, sparse, F, F') && Valid(s, F)
    ensures Valid(s, F') && Inside(F', F)
  {
    hide Full;
    forall k | 0 <= k < |F'|
      ensures F'[k].cube <= Full(s) && Within(F'[k].cube, F)
    {
      assert F'[k].cube <= F[k].cube;
    }
  }

  // ---- why a part is kept, over the whole reduction

  /** H is a cover on the way from F, with the same minterms up to D, in which no cube
      has lost p. */
  ghost predicate Midway(s: Space, sparse: set<nat>, F: Cover, D: Cover, H: Cover, p: Part) {
    && AllThinned(s, sparse, F, H) && SameWith(s, F, D, H)
    && forall j :: 0 <= j < |F| && p in F[j].cube ==> p in H[j].cube
  }

  /** There was a reason to keep p in the k-th cube when its turn came. */
  ghost predicate Explained(s: Space, sparse: set<nat>, F: Cover, D: Cover, F1: Cover, k: nat, p: Part)
    requires k < |F|
  {
    exists H: Cover :: Midway(s, sparse, F, D, H, p) && BelowAll(F1, H) && Reason(s, H, D, k, p)
  }

  /** Every cube of F is part of the one of H with the same number. */
  ghost predicate BelowAll(F: Cover, H: Cover) {
    |F| == |H| && forall k :: 0 <= k < |F| ==> F[k].cube <= H[k].cube
  }

  /** Whether p comes before part k of variable v. */
  predicate Before(p: Part, v: nat, k: nat) {
    p.v < v || (p.v == v && p.k < k)
  }

  /** Every part in front of part k of variable v that is still in its cube, and could
      have been dropped, is there for a reason. */
  ghost predicate ExplainedUpTo(s: Space, sparse: set<nat>, F: Cover, D: Cover, F1: Cover, v: nat, k: nat)
    requires |F1| == |F|
  {
    forall i, p :: 0 <= i < |F| && Due(s, sparse, F[i].cube, F1[i].cube, v, k, p) ==>
      Explained(s, sparse, F, D, F1, i, p)
  }

  /** c' still has the part p of c, whose turn came and that could have been dropped. */
  ghost predicate Due(s: Space, sparse: set<nat>, c: Cube, c': Cube, v: nat, k: nat, p: Part) {
    && p in c' && p.v < |s.sizes| && p.v in sparse && Before(p, v, k)
    && MayDrop(s, c, p.v) && NonVoid(s, c')
  }

  /** The parts from part k of variable v on are still in their cubes. */
  ghost predicate Untouched(F: Cover, F1: Cover, v: nat, k: nat)
    requires |F1| == |F|
  {
    forall i, p :: 0 <= i < |F| && p in F[i].cube && !Before(p, v, k) ==> p in F1[i].cube
  }

  lemma SameWithTrans(s: Space, F: Cover, D: Cover, G: Cover, H: Cover)
    requires SameWith(s, F, D, G) && SameWith(s, G, D, H)
    ensures SameWith(s, F, D, H)
  {
    hide Has;
  }

  /** What was explained before a part was dropped still is. */
  lemma ExplainedStep(s: Space, sparse: set<nat>, F0: Cover, D: Cover, F: Cover, p: Part, F': Cover)
    requires p in Full(s) && p.v in sparse && |F| == |F0| && AllThinned(s, sparse, F0, F) && SameWith(s, F0, D, F)
    requires Untouched(F0, F, p.v, p.k) && ExplainedUpTo(s, sparse, F0, D, F, p.v, p.k)
    requires Dropped(s, F, p, F') && KeptFor(s, F, D, p, F')
    ensures |F'| == |F0| && Untouched(F0, F', p.v, p.k + 1) && ExplainedUpTo(s, sparse, F0, D, F', p.v, p.k + 1)
  {
    hide Full, SameWith, AllThinned, Untouched, Explained, NonVoid, MayDrop, Reason, KeptFor, Dropped;
    UntouchedStep(s, F0, F, p, F');
    DroppedBelow(s, F, p, F');
    forall i, q | 0 <= i < |F0| && Due(s, sparse, F0[i].cube, F'[i].cube, p.v, p.k + 1, q)
      ensures Explained(s, sparse, F0, D, F', i, q)
    {
      MoreValues(s, F'[i].cube, F[i].cube);
      if q == p {
        ExplainedNow(s, sparse, F0, D, F, p, F', i);
      } else {
        assert Due(s, sparse, F0[i].cube, F[i].cube, p.v, p.k, q);
        ExplainedBelow(s, sparse, F0, D, F, F', i, q);
      }
    }
  }

  lemma UntouchedStep(s: Space, F0: Cover, F: Cover, p: Part, F': Cover)
    requires p in Full(s) && |F| == |F0| && Untouched(F0, F, p.v, p.k) && Dropped(s, F, p, F')
    ensures |F'| == |F0| && Untouched(F0, F', p.v, p.k + 1)
  {
    hide Full, MayDrop;
    forall i, q | 0 <= i < |F0| && q in F0[i].cube && !Before(q, p.v, p.k + 1)
      ensures q in F'[i].cube
    {
      assert q != p && !Before(q, p.v, p.k);
      assert q in F[i].cube;
      assert F'[i].cube == F[i].cube || F'[i].cube == F[i].cube - {p};
    }
  }

  lemma DroppedBelow(s: Space, F: Cover, p: Part, F': Cover)
    requires p in Full(s) && Dropped(s, F, p, F')
    ensures BelowAll(F', F)
  {
    hide Full, MayDrop;
  }

  lemma MoreValues(s: Space, a: Cube, b: Cube)
    requires NonVoid(s, a) && a <= b
    ensures NonVoid(s, b)
  {
    forall v | 0 <= v < |s.sizes|
      ensures b * Mask(s, v) != {}
    {
      var p := Member(a * Mask(s, v));
      assert p in b * Mask(s, v);
    }
  }

  lemma ExplainedNow(s: Space, sparse: set<nat>, F0: Cover, D: Cover, F: Cover, p: Part, F': Cover, i: nat)
    requires p in Full(s) && |F| == |F0| == |F'| && AllThinned(s, sparse, F0, F) && SameWith(s, F0, D, F) && i < |F0|
    requires Untouched(F0, F, p.v, p.k) && KeptFor(s, F, D, p, F') && BelowAll(F', F)
    requires p in F'[i].cube && p.v < |s.sizes| && MayDrop(s, F0[i].cube, p.v) && NonVoid(s, F[i].cube)
    ensures Explained(s, sparse, F0, D, F', i, p)
  {
    hide Full, SameWith, NonVoid, Reason, Thinned;
    ThinnedLess(s, sparse, F0[i].cube, F[i].cube);
    assert Reason(s, F, D, i, p);
    forall j | 0 <= j < |F0| && p in F0[j].cube
      ensures p in F[j].cube
    {
      assert !Before(p, p.v, p.k);
    }
    assert Midway(s, sparse, F0, D, F, p);
  }

  lemma ThinnedLess(s: Space, sparse: set<nat>, c: Cube, c': Cube)
    requires Thinned(s, sparse, c, c')
    ensures c' <= c
  {
  }

  lemma ExplainedBelow(s: Space, sparse: set<nat>, F: Cover, D: Cover, F1: Cover, F2: Cover, k: nat, p: Part)
    requires k < |F| && Explained(s, sparse, F, D, F1, k, p) && BelowAll(F2, F1)
    ensures Explained(s, sparse, F, D, F2, k, p)
  {
    hide Thinned, SameWith, Reason;
    var H: Cover :| Midway(s, sparse, F, D, H, p) && BelowAll(F1, H) && Reason(s, H, D, k, p);
    assert BelowAll(F2, H);
  }

  lemma NothingYet(s: Space, sparse: set<nat>, F: Cover, D: Cover)
    ensures Untouched(F, F, 0, 0) && ExplainedUpTo(s, sparse, F, D, F, 0, 0) && SameWith(s, F, D, F)
  {
    hide Has, Explained;
  }

  /** A variable whose parts are all done, or that is not sparse, is followed by the
      next one. */
  lemma NextVariable(s: Space, sparse: set<nat>, F: Cover, D: Cover, F1: Cover, v: nat, k: nat)
    requires |F1| == |F| && v < |s.sizes| && Valid(s, F1)
    requires Untouched(F, F1, v, k) && ExplainedUpTo(s, sparse, F, D, F1, v, k)
    requires v in sparse ==> k == s.sizes[v]
    ensures Untouched(F, F1, v + 1, 0) && ExplainedUpTo(s, sparse, F, D, F1, v + 1, 0)
  {
    hide Explained, MayDrop, NonVoid;
    forall i, p | 0 <= i < |F| && p in F[i].cube && !Before(p, v + 1, 0)
      ensures p in F1[i].cube
    {
      assert !Before(p, v, k);
    }
    forall i, p | 0 <= i < |F| && Due(s, sparse, F[i].cube, F1[i].cube, v + 1, 0, p)
      ensures Explained(s, sparse, F, D, F1, i, p)
    {
      assert p in Full(s);
      assert Due(s, sparse, F[i].cube, F1[i].cube, v, k, p);
    }
  }

  /** Why p is in the k-th cube, if nothing but its own variable was reduced: some
      minterm of the original cube through p is neither in D nor in another original
      cube that is essential at p. */
  lemma OneVariable(s: Space, sparse: set<nat>, F: Cover, D: Cover, F1: Cover, k: nat, p: Part)
    requires k < |F| && Explained(s, sparse, F, D, F1, k, p)
    requires forall u :: u in sparse && u < |s.sizes| ==> u == p.v
    ensures Reason(s, F, D, k, p)
  {
    hide In, HasOther, Has, SameWith;
    var H: Cover :| Midway(s, sparse, F, D, H, p) && BelowAll(F1, H) && Reason(s, H, D, k, p);
    forall j, m: Minterm | 0 <= j < |F| && IsMinterm(s, m) && p.v < |m| && m[p.v] == p.k
      ensures In(m, H[j].cube) <==> In(m, F[j].cube)
    {
      ThroughThinned(s, sparse, F[j].cube, H[j].cube, p, m);
    }
    var m :| Through(s, H, k, p, m) && !Has(D, m) &&
      forall j :: 0 <= j < |H| && j != k && In(m, H[j].cube) ==> !EssentialAt(s, H, D, j, p);
    assert Through(s, F, k, p, m);
    forall j | 0 <= j < |F| && j != k && In(m, F[j].cube)
      ensures !EssentialAt(s, F, D, j, p)
    {
      SameOthers(s, F, D, H, j, p);
    }
  }

  lemma ThroughThinned(s: Space, sparse: set<nat>, c: Cube, c': Cube, p: Part, m: Minterm)
    requires Thinned(s, sparse, c, c') && (p in c ==> p in c') && IsMinterm(s, m) && p.v < |m| && m[p.v] == p.k
    requires forall u :: u in sparse && u < |s.sizes| ==> u == p.v
    ensures In(m, c') <==> In(m, c)
  {
    if In(m, c) {
      forall v | 0 <= v < |m|
        ensures Part(v, m[v]) in c'
      {
        assert v == p.v ==> Part(v, m[v]) == p;
      }
    }
  }

  lemma SameOthers(s: Space, F: Cover, D: Cover, H: Cover, j: nat, p: Part)
    requires |H| == |F| && j < |F| && !EssentialAt(s, H, D, j, p)
    requires forall i, m: Minterm :: 0 <= i < |F| && IsMinterm(s, m) && p.v < |m| && m[p.v] == p.k ==>
      (In(m, H[i].cube) <==> In(m, F[i].cube))
    ensures !EssentialAt(s, F, D, j, p)
  {
    hide In, HasOther, Has;
    forall m | Through(s, F, j, p, m)
      ensures HasOther(F, D, j, m)
    {
      assert Through(s, H, j, p, m);
      AllOthers(H, D, j, m);
      AllOthers(F, D, j, m);
    }
  }

  /** Reduce the sparse variables, part after part. */
  method ReduceParts(s: Space, F0: Cover, D: Cover, sparse: set<nat>) returns (F: Cover)
    requires Valid(s, F0) && Valid(s, D)
    ensures AllThinned(s, sparse, F0, F) && |F| == |F0| && SameWith(s, F0, D, F)
    ensures ExplainedUpTo(s, sparse, F0, D, F, |s.sizes|, 0)
  {
    hide Full, Valid, AllThinned, Dropped, KeptFor, SameWith, Untouched, ExplainedUpTo;
    F := F0;
    ThinnedStart(s, sparse, F0);
    NothingYet(s, sparse, F0, D);
    var v := 0;
    while v < |s.sizes|
      invariant 0 <= v <= |s.sizes| && AllThinned(s, sparse, F0, F) && |F| == |F0| && SameWith(s, F0, D, F)
      invariant Untouched(F0, F, v, 0) && ExplainedUpTo(s, sparse, F0, D, F, v, 0)
    {
      var k := 0;
      if v in sparse {
        while k < s.sizes[v]
          invariant 0 <= k <= s.sizes[v] && AllThinned(s, sparse, F0, F) && |F| == |F0| && SameWith(s, F0, D, F)
          invariant Untouched(F0, F, v, k) && ExplainedUpTo(s, sparse, F0, D, F, v, k)
        {
          ThinnedValid(s, sparse, F0, F);
          var F' := ReducePart(s, F, D, Part(v, k));
          SameWithTrans(s, F0, D, F, F');
          ThinnedStep(s, sparse, F0, F, Part(v, k), F');
          ExplainedStep(s, sparse, F0, D, F, Part(v, k), F');
          F := F';
          k := k + 1;
        }
      }
      ThinnedValid(s, sparse, F0, F);
      NextVariable(s, sparse, F0, D, F, v, k);
      v := v + 1;
    }
  }

  /** The cube keeps a part in every sparse variable. */
  predicate KeepsSparse(s: Space, sparse: set<nat>, c: Cube) {
    forall v :: 0 <= v < |s.sizes| && v in sparse ==> c * Mask(s, v) != {}
  }

  method MarkSparse(s: Space, F: Cover, sparse: set<nat>) returns (G: Cover)
    ensures |G| == |F| && forall k :: 0 <= k < |F| ==> G[k] == F[k].(active := KeepsSparse(s, sparse, F[k].cube))
  {
    hide KeepsSparse;
    G := F;
    var k := 0;
    while k < |F|
      invariant 0 <= k <= |F| == |G|
      invariant forall i :: 0 <= i < k ==> G[i] == F[i].(active := KeepsSparse(s, sparse, F[i].cube))
      invariant forall i :: k <= i < |F| ==> G[i] == F[i]
    {
      G := G[k := F[k].(active := KeepsSparse(s, sparse, F[k].cube))];
      k := k + 1;
    }
  }

  /** Every cube of G is a thinned cube of F that keeps a part in each sparse
      variable. */
  ghost predicate Thins(s: Space, sparse: set<nat>, F: Cover, G: Cover) {
    forall j :: 0 <= j < |G| ==> ThinOne(s, sparse, F, G[j].cube)
  }

  ghost predicate ThinOne(s: Space, sparse: set<nat>, F: Cover, c: Cube) {
    KeepsSparse(s, sparse, c) && exists k :: 0 <= k < |F| && Thinned(s, sparse, F[k].cube, c)
  }

  /** G are the cubes of F1 that keep a part in each sparse variable, F1 is thinned from
      F, and what it did not drop it had a reason to keep. */
  ghost predicate Sparsest(s: Space, sparse: set<nat>, F: Cover, D: Cover, F1: Cover, G: Cover, from: seq<nat>) {
    && |F1| == |F| && AllThinned(s, sparse, F, F1) && ExplainedUpTo(s, sparse, F, D, F1, |s.sizes|, 0)
    && |from| == |G| && (forall j :: 0 <= j < |G| ==> from[j] < |F1| && G[j].cube == F1[from[j]].cube)
    && (forall k :: 0 <= k < |F1| ==> (k in from <==> KeepsSparse(s, sparse, F1[k].cube)))
  }

  /** Reduce the sparse variables of a cover and delete the cubes that became void;
      with the don't cares the cover keeps its minterms. */
  method MvReduce(s: Space, F: Cover, D: Cover, sparse: set<nat>) returns (G: Cover)
    requires Valid(s, F) && Valid(s, D)
    ensures Valid(s, G) && |G| <= |F| && Inside(G, F) && Thins(s, sparse, F, G) && SameWith(s, F, D, G)
    ensures exists F1: Cover, from: seq<nat> :: Sparsest(s, sparse, F, D, F1, G, from)
  {
    hide Full, Valid, Has, AllThinned, Inside, KeepsSparse, Thins, ExplainedUpTo;
    var F1 := ReduceParts(s, F, D, sparse);
    ThinnedValid(s, sparse, F, F1);
    var M := MarkSparse(s, F1, sparse);
    ghost var from;
    G, from := Inactive(M);
    SameCubesFacts(s, F1, M);
    InactiveFacts(s, M, G, from);
    InsideTrans(G, M, F1);
    InsideTrans(G, F1, F);
    AllThin(s, sparse, F, F1, M, G, from);
    assert Sparsest(s, sparse, F, D, F1, G, from);
    forall m | IsMinterm(s, m)
      ensures Has(G, m) <==> Has(F1, m)
    {
      if Has(F1, m) {
        VoidDropped(s, sparse, F1, M, G, from, m);
      }
    }
  }

  /** With one sparse variable, every part of it that is left in a cube, and could have
      been dropped, has a reason in the cover that was reduced. */
  lemma OneSparse(s: Space, sparse: set<nat>, F: Cover, D: Cover, F1: Cover, G: Cover, from: seq<nat>, j: nat, p: Part)
    requires Sparsest(s, sparse, F, D, F1, G, from) && j < |G| && p in G[j].cube && NonVoid(s, G[j].cube)
    requires p.v in sparse && p.v < |s.sizes| && MayDrop(s, F[from[j]].cube, p.v)
    requires forall u :: u in sparse && u < |s.sizes| ==> u == p.v
    ensures Reason(s, F, D, from[j], p)
  {
    hide Explained, Reason, KeepsSparse, NonVoid, MayDrop, AllThinned;
    assert Due(s, sparse, F[from[j]].cube, F1[from[j]].cube, |s.sizes|, 0, p);
    OneVariable(s, sparse, F, D, F1, from[j], p);
  }

  lemma AllThin(s: Space, sparse: set<nat>, F: Cover, F1: Cover, M: Cover, G: Cover, from: seq<nat>)
    requires AllThinned(s, sparse, F, F1) && |M| == |F1| && |from| == |G|
    requires forall k :: 0 <= k < |F1| ==> M[k] == F1[k].(active := KeepsSparse(s, sparse, F1[k].cube))
    requires forall j :: 0 <= j < |G| ==> from[j] < |M| && G[j] == M[from[j]] && G[j].active
    ensures Thins(s, sparse, F, G)
  {
    hide KeepsSparse, Thinned;
    forall j | 0 <= j < |G|
      ensures ThinOne(s, sparse, F, G[j].cube)
    {
      assert Thinned(s, sparse, F[from[j]].cube, F1[from[j]].cube);
    }
  }

  lemma VoidDropped(s: Space, sparse: set<nat>, F1: Cover, M: Cover, G: Cover, from: seq<nat>, m: Minterm)
    requires |M| == |F1| && |from| == |G| && IsMinterm(s, m) && Has(F1, m)
    requires forall k :: 0 <= k < |F1| ==> M[k] == F1[k].(active := KeepsSparse(s, sparse, F1[k].cube))
    requires forall j :: 0 <= j < |G| ==> from[j] < |M| && G[j] == M[from[j]]
    requires forall k :: 0 <= k < |M| && M[k].active ==> k in from
    ensures Has(G, m)
  {
    hide In, KeepsSparse;
    var k :| 0 <= k < |F1| && In(m, F1[k].cube);
    HoldsSparse(s, sparse, F1[k].cube, m);
    var j :| 0 <= j < |from| && from[j] == k;
    assert In(m, G[j].cube);
  }

  lemma HoldsSparse(s: Space, sparse: set<nat>, c: Cube, m: Minterm)
    requires IsMinterm(s, m) && In(m, c)
    ensures KeepsSparse(s, sparse, c)
  {
    forall v | 0 <= v < |s.sizes| && v in sparse
      ensures c * Mask(s, v) != {}
    {
      assert Part(v, m[v]) in c * Mask(s, v);
    }
  }

  /** Sparse reduction empties no variable of a cube it leaves. */
  lemma ThinsKeep(s: Space, sparse: set<nat>, F: Cover, G: Cover)
    requires Thins(s, sparse, F, G)
    ensures KeepsValues(s, F, G)
  {
    hide NoEmptier, Thinned, KeepsSparse;
    forall j | 0 <= j < |G|
      ensures Emptier(s, F, G[j].cube)
    {
      assert ThinOne(s, sparse, F, G[j].cube);
      var k :| 0 <= k < |F| && Thinned(s, sparse, F[k].cube, G[j].cube);
      ThinNoEmptier(s, sparse, F[k].cube, G[j].cube);
    }
    EmptierKeeps(s, F, G);
  }

  lemma ThinNoEmptier(s: Space, sparse: set<nat>, c: Cube, c': Cube)
    requires Thinned(s, sparse, c, c') && KeepsSparse(s, sparse, c')
    ensures NoEmptier(s, c, c')
  {
    forall v | 0 <= v < |s.sizes| && c * Mask(s, v) != {}
      ensures c' * Mask(s, v) != {}
    {
      if v !in sparse {
        var p := Member(c * Mask(s, v));
        assert p in c' * Mask(s, v);
      }
    }
  }
}
