/** The last gasp: reduce every cube on its own, expand the reduced cubes to cover
    one another, and let irredundant choose between the old cubes and the new. */
module Gasp {
  import opened Cubes
  import opened Counting
  import opened CubeLists
  import opened Families
  import opened Raising
  import Containment
  import Reduce
  import Expand
  import Irredundant

  // ---- reducing without replacement

  /** The maximal reduction of the k-th cube of F. */
  ghost predicate Maximal(s: Space, F: Cover, D: Cover, k: nat, r: Cube)
    requires k < |F|
  {
    && r <= F[k].cube
    && (NonVoid(s, F[k].cube) ==> forall p :: p in F[k].cube ==> (p in r <==> Reduce.Alone(s, F, D, k, F[k].cube, p)))
    && (!NonVoid(s, F[k].cube) ==> r == F[k].cube)
  }

  /** Each cube of G is the maximal reduction of its cube of F. */
  ghost predicate GaspReduced(s: Space, F: Cover, D: Cover, G: Cover) {
    |G| == |F| && forall k :: 0 <= k < |F| ==> Maximal(s, F, D, k, G[k].cube)
  }

  /** A cube stays prime only if it was not reduced. */
  ghost predicate Flagged(F: Cover, G: Cover) {
    |G| == |F| && forall k :: 0 <= k < |F| ==> (G[k].prime <==> F[k].prime && G[k].cube == F[k].cube)
  }

  /** The cubes other than the k-th, with the don't cares, cover it. */
  ghost predicate Superfluous(s: Space, F: Cover, D: Cover, k: nat)
    requires k < |F|
  {
    forall m :: IsMinterm(s, m) && In(m, F[k].cube) ==> HasOther(F, D, k, m)
  }

  lemma MaximalNow(s: Space, F: Cover, D: Cover, k: nat, r: Cube)
    requires k < |F| && r <= F[k].cube
    requires NonVoid(s, F[k].cube) ==> forall p :: p in F[k].cube ==>
      (p in r <==> Reduce.Needs(s, Cube2List(F, D), k, F[k].cube, p))
    requires !NonVoid(s, F[k].cube) ==> r == F[k].cube
    ensures Maximal(s, F, D, k, r)
  {
    hide HasOther, OtherCovers, NonVoid, Cube2List, In;
    forall m
      ensures OtherCovers(Cube2List(F, D), k, m) <==> HasOther(F, D, k, m)
    {
      Cube2ListOthers(F, D, k, m);
    }
  }

  lemma EmptySuperfluous(s: Space, F: Cover, D: Cover, k: nat)
    requires k < |F| && Maximal(s, F, D, k, {})
    ensures Superfluous(s, F, D, k)
  {
    hide HasOther;
    forall m | IsMinterm(s, m) && In(m, F[k].cube)
      ensures HasOther(F, D, k, m)
    {
      MintermMakesNonVoid(s, m, F[k].cube);
      assert Part(0, m[0]) in F[k].cube;
      assert !Reduce.Alone(s, F, D, k, F[k].cube, Part(0, m[0]));
    }
  }

  /** Reduce each cube against all the others.  It fails when a reduction is empty,
      and then the cube was redundant. */
  method ReduceGasp(s: Space, F: Cover, D: Cover) returns (ok: bool, G: Cover)
    requires Valid(s, F) && Valid(s, D)
    ensures ok ==> GaspReduced(s, F, D, G) && Flagged(F, G) && forall k :: 0 <= k < |F| ==> G[k].cube != {}
    ensures !ok ==> exists k :: 0 <= k < |F| && Superfluous(s, F, D, k)
  {
    hide Full, Maximal, Superfluous, NonVoid, Valid, Cube2List, Reduce.Needs;
    G := [];
    Cube2ListValid(s, F, D);
    var k := 0;
    while k < |F|
      invariant 0 <= k <= |F| && |G| == k
      invariant forall i :: 0 <= i < k ==> Maximal(s, F, D, i, G[i].cube) && G[i].cube != {}
      invariant forall i :: 0 <= i < k ==> (G[i].prime <==> F[i].prime && G[i].cube == F[i].cube)
    {
      ValidAt(s, F, k);
      NoCof(F, D);
      var cunder := Reduce.ReduceCube(s, Cube2List(F, D), F[k].cube, k);
      MaximalNow(s, F, D, k, cunder);
      if cunder == {} {
        EmptySuperfluous(s, F, D, k);
        return false, G;
      } else if cunder == F[k].cube {
        G := G + [F[k]];
      } else {
        G := G + [F[k].(cube := cunder, prime := false)];
      }
      k := k + 1;
    }
    ok := true;
  }

  lemma NoCof(F: Cover, D: Cover)
    ensures Cube2List(F, D).cof == {}
  {
  }

  // ---- expanding one reduced cube to cover another

  /** F with the i-th cube replaced. */
  function Replace(F: Cover, i: nat, c: Cube): (G: Cover)
    requires i < |F|
    ensures |G| == |F| && G[i].cube == c && forall k :: 0 <= k < |F| && k != i ==> G[k] == F[k]
  {
    F[i := F[i].(cube := c)]
  }

  /** With the i-th cube replaced by c1, the new cube makes some other cube
      redundant. */
  ghost predicate Replaces(s: Space, F: Cover, D: Cover, c1: nat, r: Cube, c2: nat, c: Cube)
    requires c1 < |F| && c2 < |F|
  {
    forall m :: IsMinterm(s, m) && In(m, F[c2].cube) ==> HasOther(Replace(F, c1, r), D, c2, m) || In(m, c)
  }

  /** Where a candidate comes from. */
  ghost predicate Candidate(s: Space, F: Cover, D: Cover, G: Cover, c1: nat, c: Cube)
    requires c1 < |F| == |G|
  {
    && G[c1].cube <= c <= Full(s)
    && exists c2 :: 0 <= c2 < |F| && c2 != c1 && Replaces(s, F, D, c1, G[c1].cube, c2, c)
  }

  lemma SameOthers(F: Cover, D: Cover, c1: nat, r: Cube, c2: nat, m: Minterm)
    requires c1 < |F| && c2 < |F| && c1 != c2 && !In(m, F[c1].cube)
    requires HasOther(F, D, c2, m)
    ensures HasOther(Replace(F, c1, r), D, c2, m)
  {
    hide In;
    if i :| 0 <= i < |F| && i != c2 && In(m, F[i].cube) {
      assert In(m, Replace(F, c1, r)[i].cube);
    } else {
      var j :| 0 <= j < |D| && |F| + j != c2 && In(m, D[j].cube);
      assert |Replace(F, c1, r)| + j != c2;
    }
  }

  /** What c2 needs once c1 has been reduced lies in c1 and in what c2 needed
      before. */
  lemma EssentialInside(s: Space, F: Cover, D: Cover, c1: nat, r: Cube, c2: nat, under: Cube, e: Cube)
    requires c1 < |F| && c2 < |F| && c1 != c2
    requires Maximal(s, F, D, c2, under) && Maximal(s, Replace(F, c1, r), D, c2, e)
    ensures e <= F[c1].cube + under
  {
    hide In, NonVoid, HasOther, Replace;
    var F1 := Replace(F, c1, r);
    forall p | p in e
      ensures p in F[c1].cube + under
    {
      if NonVoid(s, F[c2].cube) {
        assert Reduce.Alone(s, F1, D, c2, F[c2].cube, p);
        var m :| IsMinterm(s, m) && In(m, F[c2].cube) && p.v < |m| && m[p.v] == p.k && !HasOther(F1, D, c2, m);
        if In(m, F[c1].cube) {
          PartOf(m, F[c1].cube, p);
        } else {
          if HasOther(F, D, c2, m) {
            SameOthers(F, D, c1, r, c2, m);
          }
          assert Reduce.Alone(s, F, D, c2, F[c2].cube, p);
        }
      }
    }
  }

  lemma PartOf(m: Minterm, c: Cube, p: Part)
    requires In(m, c) && p.v < |m| && m[p.v] == p.k
    ensures p in c
  {
    assert p == Part(p.v, m[p.v]);
  }

  /** The new cube covers what c2 needs, so c2 becomes redundant. */
  lemma EssentialReplaces(s: Space, F: Cover, D: Cover, c1: nat, r: Cube, c2: nat, e: Cube, c: Cube)
    requires c1 < |F| && c2 < |F| && c1 != c2 && Maximal(s, Replace(F, c1, r), D, c2, e) && e <= c
    ensures Replaces(s, F, D, c1, r, c2, c)
  {
    hide HasOther, NonVoid;
    var F1 := Replace(F, c1, r);
    forall m | IsMinterm(s, m) && In(m, F[c2].cube) && !HasOther(F1, D, c2, m)
      ensures In(m, c)
    {
      MintermMakesNonVoid(s, m, F[c2].cube);
      forall v | 0 <= v < |m|
        ensures Part(v, m[v]) in c
      {
        assert Reduce.Alone(s, F1, D, c2, F1[c2].cube, Part(v, m[v]));
      }
    }
  }

  /** Lowering never takes a part of the cube that was reduced: that cube keeps
      clear of the OFF-set, so each of its parts can be raised. */
  lemma OriginalKept(s: Space, off: seq<Cube>, c1: Cube, raise: Cube, free0: Cube, free: Cube)
    requires Clear(s, off, c1) && raise <= c1 <= Full(s) && free0 == Full(s) - raise
    requires forall p :: p in free0 ==> (p in free <==> !Blocked(s, off, raise, {p}))
    ensures c1 <= raise + free
  {
    hide Full, Meets;
    forall p | p in c1 && p !in raise
      ensures p in free
    {
      if j :| 0 <= j < |off| && Meets(s, off[j], raise + {p}) {
        MeetsMonotone(s, off[j], raise + {p}, off[j], c1);
      }
    }
  }

  /** Only active OFF-set cubes are checked, yet no OFF-set cube meets the new
      cube. */
  lemma CandidateClear(s: Space, off: seq<Cube>, active: seq<bool>, raise: Cube, free: Cube, c1: Cube, under: Cube,
      e: Cube)
    requires |active| == |off| && Cleared(s, off, active, raise + free) && Apart(s, off, active, raise + e)
    requires c1 <= raise + free && under <= raise + free && e <= c1 + under
    ensures Clear(s, off, raise + e)
  {
    hide Cleared, Apart, Clear;
    ClearNow(s, off, active, raise + e, raise + free);
  }

  lemma ReplaceValid(s: Space, F: Cover, c1: nat, r: Cube)
    requires Valid(s, F) && c1 < |F| && r <= F[c1].cube
    ensures Valid(s, Replace(F, c1, r))
  {
    hide Full;
    forall i | 0 <= i < |F|
      ensures Replace(F, c1, r)[i].cube <= Full(s)
    {
      assert F[i].cube <= Full(s) && F[c1].cube <= Full(s);
    }
  }

  lemma GaspValid(s: Space, F: Cover, D: Cover, G: Cover)
    requires Valid(s, F) && GaspReduced(s, F, D, G)
    ensures Valid(s, G)
  {
    hide Full, NonVoid, Reduce.Alone;
    forall k | 0 <= k < |G|
      ensures G[k].cube <= Full(s)
    {
      assert Maximal(s, F, D, k, G[k].cube) && F[k].cube <= Full(s);
    }
  }

  /** There is one maximal reduction. */
  lemma MaximalOne(s: Space, F: Cover, D: Cover, k: nat, a: Cube, b: Cube)
    requires k < |F| && Maximal(s, F, D, k, a) && Maximal(s, F, D, k, b)
    ensures a == b
  {
    hide NonVoid, Reduce.Alone;
  }

  /** With the i-th cube reduced, another one needs no less than before. */
  lemma NeedsMore(s: Space, F: Cover, D: Cover, c1: nat, r: Cube, c2: nat, under: Cube, e: Cube)
    requires c1 < |F| && c2 < |F| && c1 != c2 && r <= F[c1].cube
    requires Maximal(s, F, D, c2, under) && Maximal(s, Replace(F, c1, r), D, c2, e)
    ensures under <= e
  {
    hide In, NonVoid, HasOther, Replace;
    forall p | p in under
      ensures p in e
    {
      if NonVoid(s, F[c2].cube) {
        assert Reduce.Alone(s, F, D, c2, F[c2].cube, p);
        var m :| IsMinterm(s, m) && In(m, F[c2].cube) && p.v < |m| && m[p.v] == p.k && !HasOther(F, D, c2, m);
        FewerOthers(F, D, c1, r, c2, m);
        assert Reduce.Alone(s, Replace(F, c1, r), D, c2, F[c2].cube, p);
      }
    }
  }

  lemma FewerOthers(F: Cover, D: Cover, c1: nat, r: Cube, c2: nat, m: Minterm)
    requires c1 < |F| && c2 < |F| && r <= F[c1].cube
    ensures HasOther(Replace(F, c1, r), D, c2, m) ==> HasOther(F, D, c2, m)
  {
    var F1 := Replace(F, c1, r);
    if i :| 0 <= i < |F1| && i != c2 && In(m, F1[i].cube) {
      assert F1[i].cube <= F[i].cube;
      assert In(m, F[i].cube);
    } else if j :| 0 <= j < |D| && |F1| + j != c2 && In(m, D[j].cube) {
      assert |F| + j != c2;
    }
  }

  /** Every part of raise is in r, or in no active OFF-set cube. */
  ghost predicate FreelyRaised(off: seq<Cube>, active: seq<bool>, r: Cube, raise: Cube)
    requires |active| == |off|
  {
    forall p :: p in raise ==> p in r || !Seen(off, active, |off|, p)
  }

  lemma FreelyApart(s: Space, off: seq<Cube>, active: seq<bool>, r: Cube, raise: Cube, e: Cube)
    requires |active| == |off| && FreelyRaised(off, active, r, raise) && Clear(s, off, r + e)
    ensures Apart(s, off, active, raise + e)
  {
    hide Meets;
    forall j | 0 <= j < |off| && active[j]
      ensures !Meets(s, off[j], raise + e)
    {
      forall p | p in off[j] && p in raise + e
        ensures p in r + e
      {
        assert Seen(off, active, |off|, p);
      }
      NotMeets(s, off[j], r + e, raise + e);
    }
  }

  lemma NotMeets(s: Space, q: Cube, a: Cube, b: Cube)
    requires !Meets(s, q, a) && forall p :: p in q && p in b ==> p in a
    ensures !Meets(s, q, b)
  {
    var v := Member(Clashes(s, q, a));
    assert q * b * Mask(s, v) <= q * a * Mask(s, v);
    assert v in Clashes(s, q, b);
  }

  /** What is clear of the OFF-set together with r is not lowered. */
  lemma ClearReached(s: Space, off: seq<Cube>, r: Cube, raise: Cube, upper: Cube, b: Cube)
    requires Clear(s, off, r + b) && Lost(s, off, r, r, {}, Full(s), upper) && b <= Full(s)
    ensures b <= upper
  {
    hide Full, Meets, Reasoned;
    forall p | p in b
      ensures p in upper
    {
      if p !in upper {
        BlockedIn(s, off, r, p, b);
      }
    }
  }

  lemma BlockedIn(s: Space, off: seq<Cube>, r: Cube, p: Part, b: Cube)
    requires Clear(s, off, r + b) && p in b
    ensures !Blocked(s, off, r, {p})
  {
    hide Meets;
    if Blocked(s, off, r, {p}) {
      var j :| 0 <= j < |off| && Meets(s, off[j], r + {p});
      MeetsMonotone(s, off[j], r + {p}, off[j], r + b);
    }
  }

  function OtherNonPrime(G: Cover, c1: nat): (r: seq<bool>)
    ensures |r| == |G| && forall i :: 0 <= i < |G| ==> r[i] == (i != c1 && !G[i].prime)
  {
    seq(|G|, i requires 0 <= i < |G| => i != c1 && !G[i].prime)
  }

  /** The state of expanding the reduced cube c1 once the parts that must be
      lowered have been: the cube it came from is still in reach. */
  ghost predicate Ready(s: Space, F: Cover, R: Cover, G: Cover, c1: nat, x: Expand.Expansion)
    requires c1 < |F| == |G|
    reads x
  {
    && x.Valid() && x.s == s && x.off == Expand.CubesOf(R) && x.on == Expand.CubesOf(G)
    && G[c1].cube <= x.raise && !x.onActive[c1]
    && FreelyRaised(x.off, x.offActive, G[c1].cube, x.raise)
    && Lost(s, x.off, G[c1].cube, G[c1].cube, {}, Full(s), x.raise + x.free)
    && (forall i :: 0 <= i < |G| && i != c1 && !G[i].prime && G[i].cube <= x.raise + x.free ==> x.onActive[i])
    && (Disjoint(s, F, R) ==> F[c1].cube <= x.raise + x.free)
  }

  /** c1 reduced, with what c2 needs then, is clear of the OFF-set. */
  ghost predicate Coverable(s: Space, F: Cover, D: Cover, R: Cover, G: Cover, c1: nat, c2: nat, e: Cube)
    requires c1 < |F| == |G| && c2 < |F|
  {
    Maximal(s, Replace(F, c1, G[c1].cube), D, c2, e) && Clear(s, Expand.CubesOf(R), G[c1].cube + e)
  }

  /** Try to cover the reduced cube c2. */
  method TryCover(s: Space, F: Cover, D: Cover, R: Cover, G: Cover, c1: nat, c2: nat, x: Expand.Expansion)
      returns (hit: bool, c: Cube)
    requires Valid(s, F) && Valid(s, D) && GaspReduced(s, F, D, G) && c1 < |F| && c2 < |F|
    requires Ready(s, F, R, G, c1, x) && x.onActive[c2]
    ensures hit ==> Candidate(s, F, D, G, c1, c)
    ensures hit && Disjoint(s, F, R) ==> Clear(s, Expand.CubesOf(R), c)
    ensures forall e :: Coverable(s, F, D, R, G, c1, c2, e) ==> hit && G[c1].cube + e <= c
  {
    hide Full, Meets, NonVoid, Valid, Disjoint, Maximal, Clear, Cleared, Near, Lasting, Apart, Replaces, Replace,
      Cube2List, Reduce.Needs, Lost, FreelyRaised;
    forall e | Coverable(s, F, D, R, G, c1, c2, e)
      ensures Apart(s, x.off, x.offActive, x.raise + e) && Apart(s, x.off, x.offActive, x.raise + G[c2].cube)
    {
      CoverableApart(s, F, D, R, G, c1, c2, e, x);
    }
    hit, c := G[c2].cube <= x.raise, {};
    if !hit {
      var lower;
      hit, lower := x.FeasiblyCovered(G[c2].cube);
    }
    if hit {
      var F1 := Replace(F, c1, G[c1].cube);
      ReducedAt(s, F, D, G, c1);
      ReducedAt(s, F, D, G, c2);
      ReplaceValid(s, F, c1, G[c1].cube);
      Cube2ListValid(s, F1, D);
      NoCof(F1, D);
      ValidAt(s, F1, c2);
      var c2essential := Reduce.ReduceCube(s, Cube2List(F1, D), F1[c2].cube, c2);
      MaximalNow(s, F1, D, c2, c2essential);
      forall e | Maximal(s, F1, D, c2, e)
        ensures e == c2essential
      {
        MaximalOne(s, F1, D, c2, e, c2essential);
      }
      var lower;
      hit, lower := x.FeasiblyCovered(c2essential);
      c := x.raise + c2essential;
      EssentialInside(s, F, D, c1, G[c1].cube, c2, G[c2].cube, c2essential);
      EssentialReplaces(s, F, D, c1, G[c1].cube, c2, c2essential, c);
      if hit && Disjoint(s, F, R) {
        CandidateClear(s, x.off, x.offActive, x.raise, x.free, F[c1].cube, G[c2].cube, c2essential);
      }
    }
  }

  lemma CoverableApart(s: Space, F: Cover, D: Cover, R: Cover, G: Cover, c1: nat, c2: nat, e: Cube,
      x: Expand.Expansion)
    requires GaspReduced(s, F, D, G) && c1 < |F| && c2 < |F| && c1 != c2
    requires Ready(s, F, R, G, c1, x) && Coverable(s, F, D, R, G, c1, c2, e)
    ensures Apart(s, x.off, x.offActive, x.raise + e) && Apart(s, x.off, x.offActive, x.raise + G[c2].cube)
  {
    hide Full, Meets, Disjoint, Maximal, Cleared, Near, Lasting, Replace, Lost, FreelyRaised, Clear, Apart;
    ReducedAt(s, F, D, G, c1);
    ReducedAt(s, F, D, G, c2);
    NeedsMore(s, F, D, c1, G[c1].cube, c2, G[c2].cube, e);
    ClearLess(s, x.off, G[c1].cube + e, G[c1].cube + G[c2].cube);
    FreelyApart(s, x.off, x.offActive, G[c1].cube, x.raise, e);
    FreelyApart(s, x.off, x.offActive, G[c1].cube, x.raise, G[c2].cube);
  }

  lemma ClearLess(s: Space, off: seq<Cube>, a: Cube, b: Cube)
    requires Clear(s, off, a) && b <= a
    ensures Clear(s, off, b)
  {
    hide Meets;
    forall j | 0 <= j < |off|
      ensures !Meets(s, off[j], b)
    {
      ShrunkApart(s, off[j], a, b);
    }
  }

  lemma ReducedAt(s: Space, F: Cover, D: Cover, G: Cover, k: nat)
    requires GaspReduced(s, F, D, G) && k < |F|
    ensures |G| == |F| && Maximal(s, F, D, k, G[k].cube) && G[k].cube <= F[k].cube
  {
    hide Reduce.Alone, NonVoid;
  }

  lemma MoreFound(s: Space, F: Cover, D: Cover, G: Cover, c1: nat, R: Cover, found: Cover, c: Cube)
    requires c1 < |F| == |G| && Candidate(s, F, D, G, c1, c)
    requires forall i :: 0 <= i < |found| ==> Candidate(s, F, D, G, c1, found[i].cube)
    ensures forall i :: 0 <= i < |found| + 1 ==> Candidate(s, F, D, G, c1, (found + [Plain(c)])[i].cube)
    ensures Disjoint(s, found, R) && Clear(s, Expand.CubesOf(R), c) ==> Disjoint(s, found + [Plain(c)], R)
  {
    hide Candidate, Meets;
    if Disjoint(s, found, R) && Clear(s, Expand.CubesOf(R), c) {
      forall i, j | 0 <= i < |found| + 1 && 0 <= j < |R|
        ensures !Meets(s, (found + [Plain(c)])[i].cube, R[j].cube)
      {
        if i == |found| {
          assert !Meets(s, Expand.CubesOf(R)[j], c);
          Expand.MeetsSym(s, R[j].cube, c);
        } else {
          assert !Meets(s, found[i].cube, R[j].cube);
        }
      }
    }
  }

  /** For every c2 before n that c1 can be made to cover, that is among the cubes
      found, unless c2 is prime. */
  ghost predicate FoundFor(s: Space, F: Cover, D: Cover, R: Cover, G: Cover, c1: nat, n: nat, found: Cover)
    requires c1 < |F| == |G|
  {
    forall c2, e :: 0 <= c2 < n && c2 < |F| && c2 != c1 && !G[c2].prime && Coverable(s, F, D, R, G, c1, c2, e) ==>
      Within(G[c1].cube + e, found)
  }

  lemma NoneFoundFor(s: Space, F: Cover, D: Cover, R: Cover, G: Cover, c1: nat)
    requires c1 < |F| == |G|
    ensures FoundFor(s, F, D, R, G, c1, 0, [])
  {
  }

  lemma FoundNext(s: Space, F: Cover, D: Cover, R: Cover, G: Cover, c1: nat, c2: nat, found0: Cover, hit: bool, c: Cube,
      found: Cover)
    requires c1 < |F| == |G| && c2 < |F| && FoundFor(s, F, D, R, G, c1, c2, found0)
    requires found == found0 + if hit then [Plain(c)] else []
    requires c2 != c1 && !G[c2].prime ==>
      forall e :: Coverable(s, F, D, R, G, c1, c2, e) ==> hit && G[c1].cube + e <= c
    ensures FoundFor(s, F, D, R, G, c1, c2 + 1, found)
  {
    hide Coverable, Within, Inside;
    InsideSum(found0, if hit then [Plain(c)] else []);
    FoundInside(s, F, D, R, G, c1, c2, found0, found);
    if c2 != c1 && !G[c2].prime {
      forall e | Coverable(s, F, D, R, G, c1, c2, e)
        ensures Within(G[c1].cube + e, found)
      {
        WithinLast(G[c1].cube + e, found);
      }
    }
  }

  lemma WithinLast(c: Cube, A: Cover)
    requires A != [] && c <= A[|A| - 1].cube
    ensures Within(c, A)
  {
  }

  lemma InsideSum(A: Cover, B: Cover)
    ensures Inside(A, A + B) && Inside(B, A + B)
  {
    forall i | 0 <= i < |A|
      ensures Within(A[i].cube, A + B)
    {
      assert A[i].cube <= (A + B)[i].cube;
    }
    forall i | 0 <= i < |B|
      ensures Within(B[i].cube, A + B)
    {
      assert B[i].cube <= (A + B)[|A| + i].cube;
    }
  }

  lemma FoundInside(s: Space, F: Cover, D: Cover, R: Cover, G: Cover, c1: nat, n: nat, A: Cover, B: Cover)
    requires c1 < |F| == |G| && FoundFor(s, F, D, R, G, c1, n, A) && Inside(A, B)
    ensures FoundFor(s, F, D, R, G, c1, n, B)
  {
    hide Coverable;
    forall c2, e | 0 <= c2 < n && c2 < |F| && c2 != c1 && !G[c2].prime && Coverable(s, F, D, R, G, c1, c2, e)
      ensures Within(G[c1].cube + e, B)
    {
      var i :| 0 <= i < |A| && G[c1].cube + e <= A[i].cube;
      assert Within(A[i].cube, B);
      var j :| 0 <= j < |B| && A[i].cube <= B[j].cube;
      assert G[c1].cube + e <= B[j].cube;
    }
  }

  lemma CoverableReach(s: Space, F: Cover, D: Cover, R: Cover, G: Cover, c1: nat, c2: nat, e: Cube,
      x: Expand.Expansion)
    requires Valid(s, F) && GaspReduced(s, F, D, G) && c1 < |F| && c2 < |F| && c1 != c2
    requires Ready(s, F, R, G, c1, x) && Coverable(s, F, D, R, G, c1, c2, e)
    ensures G[c2].cube <= x.raise + x.free
  {
    hide Full, Meets, Disjoint, Maximal, Cleared, Near, Lasting, Replace, Lost, FreelyRaised, Clear, Valid;
    ReducedAt(s, F, D, G, c1);
    ReducedAt(s, F, D, G, c2);
    ValidAt(s, F, c2);
    NeedsMore(s, F, D, c1, G[c1].cube, c2, G[c2].cube, e);
    ClearLess(s, x.off, G[c1].cube + e, G[c1].cube + G[c2].cube);
    ClearReached(s, x.off, G[c1].cube, x.raise, x.raise + x.free, G[c2].cube);
  }

  /** A cube that is out of reach cannot be covered. */
  lemma NotReached(s: Space, F: Cover, D: Cover, R: Cover, G: Cover, c1: nat, c2: nat, x: Expand.Expansion)
    requires Valid(s, F) && GaspReduced(s, F, D, G) && c1 < |F| && c2 < |F|
    requires Ready(s, F, R, G, c1, x) && !x.onActive[c2]
    ensures c2 != c1 && !G[c2].prime ==> forall e :: !Coverable(s, F, D, R, G, c1, c2, e)
  {
    hide Full, Meets, Disjoint, Cleared, Near, Lasting, Lost, FreelyRaised, Valid, GaspReduced, Coverable;
    SameLength(s, F, D, G);
    if c2 != c1 && !G[c2].prime {
      assert !(G[c2].cube <= x.raise + x.free);
      forall e
        ensures !Coverable(s, F, D, R, G, c1, c2, e)
      {
        if Coverable(s, F, D, R, G, c1, c2, e) {
          CoverableReach(s, F, D, R, G, c1, c2, e, x);
        }
      }
    }
  }

  method TryAll(s: Space, F: Cover, D: Cover, R: Cover, G: Cover, c1: nat, x: Expand.Expansion) returns (found: Cover)
    requires Valid(s, F) && Valid(s, D) && GaspReduced(s, F, D, G) && c1 < |F|
    requires Ready(s, F, R, G, c1, x)
    ensures forall i :: 0 <= i < |found| ==> Candidate(s, F, D, G, c1, found[i].cube) && !found[i].prime
    ensures Disjoint(s, F, R) ==> Disjoint(s, found, R)
    ensures FoundFor(s, F, D, R, G, c1, |G|, found)
  {
    hide Full, Meets, Valid, Disjoint, Candidate, Clear, Cleared, Near, Lasting, Reach, GaspReduced, Maximal,
      Coverable, Lost, FreelyRaised, FoundFor;
    found := [];
    NoneFound(s, R);
    ReducedAt(s, F, D, G, c1);
    NoneFoundFor(s, F, D, R, G, c1);
    var c2 := 0;
    while c2 < |G|
      invariant 0 <= c2 <= |G|
      invariant forall i :: 0 <= i < |found| ==> Candidate(s, F, D, G, c1, found[i].cube) && !found[i].prime
      invariant Disjoint(s, F, R) ==> Disjoint(s, found, R)
      invariant FoundFor(s, F, D, R, G, c1, c2, found)
    {
      ghost var found0 := found;
      if x.onActive[c2] {
        var hit, c := TryCover(s, F, D, R, G, c1, c2, x);
        if hit {
          MoreFound(s, F, D, G, c1, R, found, c);
          found := found + [Plain(c)];
        }
        FoundNext(s, F, D, R, G, c1, c2, found0, hit, c, found);
      } else {
        NotReached(s, F, D, R, G, c1, c2, x);
        FoundNext(s, F, D, R, G, c1, c2, found0, false, {}, found);
      }
      c2 := c2 + 1;
    }
  }

  lemma NoneFound(s: Space, R: Cover)
    ensures Disjoint(s, [], R)
  {
  }

  /** Try to expand the reduced cube c1 of G to cover some other reduced cube; F
      holds the cubes before the reduction.  Each expansion that leaves the other
      cube redundant becomes a candidate. */
  method Expand1Gasp(s: Space, F: Cover, D: Cover, R: Cover, G: Cover, c1: nat) returns (ok: bool, found: Cover)
    requires Valid(s, F) && Valid(s, D) && Valid(s, R) && GaspReduced(s, F, D, G) && c1 < |F|
    ensures !ok ==> !Disjoint(s, F, R)
    ensures ok ==> forall i :: 0 <= i < |found| ==> Candidate(s, F, D, G, c1, found[i].cube) && !found[i].prime
    ensures ok && Disjoint(s, F, R) ==> Disjoint(s, found, R)
    ensures ok ==> FoundFor(s, F, D, R, G, c1, |G|, found)
  {
    hide Full, Meets, NonVoid, Valid, Disjoint, GaspReduced, Candidate, Clear, Cleared, Near, Lasting, Reach, Far,
      Apart, Blocked, Maximal, FoundFor, Lost;
    GaspValid(s, F, D, G);
    Expand.ValidCubes(s, G);
    Expand.ValidCubes(s, R);
    found := [];
    ReducedAt(s, F, D, G, c1);
    var off := Expand.CubesOf(R);
    var x := new Expand.Expansion(s, off, Expand.CubesOf(G), OtherNonPrime(G, c1), seq(|G|, _ => false), G[c1].cube);
    ghost var free0 := x.free;
    ApartStart(s, off, x.offActive, x.offActive, x.raise, x.raise + x.free);
    if Disjoint(s, F, R) {
      ReducedClear(s, F, R, c1, G[c1].cube);
    }
    ok := x.EssenParts();
    if !ok {
      return;
    }
    if Disjoint(s, F, R) {
      ValidAt(s, F, c1);
      OriginalKept(s, off, F[c1].cube, x.raise, free0, x.free);
    }
    ghost var raise0 := x.raise;
    assert x.raise + free0 == Full(s);
    x.EssenRaising();
    assert FreelyRaised(x.off, x.offActive, G[c1].cube, x.raise);
    found := TryAll(s, F, D, R, G, c1, x);
  }

  lemma ReducedClear(s: Space, F: Cover, R: Cover, c1: nat, r: Cube)
    requires Disjoint(s, F, R) && c1 < |F| && r <= F[c1].cube
    ensures Clear(s, Expand.CubesOf(R), F[c1].cube) && Clear(s, Expand.CubesOf(R), r)
  {
    hide Meets;
    Expand.ClearAt(s, F, R, c1);
    forall j | 0 <= j < |R|
      ensures !Meets(s, Expand.CubesOf(R)[j], r)
    {
      ShrunkApart(s, Expand.CubesOf(R)[j], F[c1].cube, r);
    }
  }

  // ---- the whole step

  /** How the step can fail: a cube of the cover meets the OFF-set, no part is
      free to raise, or a cube of the cover was redundant to begin with. */
  datatype GaspOutcome = Done | NotOrthogonal | NoFreePart | EmptyReduction

  /** Every cube comes from expanding some reduced cube. */
  ghost predicate Candidates(s: Space, F: Cover, D: Cover, G: Cover, H: Cover)
    requires |F| == |G|
  {
    forall i :: 0 <= i < |H| ==> IsCandidate(s, F, D, G, H[i].cube) && !H[i].prime
  }

  ghost predicate IsCandidate(s: Space, F: Cover, D: Cover, G: Cover, c: Cube)
    requires |F| == |G|
  {
    exists c1 :: 0 <= c1 < |F| && Candidate(s, F, D, G, c1, c)
  }

  /** For every c1 before n, each other cube that it can be made to cover is covered by
      one of H. */
  ghost predicate AllFound(s: Space, F: Cover, D: Cover, R: Cover, G: Cover, n: nat, H: Cover)
    requires |F| == |G|
  {
    forall c1 :: 0 <= c1 < n && c1 < |F| ==> FoundFor(s, F, D, R, G, c1, |G|, H)
  }

  lemma NoneAllFound(s: Space, F: Cover, D: Cover, R: Cover, G: Cover)
    requires |F| == |G|
    ensures AllFound(s, F, D, R, G, 0, [])
  {
  }

  lemma FoundMore(s: Space, F: Cover, D: Cover, R: Cover, G: Cover, c1: nat, H: Cover, found: Cover)
    requires |F| == |G| && c1 < |F| && AllFound(s, F, D, R, G, c1, H) && FoundFor(s, F, D, R, G, c1, |G|, found)
    ensures AllFound(s, F, D, R, G, c1 + 1, H + found)
  {
    hide FoundFor, Within;
    InsideSum(H, found);
    forall k | 0 <= k < c1 + 1
      ensures FoundFor(s, F, D, R, G, k, |G|, H + found)
    {
      FoundInside(s, F, D, R, G, k, |G|, if k < c1 then H else found, H + found);
    }
  }

  /** All the candidates. */
  method AllCandidates(s: Space, F: Cover, D: Cover, R: Cover, G: Cover) returns (ok: bool, H: Cover)
    requires Valid(s, F) && Valid(s, D) && Valid(s, R) && GaspReduced(s, F, D, G) && |F| == |G|
    ensures !ok ==> !Disjoint(s, F, R)
    ensures ok ==> Candidates(s, F, D, G, H)
    ensures ok && Disjoint(s, F, R) ==> Disjoint(s, H, R)
    ensures ok ==> AllFound(s, F, D, R, G, |F|, H)
  {
    hide Full, Valid, Disjoint, GaspReduced, Candidate, Candidates, FoundFor, AllFound;
    H := [];
    NoneFound(s, R);
    NoCandidates(s, F, D, G);
    NoneAllFound(s, F, D, R, G);
    var c1 := 0;
    while c1 < |F|
      invariant 0 <= c1 <= |F|
      invariant Candidates(s, F, D, G, H)
      invariant Disjoint(s, F, R) ==> Disjoint(s, H, R)
      invariant AllFound(s, F, D, R, G, c1, H)
    {
      var found;
      ok, found := Expand1Gasp(s, F, D, R, G, c1);
      if !ok {
        return;
      }
      MoreCandidates(s, F, D, G, H, found, c1);
      DisjointAppend(s, H, found, R);
      FoundMore(s, F, D, R, G, c1, H, found);
      H := H + found;
      c1 := c1 + 1;
    }
    ok := true;
  }

  lemma NoCandidates(s: Space, F: Cover, D: Cover, G: Cover)
    requires |F| == |G|
    ensures Candidates(s, F, D, G, [])
  {
  }

  lemma MoreCandidates(s: Space, F: Cover, D: Cover, G: Cover, H: Cover, found: Cover, c1: nat)
    requires c1 < |F| == |G| && Candidates(s, F, D, G, H)
    requires forall i :: 0 <= i < |found| ==> Candidate(s, F, D, G, c1, found[i].cube) && !found[i].prime
    ensures Candidates(s, F, D, G, H + found)
  {
    hide Candidate;
    forall i | 0 <= i < |H + found|
      ensures IsCandidate(s, F, D, G, (H + found)[i].cube) && !(H + found)[i].prime
    {
      if i < |H| {
        assert IsCandidate(s, F, D, G, H[i].cube);
      } else {
        assert Candidate(s, F, D, G, c1, found[i - |H|].cube);
      }
    }
  }

  lemma DisjointAppend(s: Space, F: Cover, G: Cover, R: Cover)
    ensures Disjoint(s, F, R) && Disjoint(s, G, R) <==> Disjoint(s, F + G, R)
  {
    hide Meets;
    if Disjoint(s, F + G, R) {
      forall i, j | 0 <= i < |F| && 0 <= j < |R|
        ensures !Meets(s, F[i].cube, R[j].cube)
      {
        assert (F + G)[i] == F[i];
      }
      forall i, j | 0 <= i < |G| && 0 <= j < |R|
        ensures !Meets(s, G[i].cube, R[j].cube)
      {
        assert (F + G)[|F| + i] == G[i];
      }
    }
  }

  /** A reduction that is not empty keeps a value in every variable. */
  lemma ReducedNonVoid(s: Space, F: Cover, D: Cover, k: nat, r: Cube)
    requires k < |F| && Maximal(s, F, D, k, r) && r != {} && r <= Full(s)
    ensures NonVoid(s, F[k].cube) ==> NonVoid(s, r)
  {
    hide HasOther;
    if NonVoid(s, F[k].cube) {
      var p :| p in r;
      assert Reduce.Alone(s, F, D, k, F[k].cube, p);
      var m :| IsMinterm(s, m) && In(m, F[k].cube) && p.v < |m| && m[p.v] == p.k && !HasOther(F, D, k, m);
      forall v | 0 <= v < |m|
        ensures Part(v, m[v]) in r
      {
        assert Reduce.Alone(s, F, D, k, F[k].cube, Part(v, m[v]));
      }
      MintermMakesNonVoid(s, m, r);
    }
  }

  /** The candidates are cubes of the space, and have values wherever the cubes
      before the reduction did. */
  lemma CandidateShape(s: Space, F: Cover, D: Cover, G: Cover, H: Cover)
    requires Valid(s, F) && GaspReduced(s, F, D, G) && |F| == |G| && Candidates(s, F, D, G, H)
    requires forall k :: 0 <= k < |F| ==> G[k].cube != {}
    ensures Valid(s, H)
    ensures KeepsValues(s, F, H)
  {
    hide Full, Maximal, NoEmptier, Replaces, Valid, GaspReduced, Candidate, KeepsValues;
    SameLength(s, F, D, G);
    forall i | 0 <= i < |H|
      ensures H[i].cube <= Full(s) && Emptier(s, F, H[i].cube)
    {
      assert IsCandidate(s, F, D, G, H[i].cube);
      var c1 :| 0 <= c1 < |F| && Candidate(s, F, D, G, c1, H[i].cube);
      CandidateFacts(s, F, D, G, c1, H[i].cube);
    }
    AllInFull(s, H);
    EmptierKeeps(s, F, H);
  }

  lemma AllInFull(s: Space, H: Cover)
    requires forall i :: 0 <= i < |H| ==> H[i].cube <= Full(s)
    ensures Valid(s, H)
  {
    hide Full;
  }

  lemma CandidateFacts(s: Space, F: Cover, D: Cover, G: Cover, c1: nat, c: Cube)
    requires c1 < |F| && Valid(s, F) && GaspReduced(s, F, D, G) && Candidate(s, F, D, G, c1, c)
    requires G[c1].cube != {}
    ensures c <= Full(s)
    ensures NoEmptier(s, F[c1].cube, c)
  {
    hide Full, NonVoid, Replaces, Valid, GaspReduced, Reduce.Alone, NoEmptier;
    ReducedAt(s, F, D, G, c1);
    GaspValid(s, F, D, G);
    ValidAt(s, G, c1);
    ReducedNonVoid(s, F, D, c1, G[c1].cube);
    if NonVoid(s, F[c1].cube) {
      WiderNonVoid(s, G[c1].cube, c);
      NonVoidNoEmptier(s, F[c1].cube, c);
    } else {
      WiderNoEmptier(s, F[c1].cube, c);
    }
  }

  /** H is what expanding all candidates makes of them. */
  ghost predicate PrimesOf(s: Space, F: Cover, D: Cover, R: Cover, G: Cover, H: Cover)
    requires |F| == |G|
  {
    exists found: Cover :: Candidates(s, F, D, G, found) && AllFound(s, F, D, R, G, |F|, found) &&
      Expand.Thorough(s, R, found, H, {})
  }

  /** Turn the candidates into primes. */
  method ExpandGasp(s: Space, F: Cover, D: Cover, R: Cover, G: Cover) returns (outcome: GaspOutcome, H: Cover)
    requires Valid(s, F) && Valid(s, D) && Valid(s, R) && GaspReduced(s, F, D, G) && |F| == |G|
    requires forall k :: 0 <= k < |F| ==> G[k].cube != {}
    ensures outcome != EmptyReduction
    ensures outcome == NotOrthogonal ==> !Disjoint(s, F, R)
    ensures outcome == NoFreePart ==> Stalls(s, Expand.CubesOf(R))
    ensures outcome == Done ==> Valid(s, H) && Wider(s, F, D, G, H) && KeepsValues(s, F, H)
    ensures outcome == Done ==> AllFound(s, F, D, R, G, |F|, H) && PrimesOf(s, F, D, R, G, H)
    ensures outcome == Done && Disjoint(s, F, R) && Fitting(s, F, R) ==> Disjoint(s, H, R)
  {
    hide Full, Valid, Disjoint, GaspReduced, Candidates, KeepsValues, Fitting, Stalls, Expand.Widened, Wider, Inside,
      Containment.Distinct, Containment.SameCubes, AllFound, Expand.Thorough;
    H := [];
    var ok, found := AllCandidates(s, F, D, R, G);
    if !ok {
      return NotOrthogonal, H;
    }
    CandidateShape(s, F, D, G, found);
    var distinct := Containment.SfDupl(found);
    Containment.SameCubesMeaning(s, found, distinct);
    if Disjoint(s, found, R) {
      InsideDisjoint(s, distinct, found, R);
    }
    DistinctKeeps(s, found, distinct);
    KeepsTrans(s, F, found, distinct);
    if Fitting(s, F, R) {
      FittingKept(s, F, distinct, R);
      Expand.FittingPairs(s, distinct, R, {});
    }
    var out;
    out, H := Expand.ExpandCover(s, distinct, R, {}, false);
    outcome := match out
      case Done => Done
      case NotOrthogonal => NotOrthogonal
      case NoFreePart => NoFreePart;
    if out.Done? {
      WidenedCandidates(s, F, D, G, found, distinct, H);
      SameInside(found, distinct);
      InsideTrans(found, distinct, H);
      AllFoundInside(s, F, D, R, G, found, H);
      AllFoundInside(s, F, D, R, G, found, distinct);
      DistinctCandidates(s, F, D, G, found, distinct);
      Expand.WidenedKeeps(s, distinct, H, {});
      KeepsTrans(s, F, distinct, H);
    }
  }

  lemma DistinctCandidates(s: Space, F: Cover, D: Cover, G: Cover, found: Cover, distinct: Cover)
    requires |F| == |G| && Candidates(s, F, D, G, found) && Containment.SameCubes(found, distinct)
    ensures Candidates(s, F, D, G, distinct)
  {
    hide IsCandidate, Containment.HasCube;
    forall i | 0 <= i < |distinct|
      ensures IsCandidate(s, F, D, G, distinct[i].cube) && !distinct[i].prime
    {
      assert distinct[i] in found;
      var j :| 0 <= j < |found| && found[j] == distinct[i];
    }
  }

  lemma SameInside(A: Cover, B: Cover)
    requires Containment.SameCubes(A, B)
    ensures Inside(A, B)
  {
    hide Containment.HasCube;
    forall i | 0 <= i < |A|
      ensures Within(A[i].cube, B)
    {
      SameIn(A, B, i);
    }
  }

  lemma SameIn(A: Cover, B: Cover, i: nat)
    requires Containment.SameCubes(A, B) && i < |A|
    ensures Within(A[i].cube, B)
  {
    assert Containment.HasCube(B, A[i].cube);
    var j :| 0 <= j < |B| && B[j].cube == A[i].cube;
    assert A[i].cube <= B[j].cube;
  }

  lemma AllFoundInside(s: Space, F: Cover, D: Cover, R: Cover, G: Cover, A: Cover, B: Cover)
    requires |F| == |G| && AllFound(s, F, D, R, G, |F|, A) && Inside(A, B)
    ensures AllFound(s, F, D, R, G, |F|, B)
  {
    hide FoundFor, Inside;
    forall c1 | 0 <= c1 < |F|
      ensures FoundFor(s, F, D, R, G, c1, |G|, B)
    {
      FoundInside(s, F, D, R, G, c1, |G|, A, B);
    }
  }

  /** Every new prime contains a candidate. */
  ghost predicate Wider(s: Space, F: Cover, D: Cover, G: Cover, H: Cover)
    requires |F| == |G|
  {
    forall i :: 0 <= i < |H| ==> HoldsCandidate(s, F, D, G, H[i].cube)
  }

  ghost predicate HoldsCandidate(s: Space, F: Cover, D: Cover, G: Cover, c: Cube)
    requires |F| == |G|
  {
    exists c' :: IsCandidate(s, F, D, G, c') && c' <= c
  }

  lemma DistinctKeeps(s: Space, F: Cover, G: Cover)
    requires Containment.SameCubes(F, G)
    ensures KeepsValues(s, F, G)
  {
    hide Containment.HasCube, KeepsValues;
    forall i | 0 <= i < |G|
      ensures IsShape(G[i].cube, F)
    {
      assert G[i] in F;
      var j :| 0 <= j < |F| && F[j] == G[i];
    }
    ShapesKeep(s, G, F);
  }

  lemma WidenedCandidates(s: Space, F: Cover, D: Cover, G: Cover, found: Cover, distinct: Cover, H: Cover)
    requires |F| == |G| && Candidates(s, F, D, G, found) && Containment.SameCubes(found, distinct)
    requires Expand.Widened(s, distinct, H, {})
    ensures Wider(s, F, D, G, H)
  {
    hide Full, IsCandidate, Containment.HasCube;
    forall j | 0 <= j < |H|
      ensures HoldsCandidate(s, F, D, G, H[j].cube)
    {
      assert Expand.Grown(s, distinct, {}, H[j].cube);
      var i :| 0 <= i < |distinct| && distinct[i].cube <= H[j].cube <= distinct[i].cube + (Full(s) - {});
      assert distinct[i] in found;
      var n :| 0 <= n < |found| && found[n] == distinct[i];
      assert IsCandidate(s, F, D, G, found[n].cube);
    }
  }

  /** G is an irredundant choice from F and the new primes, or F if there are none. */
  ghost predicate ChosenFrom(s: Space, F: Cover, D: Cover, H: Cover, G: Cover) {
    if H == [] then G == F else Irredundant.IrredundantOf(s, F + H, D, G)
  }

  /** Add the new primes and keep an irredundant choice. */
  method IrredGasp(s: Space, F: Cover, D: Cover, H: Cover) returns (G: Cover)
    requires Valid(s, F) && Valid(s, D) && Valid(s, H)
    ensures Valid(s, G) && Inside(G, F + H) && SameShapes(G, F + H) && CoveredBy(s, F, G, D)
    ensures ChosenFrom(s, F, D, H, G)
  {
    hide Full, Has, Inside, Valid, SameShapes, Irredundant.IrredundantOf;
    AppendFacts(s, F, H);
    if H != [] {
      G := Irredundant.IrredundantCover(s, F + H, D);
    } else {
      G := F;
    }
  }

  lemma AppendFacts(s: Space, F: Cover, H: Cover)
    ensures Valid(s, F) && Valid(s, H) ==> Valid(s, F + H)
    ensures forall m :: Has(F, m) ==> Has(F + H, m)
    ensures forall m :: Has(H, m) ==> Has(F + H, m)
    ensures forall m :: Has(F + H, m) ==> Has(F, m) || Has(H, m)
    ensures Inside(F, F + H) && Inside(H, F + H) && SameShapes(F, F + H)
  {
    hide Full, In;
    forall i | 0 <= i < |F|
      ensures (F + H)[i] == F[i]
    {
    }
    forall i | 0 <= i < |H|
      ensures (F + H)[|F| + i] == H[i]
    {
    }
  }

  /** G is what the last gasp makes of F: all candidates of the reduced cubes are
      expanded, and the choice is from F and the primes found. */
  ghost predicate GaspOf(s: Space, F: Cover, D: Cover, R: Cover, G: Cover) {
    exists under: Cover, primes: Cover :: GaspReduced(s, F, D, under) && Flagged(F, under) &&
      PrimesOf(s, F, D, R, under, primes) && ChosenFrom(s, F, D, primes, G)
  }

  /** The last gasp keeps what the cover means: with the don't cares the result
      covers every minterm of F, it has values wherever F has them, and for a
      cover that fits the OFF-set it meets that no more than F does. */
  method LastGasp(s: Space, F: Cover, D: Cover, R: Cover) returns (outcome: GaspOutcome, G: Cover)
    requires Valid(s, F) && Valid(s, D) && Valid(s, R)
    ensures outcome == EmptyReduction ==> exists k :: 0 <= k < |F| && Superfluous(s, F, D, k)
    ensures outcome == NotOrthogonal ==> !Disjoint(s, F, R)
    ensures outcome == NoFreePart ==> Stalls(s, Expand.CubesOf(R))
    ensures outcome == Done ==> Valid(s, G) && CoveredBy(s, F, G, D) && KeepsValues(s, F, G)
    ensures outcome == Done ==> GaspOf(s, F, D, R, G)
    ensures outcome == Done && Disjoint(s, F, R) && Fitting(s, F, R) ==> Disjoint(s, G, R)
  {
    hide Full, Valid, Disjoint, GaspReduced, Superfluous, KeepsValues, Fitting, Stalls, Wider, Inside, CoveredBy,
      SameShapes, Flagged, AllFound, PrimesOf, ChosenFrom;
    G := F;
    var ok, under := ReduceGasp(s, F, D);
    if !ok {
      return EmptyReduction, G;
    }
    SameLength(s, F, D, under);
    var primes;
    outcome, primes := ExpandGasp(s, F, D, R, under);
    if outcome != Done {
      return;
    }
    G := IrredGasp(s, F, D, primes);
    KeepsSelf(s, F);
    KeepsAppend(s, F, F, primes);
    ShapesKeep(s, G, F + primes);
    KeepsTrans(s, F, F + primes, G);
    if Disjoint(s, F, R) && Fitting(s, F, R) {
      DisjointAppend(s, F, primes, R);
      InsideDisjoint(s, G, F + primes, R);
    }
  }

  lemma SameLength(s: Space, F: Cover, D: Cover, G: Cover)
    requires GaspReduced(s, F, D, G)
    ensures |G| == |F|
  {
  }
}
