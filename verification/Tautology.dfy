/** The tautology question, answered by the unate recursive paradigm. */
module Tautology {
  import opened Cubes
  import opened Counting
  import opened CubeLists
  import opened Splitting
  import opened Rows

  datatype Answer = Yes | No | Maybe

  /** Every minterm of the subspace is covered.  A cofactor against a void cube
      leaves no subspace and counts as not covered. */
  ghost predicate IsTautology(s: Space, T: CubeList) {
    Live(s, T.cof) && forall m :: Outside(s, T.cof, m) ==> Covers(T.items, m)
  }

  // ---- why the special cases are right

  lemma FullRowIsTautology(s: Space, T: CubeList)
    requires WellFormed(s, T) && !NoFullRow(s, T)
    ensures IsTautology(s, T)
  {
    var it :| it in T.items && FullRow(s, it.cube, T.cof);
    WellFormedLive(s, T);
    forall m | Outside(s, T.cof, m)
      ensures Covers(T.items, m)
    {
      FullRowCovers(s, T.cof, it.cube, m);
    }
  }

  lemma EmptyColumnNotTautology(s: Space, T: CubeList, p: Part)
    requires EmptyColumn(s, T, p)
    ensures !IsTautology(s, T)
  {
    if IsTautology(s, T) {
      var m := MintermThrough(s, T.cof, p);
    }
  }

  /** A unate cover without a full row misses the corner of its active parts. */
  lemma UnateNotTautology(s: Space, T: CubeList)
    requires NoFullRow(s, T)
    requires forall v :: 0 <= v < |s.sizes| ==> |ActiveParts(s, T, v)| <= 1
    ensures !IsTautology(s, T)
  {
    if IsTautology(s, T) {
      var vs := Range(|s.sizes|);
      var m := Corner(s, T, vs);
      var it :| it in T.items && In(m, it.cube);
      var p := MissingPart(s, T, it);
      assert p in Mask(s, p.v);
      UnateCorner(s, T, vs, m, it, p.v);
    }
  }

  /** With one active variable and no empty column, the cube holding the part
      of a minterm in that variable holds the whole minterm. */
  lemma OneVariableIsTautology(s: Space, T: CubeList)
    requires Live(s, T.cof)
    requires forall p :: !EmptyColumn(s, T, p)
    requires NumActive(s, T, |s.sizes|) == 1
    ensures IsTautology(s, T)
  {
    hide ActiveParts;
    NumFacts(s, T, |s.sizes|);
    var v :| 0 <= v < |s.sizes| && |ActiveParts(s, T, v)| > 0;
    forall m | Outside(s, T.cof, m)
      ensures Covers(T.items, m)
    {
      assert Part(v, m[v]) in Full(s) - T.cof;
      assert !EmptyColumn(s, T, Part(v, m[v]));
      var it :| it in T.items && Part(v, m[v]) in it.cube;
      forall u | 0 <= u < |m|
        ensures Part(u, m[u]) in it.cube
      {
        assert Part(u, m[u]) in Full(s) - T.cof;
        if Part(u, m[u]) !in it.cube {
          NotActive(s, T, it, Part(u, m[u]));
        }
      }
    }
  }

  lemma NotActive(s: Space, T: CubeList, it: Item, p: Part)
    requires it in T.items && p in Full(s) && p !in T.cof && p !in it.cube
    ensures |ActiveParts(s, T, p.v)| > 0
  {
    assert p in ActiveParts(s, T, p.v);
  }

  /** vs are unate variables, and T' keeps the cubes that are full in all of them. */
  ghost predicate UnateReduced(s: Space, T: CubeList, vs: set<nat>, T': CubeList) {
    && T'.cof == T.cof
    && (forall v :: v in vs ==> v < |s.sizes| && |ActiveParts(s, T, v)| == 1)
    && (forall it :: it in T'.items <==>
          it in T.items && forall v :: v in vs && v < |s.sizes| ==> !ActiveIn(s, T.cof, it.cube, v))
  }

  lemma UnateReduction(s: Space, T: CubeList, vs: set<nat>, T': CubeList)
    requires UnateReduced(s, T, vs, T')
    ensures IsTautology(s, T) <==> IsTautology(s, T')
  {
    hide ActiveParts, ActiveIn, UnateReduced;
    assert T'.cof == T.cof && (forall it :: it in T'.items ==> it in T.items) by {
      UnateReducedFacts(s, T, vs, T');
    }
    if IsTautology(s, T) {
      var k := Corner(s, T, vs);
      forall m | Outside(s, T.cof, m)
        ensures Covers(T'.items, m)
      {
        UnateReductionCovers(s, T, vs, T', m, k);
      }
    }
  }

  lemma UnateReducedFacts(s: Space, T: CubeList, vs: set<nat>, T': CubeList)
    requires UnateReduced(s, T, vs, T')
    ensures T'.cof == T.cof && (forall it :: it in T'.items ==> it in T.items)
  {
  }

  lemma UnateReductionCovers(s: Space, T: CubeList, vs: set<nat>, T': CubeList, m: Minterm, k: Minterm)
    requires UnateReduced(s, T, vs, T') && IsTautology(s, T)
    requires Outside(s, T.cof, m) && Outside(s, T.cof, k)
    requires forall v :: v in vs && v < |s.sizes| && ActiveParts(s, T, v) != {} ==>
               Part(v, k[v]) in ActiveParts(s, T, v)
    ensures Covers(T'.items, m)
  {
    var mixed := Mix(m, k, vs);
    assert Outside(s, T.cof, mixed);
    var it :| it in T.items && In(mixed, it.cube);
    forall v | v in vs
      ensures !ActiveIn(s, T.cof, it.cube, v)
    {
      UnateCorner(s, T, vs, mixed, it, v);
    }
    assert it in T'.items;
    forall v | 0 <= v < |m|
      ensures Part(v, m[v]) in it.cube
    {
      if v in vs {
        InactiveHolds(s, T.cof, it.cube, v, m);
      }
    }
  }

  /** A minterm missed by both components, taken apart along the variables that
      are active in A, is missed by their union. */
  lemma Components(s: Space, T: CubeList, A: CubeList, B: CubeList)
    requires A.cof == T.cof && B.cof == T.cof
    requires forall it :: it in T.items <==> it in A.items || it in B.items
    requires Separate(s, T.cof, A.items, B.items)
    ensures IsTautology(s, T) <==> IsTautology(s, A) || IsTautology(s, B)
  {
    hide ActiveIn;
    if IsTautology(s, T) && !IsTautology(s, A) && !IsTautology(s, B) {
      var a :| Outside(s, T.cof, a) && !Covers(A.items, a);
      var b :| Outside(s, T.cof, b) && !Covers(B.items, b);
      var m := MissedByBoth(s, T.cof, A.items, B.items, a, b);
    }
  }

  ghost function ActiveSomewhere(s: Space, cof: Cube, A: seq<Item>): set<nat> {
    set v | v in Range(|s.sizes|) && exists it :: it in A && ActiveIn(s, cof, it.cube, v)
  }

  lemma MissedByBoth(s: Space, cof: Cube, A: seq<Item>, B: seq<Item>, a: Minterm, b: Minterm)
      returns (m: Minterm)
    requires Outside(s, cof, a) && Outside(s, cof, b)
    requires Separate(s, cof, A, B)
    requires !Covers(A, a) && !Covers(B, b)
    ensures Outside(s, cof, m) && !Covers(A, m) && !Covers(B, m)
    ensures forall v :: 0 <= v < |m| ==> m[v] == a[v] || m[v] == b[v]
  {
    hide ActiveIn;
    var vs := ActiveSomewhere(s, cof, A);
    m := Mix(b, a, vs);
    forall it | it in A
      ensures !In(m, it.cube)
    {
      var v :| 0 <= v < |a| && Part(v, a[v]) !in it.cube;
      if !ActiveIn(s, cof, it.cube, v) {
        InactiveHolds(s, cof, it.cube, v, a);
      }
      assert v in vs;
    }
    forall it | it in B
      ensures !In(m, it.cube)
    {
      var v :| 0 <= v < |b| && Part(v, b[v]) !in it.cube;
      if !ActiveIn(s, cof, it.cube, v) {
        InactiveHolds(s, cof, it.cube, v, b);
      }
      assert v !in vs;
    }
    assert Outside(s, cof, m);
  }

  // ---- the split

  lemma SplitTautology(s: Space, T: CubeList, v: nat, cl: Cube, cr: Cube, L: CubeList, R: CubeList)
    requires v < |s.sizes| && T.cof <= Full(s) && Live(s, T.cof) && SplitOf(s, T.cof, v, cl, cr)
    requires HalfOf(s, T, cl, v, L) && HalfOf(s, T, cr, v, R)
    ensures IsTautology(s, T) <==> IsTautology(s, L) && IsTautology(s, R)
  {
    SplitStaysLive(s, T.cof, v, cl, cr);
    SplitStaysLive(s, T.cof, v, cr, cl);
    if IsTautology(s, T) {
      forall m | Outside(s, L.cof, m) ensures Covers(L.items, m) { HalfCovers(s, T, v, cl, L, m); }
      forall m | Outside(s, R.cof, m) ensures Covers(R.items, m) { HalfCovers(s, T, v, cr, R, m); }
    }
    if IsTautology(s, L) && IsTautology(s, R) {
      forall m | Outside(s, T.cof, m)
        ensures Covers(T.items, m)
      {
        SideOf(s, T.cof, v, cl, cr, m);
        if Outside(s, L.cof, m) {
          HalfCovers(s, T, v, cl, L, m);
        } else {
          HalfCovers(s, T, v, cr, R, m);
        }
      }
    }
  }

  // ---- the algorithm

  /** Keep the cubes that are full in every unate variable. */
  method UnateReduce(s: Space, T: CubeList, d: CData) returns (T': CubeList, ghost vs: set<nat>)
    requires CountsOf(s, T, d) && d.varsUnate != 0
    ensures UnateReduced(s, T, vs, T')
    ensures |T'.items| < |T.items|
  {
    hide ActiveParts, ActiveIn, Full, CountsOf, NumUnate;
    UnateVars(s, T, d);
    var unate := set v: nat | v < |s.sizes| && d.vars[v].unate;
    vs := unate;
    var items: seq<Item> := [];
    ghost var keep := FullIn(s, T.cof, unate);
    var i := 0;
    while i < |T.items|
      invariant 0 <= i <= |T.items|
      invariant items == Filter(T.items[..i], keep)
    {
      FilterStep(T.items, keep, i);
      if forall v :: v in unate && v < |s.sizes| ==> !ActiveIn(s, T.cof, T.items[i].cube, v) {
        items := items + [T.items[i]];
      }
      i := i + 1;
    }
    assert T.items[..i] == T.items;
    T' := CubeList(T.cof, items);
    UnateDrops(s, T, vs, items);
  }

  /** The variables counted as unate have exactly one active part. */
  lemma UnateVars(s: Space, T: CubeList, d: CData)
    requires CountsOf(s, T, d) && d.varsUnate != 0
    ensures |d.vars| == |s.sizes| && NumUnate(s, T, |s.sizes|) != 0
    ensures (set v: nat | v < |s.sizes| && d.vars[v].unate) == set v: nat | v < |s.sizes| && |ActiveParts(s, T, v)| == 1
  {
    hide ActiveParts, Zeros, ZeroSum;
    forall v: nat | v < |s.sizes|
      ensures d.vars[v].unate <==> |ActiveParts(s, T, v)| == 1
    {
      assert VarCountOf(s, T, v, d.vars[v]);
    }
  }

  ghost function FullIn(s: Space, cof: Cube, vs: set<nat>): Item -> bool {
    (it: Item) => forall v :: v in vs && v < |s.sizes| ==> !ActiveIn(s, cof, it.cube, v)
  }

  lemma UnateDrops(s: Space, T: CubeList, vs: set<nat>, items: seq<Item>)
    requires items == Filter(T.items, FullIn(s, T.cof, vs))
    requires vs == set v: nat | v < |s.sizes| && |ActiveParts(s, T, v)| == 1
    requires NumUnate(s, T, |s.sizes|) != 0
    ensures |items| < |T.items|
  {
    NumFacts(s, T, |s.sizes|);
    var v: nat :| v < |s.sizes| && |ActiveParts(s, T, v)| == 1;
    assert ActiveParts(s, T, v) != {};
    var p :| p in ActiveParts(s, T, v);
    var it :| it in T.items && p !in it.cube;
    assert ActiveIn(s, T.cof, it.cube, v);
    assert !FullIn(s, T.cof, vs)(it);
    assert it !in items;
  }

  /** The special cases of the tautology question.  With Maybe, the list has
      been reduced in the unate variables and its counts are in d. */
  method TautSpecialCases(s: Space, T0: CubeList) returns (ans: Answer, T: CubeList, d: CData)
    requires WellFormed(s, T0)
    ensures ans == Yes ==> IsTautology(s, T0)
    ensures ans == No ==> !IsTautology(s, T0)
    ensures WellFormed(s, T) && T.cof == T0.cof && |T.items| <= |T0.items|
    ensures IsTautology(s, T) <==> IsTautology(s, T0)
    ensures ans == Maybe ==> T.items != [] && CountsOf(s, T, d) && HasActivePair(s, T, d)
    decreases |Full(s) - T0.cof|, |T0.items|, 0
  {
    hide IsTautology, ActiveParts, CountsOf, UnateReduced, Full;
    T := T0;
    d := CData(map[], [], 0, 0, -1);
    var row := HasFullRow(s, T);
    if row {
      FullRowIsTautology(s, T);
      return Yes, T, d;
    }
    while true
      invariant WellFormed(s, T) && T.cof == T0.cof && |T.items| <= |T0.items|
      invariant IsTautology(s, T) <==> IsTautology(s, T0)
      invariant NoFullRow(s, T)
      decreases |T.items|
    {
      var ceil := Ceiling(T);
      if ceil != Full(s) {
        EmptyColumnFound(s, T, ceil);
        return No, T, d;
      }
      d := MassiveCount(s, T);
      CountFacts(s, T, d);
      if d.varsUnate == d.varsActive {
        UnateNotTautology(s, T);
        return No, T, d;
      } else if d.varsActive == 1 {
        NoEmptyColumn(s, T, ceil);
        WellFormedLive(s, T);
        OneVariableIsTautology(s, T);
        return Yes, T, d;
      } else if d.varsUnate != 0 {
        var T', vs := UnateReduce(s, T, d);
        UnateReduction(s, T, vs, T');
        ReducedFacts(s, T, vs, T');
        T := T';
      } else if d.vars[d.best].zeros < |T.items| / 2 {
        var A, B, n := CubelistPartition(s, T);
        if n == 0 {
          return Maybe, T, d;
        }
        Components(s, T, A, B);
        var a := Tautology(s, A);
        if a {
          return Yes, T, d;
        }
        var b := Tautology(s, B);
        return (if b then Yes else No), T, d;
      } else {
        NonemptyList(s, T, d);
        return Maybe, T, d;
      }
    }
  }

  /** TRUE exactly when every minterm outside cof is covered. */
  method Tautology(s: Space, T0: CubeList) returns (result: bool)
    requires WellFormed(s, T0)
    ensures result <==> IsTautology(s, T0)
    decreases |Full(s) - T0.cof|, |T0.items|, 1
  {
    hide IsTautology, CountsOf, HasActivePair, Full;
    var ans, T, d := TautSpecialCases(s, T0);
    if ans != Maybe {
      return ans == Yes;
    }
    var cl, cr, L, R := SplitList(s, T, d);
    SplitTautology(s, T, d.best, cl, cr, L, R);
    result := Tautology(s, L);
    if result {
      result := Tautology(s, R);
    }
  }

  /** Does the list, without the cube object self, cover the cube c? */
  method CubeIsCovered(s: Space, T: CubeList, c: Cube, self: int) returns (result: bool)
    requires T.cof == {} && c <= Full(s)
    requires forall it :: it in T.items ==> it.cube <= Full(s)
    ensures result <==>
      (NonVoid(s, c)
       && forall m :: IsMinterm(s, m) && In(m, c) ==> OtherCovers(T, self, m))
  {
    hide Full, NonVoid, In, IsMinterm;
    var T' := Cofactor(s, T, c, self);
    CofactorMeaning(s, T, c, self, T');
    result := Tautology(s, T');
  }

  // ---- facts the algorithm's branches rest on

  lemma EmptyColumnFound(s: Space, T: CubeList, ceil: Cube)
    requires WellFormed(s, T) && ceil != Full(s)
    requires forall p :: p in ceil <==> p in T.cof || exists it :: it in T.items && p in it.cube
    ensures !IsTautology(s, T)
  {
    assert ceil <= Full(s);
    var p :| p in Full(s) && p !in ceil;
    EmptyColumnNotTautology(s, T, p);
  }

  lemma NoEmptyColumn(s: Space, T: CubeList, ceil: Cube)
    requires ceil == Full(s)
    requires forall p :: p in ceil <==> p in T.cof || exists it :: it in T.items && p in it.cube
    ensures forall p :: !EmptyColumn(s, T, p)
  {
  }

  lemma CountFacts(s: Space, T: CubeList, d: CData)
    requires CountsOf(s, T, d)
    ensures d.varsUnate == d.varsActive <==> forall v :: 0 <= v < |s.sizes| ==> |ActiveParts(s, T, v)| <= 1
    ensures d.varsActive == NumActive(s, T, |s.sizes|)
    ensures d.varsUnate != d.varsActive ==> HasActivePair(s, T, d) && d.best < |d.vars|
    ensures d.varsActive > 0 ==> T.items != []
  {
    hide ActiveParts, ZeroSum, Zeros;
    NumFacts(s, T, |s.sizes|);
    if d.varsUnate != d.varsActive {
      var v :| 0 <= v < |s.sizes| && |ActiveParts(s, T, v)| > 1;
      assert VarCountOf(s, T, v, d.vars[v]) && VarCountOf(s, T, d.best, d.vars[d.best]);
    }
    if d.varsActive > 0 {
      var v :| 0 <= v < |s.sizes| && |ActiveParts(s, T, v)| > 0;
      ActiveNonempty(s, T, v);
    }
  }

  lemma ActiveNonempty(s: Space, T: CubeList, v: nat)
    requires v < |s.sizes| && |ActiveParts(s, T, v)| > 0
    ensures T.items != []
  {
    assert ActiveParts(s, T, v) != {};
  }

  lemma NonemptyList(s: Space, T: CubeList, d: CData)
    requires HasActivePair(s, T, d)
    ensures T.items != []
  {
    ActiveNonempty(s, T, d.best);
  }

  lemma ReducedFacts(s: Space, T: CubeList, vs: set<nat>, T': CubeList)
    requires WellFormed(s, T) && NoFullRow(s, T) && UnateReduced(s, T, vs, T')
    ensures WellFormed(s, T') && NoFullRow(s, T') && T'.cof == T.cof
  {
    hide ActiveIn, ActiveParts, FullRow;
    if T'.items != [] {
      assert T'.items[0] in T'.items;
    }
  }
}
