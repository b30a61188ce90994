/** Cube lists: a list of cubes together with the parts already cofactored away.

  A cube list stands for the function its cubes cover on the subspace of the
  minterms that avoid every part of cof.  All the recursive algorithms work on
  that subspace, so their contracts quantify over the minterms Outside cof.
 */
module CubeLists {
  import opened Cubes
  import opened Counting

  /** A cube with the identity of the place it came from: two items of one list
      are the same cube object exactly when their ids agree. */
  datatype Item = Item(cube: Cube, id: nat)

  datatype CubeList = CubeList(cof: Cube, items: seq<Item>)

  /** The parts missing from every cofactoring are the live ones. */
  predicate Live(s: Space, cof: Cube) {
    NonVoid(s, Full(s) - cof)
  }

  lemma LivePart(s: Space, cof: Cube, v: nat) returns (p: Part)
    requires Live(s, cof) && v < |s.sizes|
    ensures p in Mask(s, v) && p in Full(s) && p !in cof
  {
    var live := Full(s) - cof;
    assert NonVoid(s, live);
    assert live * Mask(s, v) != {};
    p := Member(live * Mask(s, v));
  }

  /** In every variable that has been cofactored, c keeps a live part. */
  ghost predicate Survives(s: Space, cof: Cube, c: Cube) {
    forall v :: 0 <= v < |s.sizes| && cof * Mask(s, v) != {} ==> (c - cof) * Mask(s, v) != {}
  }

  /** What cofactoring leaves behind: only cubes that meet the subspace in the
      cofactored variables.  So a void cofactor keeps no cube at all. */
  ghost predicate WellFormed(s: Space, T: CubeList) {
    && T.cof <= Full(s)
    && forall it :: it in T.items ==> it.cube <= Full(s) && Survives(s, T.cof, it.cube)
  }

  lemma WellFormedLive(s: Space, T: CubeList)
    requires WellFormed(s, T) && T.items != []
    ensures Live(s, T.cof)
  {
    var it := T.items[0];
    forall v | 0 <= v < |s.sizes|
      ensures (Full(s) - T.cof) * Mask(s, v) != {}
    {
      if T.cof * Mask(s, v) != {} {
        var p := Member((it.cube - T.cof) * Mask(s, v));
        assert p in (Full(s) - T.cof) * Mask(s, v);
      } else {
        assert Part(v, 0) in Mask(s, v) && Part(v, 0) !in T.cof * Mask(s, v);
        assert Part(v, 0) in (Full(s) - T.cof) * Mask(s, v);
      }
    }
  }

  /** m is a minterm of the subspace that avoids cof. */
  ghost predicate Outside(s: Space, cof: Cube, m: Minterm) {
    IsMinterm(s, m) && In(m, Full(s) - cof)
  }

  ghost predicate Covers(items: seq<Item>, m: Minterm) {
    exists it :: it in items && In(m, it.cube)
  }

  /** Some cube object of the list other than self covers m. */
  ghost predicate OtherCovers(T: CubeList, self: int, m: Minterm) {
    exists it :: it in T.items && it.id != self && In(m, it.cube)
  }

  /** The cube leaves out some part of v that is not cofactored away. */
  predicate ActiveIn(s: Space, cof: Cube, c: Cube, v: nat)
    requires v < |s.sizes|
  {
    !(Mask(s, v) <= c + cof)
  }

  /** The parts of v outside cof that some cube of the list leaves out. */
  ghost function ActiveParts(s: Space, T: CubeList, v: nat): Cube
    requires v < |s.sizes|
  {
    set p | p in Mask(s, v) && p !in T.cof && exists it :: it in T.items && p !in it.cube
  }

  /** How many of the first n variables are active, and how many are unate. */
  ghost function NumActive(s: Space, T: CubeList, n: nat): nat
    requires n <= |s.sizes|
  {
    if n == 0 then 0
    else NumActive(s, T, n - 1) + if |ActiveParts(s, T, n - 1)| > 0 then 1 else 0
  }

  ghost function NumUnate(s: Space, T: CubeList, n: nat): nat
    requires n <= |s.sizes|
  {
    if n == 0 then 0
    else NumUnate(s, T, n - 1) + if |ActiveParts(s, T, n - 1)| == 1 then 1 else 0
  }

  /** What the comparisons between the two numbers say. */
  lemma {:induction false} NumFacts(s: Space, T: CubeList, n: nat)
    requires n <= |s.sizes|
    ensures NumUnate(s, T, n) <= NumActive(s, T, n)
    ensures NumUnate(s, T, n) == NumActive(s, T, n)
       <==> forall v :: 0 <= v < n ==> |ActiveParts(s, T, v)| <= 1
    ensures NumUnate(s, T, n) == 0
       <==> forall v :: 0 <= v < n ==> |ActiveParts(s, T, v)| != 1
    ensures NumActive(s, T, n) == 0
       <==> forall v :: 0 <= v < n ==> |ActiveParts(s, T, v)| == 0
    ensures NumActive(s, T, n) == 1 ==>
      forall u, v | 0 <= u < n && 0 <= v < n ::
        |ActiveParts(s, T, u)| > 0 && |ActiveParts(s, T, v)| > 0 ==> u == v
  {
    hide ActiveParts;
    if n > 0 {
      NumFacts(s, T, n - 1);
    }
  }

  // ---- cofactors

  ghost function Filter(items: seq<Item>, keep: Item -> bool): (r: seq<Item>)
    ensures |r| <= |items|
    ensures forall it :: it in r <==> it in items && keep(it)
    ensures |r| == |items| ==> r == items
  {
    if items == [] then []
    else
      var r := Filter(items[..|items| - 1], keep);
      if keep(items[|items| - 1]) then r + [items[|items| - 1]] else r
  }

  ghost function MeetsOther(s: Space, c: Cube, self: int): Item -> bool {
    (it: Item) => it.id != self && Meets(s, it.cube, c)
  }

  ghost function Touches(c: Cube): Item -> bool {
    (it: Item) => it.cube * c != {}
  }

  lemma FilterStep(items: seq<Item>, keep: Item -> bool, i: nat)
    requires i < |items|
    ensures Filter(items[..i + 1], keep)
         == Filter(items[..i], keep) + if keep(items[i]) then [items[i]] else []
  {
    assert items[..i + 1][..i] == items[..i];
  }

  /** The cofactor of T against c: the cubes at distance 0 from c, in order,
      without the cube object self. */
  method Cofactor(s: Space, T: CubeList, c: Cube, self: int) returns (r: CubeList)
    ensures r.cof == T.cof + (Full(s) - c)
    ensures r.items == Filter(T.items, MeetsOther(s, c, self))
  {
    hide Meets, Full, Filter;
    var items: seq<Item> := [];
    var i := 0;
    while i < |T.items|
      invariant 0 <= i <= |T.items|
      invariant items == Filter(T.items[..i], MeetsOther(s, c, self))
    {
      FilterStep(T.items, MeetsOther(s, c, self), i);
      if T.items[i].id != self && Meets(s, T.items[i].cube, c) {
        items := items + [T.items[i]];
      }
      i := i + 1;
    }
    assert T.items[..i] == T.items;
    r := CubeList(T.cof + (Full(s) - c), items);
  }

  /** The cofactor against a cube that is active in one variable only. */
  method Scofactor(s: Space, T: CubeList, c: Cube, v: nat) returns (r: CubeList)
    requires v < |s.sizes|
    ensures r.cof == T.cof + (Full(s) - c)
    ensures r.items == Filter(T.items, Touches(Mask(s, v) * c))
  {
    var mask := Mask(s, v) * c;
    var items: seq<Item> := [];
    var i := 0;
    while i < |T.items|
      invariant 0 <= i <= |T.items|
      invariant items == Filter(T.items[..i], Touches(mask))
    {
      FilterStep(T.items, Touches(mask), i);
      if T.items[i].cube * mask != {} {
        items := items + [T.items[i]];
      }
      i := i + 1;
    }
    assert T.items[..i] == T.items;
    r := CubeList(T.cof + (Full(s) - c), items);
  }

  /** Cofactoring keeps the cubes that survive it. */
  lemma CofactorSurvives(s: Space, cof: Cube, c: Cube, cube: Cube)
    requires Survives(s, cof, cube) && Meets(s, cube, c)
    requires cube <= c || cof == {}
    ensures Survives(s, cof + (Full(s) - c), cube)
  {
    var cof' := cof + (Full(s) - c);
    forall v | 0 <= v < |s.sizes| && cof' * Mask(s, v) != {}
      ensures (cube - cof') * Mask(s, v) != {}
    {
      assert v !in Clashes(s, cube, c);
      assert cube * c * Mask(s, v) != {};
      if cof * Mask(s, v) != {} {
        var p := Member((cube - cof) * Mask(s, v));
        assert p in (cube - cof') * Mask(s, v);
      } else {
        var p := Member(cube * c * Mask(s, v));
        assert p !in cof * Mask(s, v);
        assert p in (cube - cof') * Mask(s, v);
      }
    }
  }

  /** What cofactoring a cover against a cube that is not void computes: the
      minterms of c, and of them those that another cube covers. */
  lemma CofactorMeaning(s: Space, T: CubeList, c: Cube, self: int, r: CubeList)
    requires T.cof == {} && c <= Full(s)
    requires forall it :: it in T.items ==> it.cube <= Full(s)
    requires r.cof == T.cof + (Full(s) - c)
    requires r.items == Filter(T.items, MeetsOther(s, c, self))
    ensures WellFormed(s, r)
    ensures Live(s, r.cof) <==> NonVoid(s, c)
    ensures !NonVoid(s, c) ==> r.items == []
    ensures forall m :: Outside(s, r.cof, m) <==> IsMinterm(s, m) && In(m, c)
    ensures forall m :: IsMinterm(s, m) && In(m, c) ==>
              (Covers(r.items, m) <==> OtherCovers(T, self, m))
  {
    hide Survives;
    assert Full(s) - r.cof == c;
    forall it | it in r.items
      ensures NonVoid(s, c) && Survives(s, r.cof, it.cube)
    {
      MeetsIffCommonMinterm(s, it.cube, c);
      var m :| IsMinterm(s, m) && In(m, it.cube) && In(m, c);
      MintermMakesNonVoid(s, m, c);
      assert Survives(s, {}, it.cube) by { NothingCofactored(s, it.cube); }
      CofactorSurvives(s, {}, c, it.cube);
    }
    if r.items != [] {
      assert r.items[0] in r.items;
    }
    forall m | IsMinterm(s, m) && In(m, c)
      ensures Covers(r.items, m) <==> OtherCovers(T, self, m)
    {
      if it :| it in T.items && it.id != self && In(m, it.cube) {
        MeetsIffCommonMinterm(s, it.cube, c);
        assert MeetsOther(s, c, self)(it);
        assert it in r.items;
      }
    }
  }

  lemma NothingCofactored(s: Space, c: Cube)
    ensures Survives(s, {}, c)
  {
  }

  // ---- column counts

  /** The counts of one variable: missing parts over all cubes, and how many
      parts are missing somewhere. */
  datatype VarCount = VarCount(zeros: nat, active: nat, unate: bool)

  /** The counts a cube list is analysed by. */
  datatype CData = CData(
    partZeros: map<Part, nat>,
    vars: seq<VarCount>,
    varsActive: nat,
    varsUnate: nat,
    best: int)

  ghost function Zeros(T: CubeList, p: Part): nat {
    if p in T.cof then 0 else ZerosIn(T.items, p)
  }

  ghost function ZerosIn(items: seq<Item>, p: Part): (n: nat)
    ensures n > 0 <==> exists it :: it in items && p !in it.cube
  {
    if items == [] then 0
    else
      ZerosIn(items[..|items| - 1], p) + if p in items[|items| - 1].cube then 0 else 1
  }

  ghost function ZeroSum(T: CubeList, v: nat, n: nat): nat {
    if n == 0 then 0 else ZeroSum(T, v, n - 1) + Zeros(T, Part(v, n - 1))
  }

  ghost predicate VarCountOf(s: Space, T: CubeList, v: nat, c: VarCount)
    requires v < |s.sizes|
  {
    && c.zeros == ZeroSum(T, v, s.sizes[v])
    && c.active == |ActiveParts(s, T, v)|
    && c.unate == (c.active == 1)
  }

  /** d holds the counts of T, and best is a variable with most active parts. */
  ghost predicate CountsOf(s: Space, T: CubeList, d: CData) {
    && d.partZeros.Keys == Full(s)
    && (forall p :: p in d.partZeros ==> d.partZeros[p] == Zeros(T, p))
    && |d.vars| == |s.sizes|
    && (forall v :: 0 <= v < |d.vars| ==> VarCountOf(s, T, v, d.vars[v]))
    && d.varsActive == NumActive(s, T, |s.sizes|)
    && d.varsUnate == NumUnate(s, T, |s.sizes|)
    && (|s.sizes| > 0 ==> 0 <= d.best < |s.sizes|)
    && (forall v :: 0 <= v < |d.vars| && 0 <= d.best < |d.vars| ==>
          d.vars[v].active <= d.vars[d.best].active)
  }

  lemma ZerosActive(s: Space, T: CubeList, p: Part)
    requires p in Full(s)
    ensures Zeros(T, p) > 0 <==> p in ActiveParts(s, T, p.v)
  {
  }

  method CountColumns(s: Space, T: CubeList) returns (count: map<Part, nat>)
    ensures count.Keys == Full(s)
    ensures forall p :: p in count ==> count[p] == Zeros(T, p)
  {
    count := map p | p in Full(s) :: 0;
    var i := 0;
    while i < |T.items|
      invariant 0 <= i <= |T.items|
      invariant count.Keys == Full(s)
      invariant forall p :: p in count ==> count[p] == if p in T.cof then 0 else ZerosIn(T.items[..i], p)
    {
      assert T.items[..i + 1][..i] == T.items[..i];
      count := map p | p in count ::
        if p !in T.items[i].cube && p !in T.cof then count[p] + 1 else count[p];
      i := i + 1;
    }
    assert T.items[..i] == T.items;
  }

  ghost function PartsBelow(a: Cube, n: nat): Cube {
    set p | p in a && p.k < n
  }

  lemma PartsBelowStep(a: Cube, v: nat, k: nat)
    requires forall p :: p in a ==> p.v == v
    ensures |PartsBelow(a, k + 1)| == |PartsBelow(a, k)| + if Part(v, k) in a then 1 else 0
  {
    if Part(v, k) in a {
      assert PartsBelow(a, k + 1) == PartsBelow(a, k) + {Part(v, k)};
    } else {
      assert PartsBelow(a, k + 1) == PartsBelow(a, k);
    }
  }

  /** Count the zeros and the active parts of one variable.  For a two-valued
      variable maxactive is the larger zero count, otherwise the active count. */
  method CountVariable(s: Space, T: CubeList, count: map<Part, nat>, v: nat)
      returns (zeros: nat, active: nat, maxactive: nat)
    requires v < |s.sizes| && count.Keys == Full(s)
    requires forall p :: p in count ==> count[p] == Zeros(T, p)
    ensures zeros == ZeroSum(T, v, s.sizes[v])
    ensures active == |ActiveParts(s, T, v)|
    ensures active == 0 ==> maxactive == 0
  {
    ghost var parts := ActiveParts(s, T, v);
    zeros, active, maxactive := 0, 0, 0;
    var k := 0;
    while k < s.sizes[v]
      invariant 0 <= k <= s.sizes[v]
      invariant zeros == ZeroSum(T, v, k)
      invariant active == |PartsBelow(parts, k)|
      invariant active == 0 ==> maxactive == 0
    {
      var p := Part(v, k);
      ZerosActive(s, T, p);
      PartsBelowStep(parts, v, k);
      zeros := zeros + count[p];
      if count[p] > 0 {
        active := active + 1;
      }
      maxactive := if v < s.numBinary then
        (if count[p] > maxactive then count[p] else maxactive)
      else
        (if active > maxactive then active else maxactive);
      k := k + 1;
    }
    assert PartsBelow(parts, k) == parts;
  }

  /** The best splitting variable so far, and why. */
  datatype Split = Split(best: int, mostactive: nat, mostzero: nat, mostbalanced: nat)

  function Better(b: Split, v: nat, active: nat, zeros: nat, maxactive: nat): (r: Split)
    ensures r.mostactive >= b.mostactive && r.mostactive >= active
    ensures r == b || (r.best == v && r.mostactive == active)
    ensures b == Split(-1, 0, 0, 32000) && (active > 0 || maxactive == 0) ==> r.best == v
  {
    if active > b.mostactive then Split(v, active, zeros, maxactive)
    else if active == b.mostactive && zeros > b.mostzero then Split(v, active, zeros, maxactive)
    else if active == b.mostactive && zeros == b.mostzero && maxactive < b.mostbalanced then
      Split(v, active, zeros, maxactive)
    else b
  }

  method MassiveCount(s: Space, T: CubeList) returns (d: CData)
    ensures CountsOf(s, T, d)
  {
    hide ActiveParts, ZeroSum, Zeros, Full;
    var count := CountColumns(s, T);
    var vars: seq<VarCount> := [];
    var varsActive, varsUnate := 0, 0;
    var split := Split(-1, 0, 0, 32000);
    var v := 0;
    while v < |s.sizes|
      invariant 0 <= v <= |s.sizes| && |vars| == v
      invariant forall u :: 0 <= u < v ==> VarCountOf(s, T, u, vars[u])
      invariant varsActive == NumActive(s, T, v) && varsUnate == NumUnate(s, T, v)
      invariant if v == 0 then split == Split(-1, 0, 0, 32000)
                else 0 <= split.best < v && split.mostactive == vars[split.best].active
      invariant forall u :: 0 <= u < v ==> vars[u].active <= split.mostactive
    {
      var zeros, active, maxactive := CountVariable(s, T, count, v);
      assert NumActive(s, T, v + 1) == NumActive(s, T, v) + if active > 0 then 1 else 0;
      assert NumUnate(s, T, v + 1) == NumUnate(s, T, v) + if active == 1 then 1 else 0;
      split := Better(split, v, active, zeros, maxactive);
      vars := vars + [VarCount(zeros, active, active == 1)];
      varsActive := varsActive + if active > 0 then 1 else 0;
      varsUnate := varsUnate + if active == 1 then 1 else 0;
      v := v + 1;
    }
    d := CData(count, vars, varsActive, varsUnate, split.best);
  }
}
