/** The smallest cube containing the complement of a cube list. */
module Sccc {
  import opened Cubes
  import opened Counting
  import opened CubeLists
  import opened Splitting
  import opened Rows
  import opened Tautology

  /** Some uncovered minterm of the subspace goes through the part p. */
  ghost predicate Escapes(s: Space, T: CubeList, p: Part) {
    exists m :: Outside(s, T.cof, m) && p.v < |m| && m[p.v] == p.k && !Covers(T.items, m)
  }

  /** Outside cof, r is the union of the uncovered minterms: the smallest cube
      that contains them all.  Without a subspace the answer is the universe. */
  ghost predicate IsSccc(s: Space, T: CubeList, r: Cube) {
    && r <= Full(s)
    && (Live(s, T.cof) ==>
          forall p :: p in Full(s) && p !in T.cof ==> (p in r <==> Escapes(s, T, p)))
    && (!Live(s, T.cof) ==> r == Full(s))
  }

  // ---- the cube routines

  /** v is the one variable that c does not fill. */
  ghost predicate OnlyActive(s: Space, c: Cube, v: nat) {
    && v < |s.sizes| && !(Mask(s, v) <= c)
    && forall u :: 0 <= u < |s.sizes| && u != v ==> Mask(s, u) <= c
  }

  /** The index of the single variable that c does not fill, or -1 if there is
      none or more than one. */
  method Cactive(s: Space, c: Cube) returns (active: int)
    ensures active >= 0 ==> OnlyActive(s, c, active)
    ensures active < 0 ==> forall v :: !OnlyActive(s, c, v)
  {
    hide Mask;
    active := -1;
    var v := 0;
    while v < |s.sizes|
      invariant 0 <= v <= |s.sizes| && active < v
      invariant active >= 0 ==> !(Mask(s, active) <= c)
      invariant forall u :: 0 <= u < v && u != active ==> Mask(s, u) <= c
    {
      if !(Mask(s, v) <= c) {
        if active >= 0 {
          return -1;
        }
        active := v;
      }
      v := v + 1;
    }
  }

  /** By De Morgan's law: the complement of a cube with one active variable lies
      in the complement of that variable, otherwise it reaches everywhere. */
  method ScccCube(s: Space, result: Cube, c: Cube) returns (r: Cube)
    requires result <= Full(s) && c <= Full(s)
    ensures forall p :: p in r <==> p in result && !(OnlyActive(s, c, p.v) && p in c)
  {
    r := result;
    var v := Cactive(s, c);
    if v >= 0 {
      var mask := Mask(s, v);
      r := result * ((c - mask) + (mask - c));
      XorActive(s, result, c, v, r);
    }
  }

  lemma XorActive(s: Space, result: Cube, c: Cube, v: nat, r: Cube)
    requires result <= Full(s) && OnlyActive(s, c, v)
    requires r == result * ((c - Mask(s, v)) + (Mask(s, v) - c))
    ensures forall p :: p in r <==> p in result && !(OnlyActive(s, c, p.v) && p in c)
  {
    forall p
      ensures p in r <==> p in result && !(OnlyActive(s, c, p.v) && p in c)
    {
      if p in result && p.v != v {
        assert p in Mask(s, p.v);
      }
    }
  }

  /** r := result & cl | cr & right, as the two branches are merged. */
  method ScccMerge(left: Cube, right: Cube, cl: Cube, cr: Cube) returns (r: Cube)
    ensures forall p :: p in r <==> (p in left && p in cl) || (p in right && p in cr)
  {
    var l := left * cl;
    var rt := right * cr;
    r := l + rt;
  }

  // ---- why the special cases are right

  lemma EverythingEscapes(s: Space, T: CubeList)
    requires T.items == [] && T.cof <= Full(s)
    ensures IsSccc(s, T, Full(s))
  {
    if Live(s, T.cof) {
      forall p | p in Full(s) && p !in T.cof
        ensures Escapes(s, T, p)
      {
        var m := MintermThrough(s, T.cof, p);
      }
    }
  }

  lemma NothingEscapes(s: Space, T: CubeList)
    requires IsTautology(s, T)
    ensures IsSccc(s, T, {})
  {
  }

  /** In every variable an item holds all the active parts or none of them. */
  ghost predicate Aligned(s: Space, T: CubeList) {
    forall it, v: nat, p, q | it in T.items && v < |s.sizes| ::
      p in ActiveParts(s, T, v) && q in ActiveParts(s, T, v) && p !in it.cube ==> q !in it.cube
  }

  lemma UnateAligned(s: Space, T: CubeList)
    requires forall v :: 0 <= v < |s.sizes| ==> |ActiveParts(s, T, v)| <= 1
    ensures Aligned(s, T)
  {
    hide ActiveParts;
    forall it, v: nat, p, q | it in T.items && v < |s.sizes|
        && p in ActiveParts(s, T, v) && q in ActiveParts(s, T, v) && p !in it.cube
      ensures q !in it.cube
    {
      SingletonCard(ActiveParts(s, T, v), p, q);
    }
  }

  lemma SingleAligned(s: Space, T: CubeList)
    requires |T.items| == 1
    ensures Aligned(s, T)
  {
  }

  /** In an aligned list, a part escapes unless some cube holds it and is active
      in its variable only. */
  lemma AlignedEscapes(s: Space, T: CubeList, p: Part)
    requires Live(s, T.cof) && NoFullRow(s, T) && Aligned(s, T)
    requires p in Full(s) && p !in T.cof
    ensures Escapes(s, T, p) <==>
      (forall it :: it in T.items ==> !(OnlyActive(s, it.cube + T.cof, p.v) && p in it.cube))
  {
    hide ActiveParts, FullRow, Aligned;
    if it :| it in T.items && OnlyActive(s, it.cube + T.cof, p.v) && p in it.cube {
      forall m | Outside(s, T.cof, m) && m[p.v] == p.k
        ensures Covers(T.items, m)
      {
        HoldsAll(s, T.cof, it.cube, p, m);
      }
    } else {
      var k := Corner(s, T, Range(|s.sizes|));
      var m := k[p.v := p.k];
      assert Outside(s, T.cof, m);
      forall it | it in T.items
        ensures !In(m, it.cube)
      {
        if p in it.cube {
          var u := OtherActive(s, it.cube + T.cof, p.v, T, it);
          CornerMisses(s, T, it, u, k);
        }
      }
      assert !Covers(T.items, m);
    }
  }

  lemma HoldsAll(s: Space, cof: Cube, c: Cube, p: Part, m: Minterm)
    requires OnlyActive(s, c + cof, p.v) && p in c && Outside(s, cof, m) && m[p.v] == p.k
    ensures In(m, c)
  {
    forall v | 0 <= v < |m|
      ensures Part(v, m[v]) in c
    {
      if v != p.v {
        assert Part(v, m[v]) in Mask(s, v);
      }
    }
  }

  /** Not being active in v only, an item that is no full row is active in
      another variable. */
  lemma OtherActive(s: Space, c: Cube, v: nat, T: CubeList, it: Item) returns (u: nat)
    requires c == it.cube + T.cof && it in T.items && !FullRow(s, it.cube, T.cof) && !OnlyActive(s, c, v)
    requires v < |s.sizes|
    ensures u < |s.sizes| && u != v && !(Mask(s, u) <= c)
  {
    var p :| p in Full(s) && p !in c;
    if p.v != v {
      assert p in Mask(s, p.v);
      u := p.v;
    } else {
      assert p in Mask(s, v);
      u :| 0 <= u < |s.sizes| && u != v && !(Mask(s, u) <= c);
    }
  }

  lemma CornerMisses(s: Space, T: CubeList, it: Item, u: nat, k: Minterm)
    requires Aligned(s, T) && it in T.items && u < |s.sizes| && !(Mask(s, u) <= it.cube + T.cof)
    requires |k| == |s.sizes|
    requires ActiveParts(s, T, u) != {} ==> Part(u, k[u]) in ActiveParts(s, T, u)
    ensures Part(u, k[u]) !in it.cube
  {
    var q :| q in Mask(s, u) && q !in it.cube + T.cof;
    assert q in ActiveParts(s, T, u);
  }

  // ---- empty columns

  /** A part outside ceil, or in another variable than the one ceil leaves open,
      escapes through an empty column. */
  lemma EscapesByColumn(s: Space, T: CubeList, ceil: Cube, p: Part, q: Part)
    requires Live(s, T.cof) && p in Full(s) && p !in T.cof
    requires EmptyColumn(s, T, q) && (p == q || p.v != q.v)
    ensures Escapes(s, T, p)
  {
    var m := MintermThrough(s, T.cof, q);
    m := m[p.v := p.k];
    assert m[q.v] == q.k;
  }

  /** T' is the cofactor of T against ceil, which covers every cube of T. */
  ghost predicate CeilCofactor(s: Space, T: CubeList, ceil: Cube, T': CubeList) {
    && T.cof <= ceil <= Full(s)
    && (forall it :: it in T.items ==> it.cube <= ceil)
    && T'.cof == T.cof + (Full(s) - ceil)
    && (forall it :: it in T'.items <==> it in T.items && Meets(s, it.cube, ceil))
  }

  lemma CeilCovers(s: Space, T: CubeList, ceil: Cube, T': CubeList, m: Minterm)
    requires CeilCofactor(s, T, ceil, T') && IsMinterm(s, m)
    ensures Covers(T.items, m) <==> Covers(T'.items, m)
  {
    hide Meets;
    if it :| it in T.items && In(m, it.cube) {
      MeetsIffCommonMinterm(s, it.cube, ceil);
      assert it in T'.items;
    }
  }

  lemma CeilWellFormed(s: Space, T: CubeList, ceil: Cube, T': CubeList)
    requires CeilCofactor(s, T, ceil, T') && WellFormed(s, T) && ceil != Full(s)
    ensures WellFormed(s, T')
    ensures |Full(s) - T'.cof| < |Full(s) - T.cof|
  {
    forall it | it in T'.items
      ensures Survives(s, T'.cof, it.cube)
    {
      CofactorSurvives(s, T.cof, ceil, it.cube);
    }
    var p :| p in Full(s) && p !in ceil;
    SmallerRest(Full(s), T.cof, T'.cof, p);
  }

  /** A cube of a well formed list that has a part in every variable of ceil
      keeps the cofactor alive. */
  lemma CeilLive(s: Space, T: CubeList, ceil: Cube, T': CubeList, u: nat)
    requires CeilCofactor(s, T, ceil, T') && WellFormed(s, T) && T.items != []
    requires OnlyActive(s, ceil, u) && ceil * Mask(s, u) != {}
    ensures Live(s, T'.cof)
  {
    WellFormedLive(s, T);
    forall v | 0 <= v < |s.sizes|
      ensures (Full(s) - T'.cof) * Mask(s, v) != {}
    {
      if v != u {
        var p := LivePart(s, T.cof, v);
        assert p in (Full(s) - T'.cof) * Mask(s, v);
      } else if T.cof * Mask(s, u) != {} {
        var it := T.items[0];
        assert Survives(s, T.cof, it.cube);
        var p := Member((it.cube - T.cof) * Mask(s, u));
        assert p in (Full(s) - T'.cof) * Mask(s, u);
      } else {
        var p := Member(ceil * Mask(s, u));
        assert p !in T.cof * Mask(s, u);
        assert p in (Full(s) - T'.cof) * Mask(s, u);
      }
    }
  }

  lemma CeilEscapes(s: Space, T: CubeList, ceil: Cube, T': CubeList, u: nat, p: Part)
    requires CeilCofactor(s, T, ceil, T')
    requires OnlyActive(s, ceil, u) && p.v == u && p in ceil && p !in T.cof
    ensures Escapes(s, T, p) <==> Escapes(s, T', p)
  {
    hide CeilCofactor, Meets;
    forall m | IsMinterm(s, m) && m[p.v] == p.k
      ensures Outside(s, T.cof, m) <==> Outside(s, T'.cof, m)
      ensures Covers(T.items, m) <==> Covers(T'.items, m)
    {
      CeilOutside(s, T, ceil, T', u, p, m);
      CeilCovers(s, T, ceil, T', m);
    }
  }

  lemma CeilOutside(s: Space, T: CubeList, ceil: Cube, T': CubeList, u: nat, p: Part, m: Minterm)
    requires CeilCofactor(s, T, ceil, T') && IsMinterm(s, m) && p.v < |m| && m[p.v] == p.k
    requires OnlyActive(s, ceil, u) && p.v == u && p in ceil
    ensures Outside(s, T.cof, m) <==> Outside(s, T'.cof, m)
  {
    forall v | 0 <= v < |m| && v != u
      ensures Part(v, m[v]) in ceil
    {
      assert Part(v, m[v]) in Mask(s, v);
    }
  }

  // ---- components and split

  lemma ComponentEscapes(s: Space, T: CubeList, A: CubeList, B: CubeList, p: Part)
    requires A.cof == T.cof && B.cof == T.cof
    requires forall it :: it in T.items <==> it in A.items || it in B.items
    requires Separate(s, T.cof, A.items, B.items)
    ensures Escapes(s, T, p) <==> Escapes(s, A, p) && Escapes(s, B, p)
  {
    hide ActiveIn, Separate;
    if Escapes(s, A, p) && Escapes(s, B, p) {
      var a :| Outside(s, T.cof, a) && p.v < |a| && a[p.v] == p.k && !Covers(A.items, a);
      var b :| Outside(s, T.cof, b) && p.v < |b| && b[p.v] == p.k && !Covers(B.items, b);
      var m := MissedByBoth(s, T.cof, A.items, B.items, a, b);
    }
  }

  lemma SplitEscapes(s: Space, T: CubeList, v: nat, cl: Cube, cr: Cube, L: CubeList, R: CubeList, p: Part)
    requires v < |s.sizes| && SplitOf(s, T.cof, v, cl, cr)
    requires HalfOf(s, T, cl, v, L) && HalfOf(s, T, cr, v, R)
    requires p in Full(s) && p !in T.cof
    ensures Escapes(s, T, p) <==> (p in cl && Escapes(s, L, p)) || (p in cr && Escapes(s, R, p))
    ensures p in cl ==> p !in L.cof
    ensures p in cr ==> p !in R.cof
  {
    hide SplitOf, HalfOf, Full;
    HalfParts(s, T, v, cl, cr, L, R, p);
    forall m | Outside(s, L.cof, m)
      ensures Outside(s, T.cof, m) && (Covers(T.items, m) <==> Covers(L.items, m))
    {
      HalfCovers(s, T, v, cl, L, m);
    }
    forall m | Outside(s, R.cof, m)
      ensures Outside(s, T.cof, m) && (Covers(T.items, m) <==> Covers(R.items, m))
    {
      HalfCovers(s, T, v, cr, R, m);
    }
    if m :| Outside(s, T.cof, m) && p.v < |m| && m[p.v] == p.k && !Covers(T.items, m) {
      SideOf(s, T.cof, v, cl, cr, m);
      HalfCofs(s, T, v, cl, cr, L, R);
      assert Part(p.v, m[p.v]) == p;
    }
  }

  lemma HalfCofs(s: Space, T: CubeList, v: nat, cl: Cube, cr: Cube, L: CubeList, R: CubeList)
    requires v < |s.sizes| && HalfOf(s, T, cl, v, L) && HalfOf(s, T, cr, v, R)
    ensures L.cof == T.cof + (Full(s) - cl) && R.cof == T.cof + (Full(s) - cr)
    ensures forall m, u :: Outside(s, L.cof, m) && 0 <= u < |m| ==> Part(u, m[u]) in cl
    ensures forall m, u :: Outside(s, R.cof, m) && 0 <= u < |m| ==> Part(u, m[u]) in cr
  {
  }

  lemma HalfParts(s: Space, T: CubeList, v: nat, cl: Cube, cr: Cube, L: CubeList, R: CubeList, p: Part)
    requires v < |s.sizes| && HalfOf(s, T, cl, v, L) && HalfOf(s, T, cr, v, R)
    requires p in Full(s) && p !in T.cof
    ensures p in cl ==> p !in L.cof
    ensures p in cr ==> p !in R.cof
  {
  }

  // ---- the algorithm

  method UnateSccc(s: Space, T: CubeList) returns (r: Cube)
    requires WellFormed(s, T) && T.items != [] && NoFullRow(s, T) && Aligned(s, T)
    ensures IsSccc(s, T, r)
  {
    hide Full, NoFullRow, Aligned, OnlyActive, Survives;
    r := Full(s);
    var i := 0;
    while i < |T.items|
      invariant 0 <= i <= |T.items|
      invariant forall p :: p in r <==> (p in Full(s) &&
                  forall it :: it in T.items[..i] ==>
                    !(OnlyActive(s, it.cube + T.cof, p.v) && p in it.cube + T.cof))
    {
      assert T.items[..i + 1] == T.items[..i] + [T.items[i]];
      assert T.items[i] in T.items;
      r := ScccCube(s, r, T.items[i].cube + T.cof);
      i := i + 1;
    }
    assert T.items[..i] == T.items;
    WellFormedLive(s, T);
    forall p | p in Full(s) && p !in T.cof
      ensures p in r <==> Escapes(s, T, p)
    {
      AlignedEscapes(s, T, p);
    }
  }

  /** Factor out the empty columns. */
  method ColumnSccc(s: Space, T: CubeList, ceil: Cube) returns (r: Cube)
    requires WellFormed(s, T) && T.items != [] && ceil != Full(s) && ceil <= Full(s)
    requires forall p :: p in ceil <==> p in T.cof || exists it :: it in T.items && p in it.cube
    ensures IsSccc(s, T, r)
    decreases |Full(s) - T.cof|, |T.items|, 0
  {
    hide Full, Mask, WellFormed, OnlyActive, CeilCofactor;
    r := ScccCube(s, Full(s), ceil);
    if r == Full(s) {
      ColumnAll(s, T, ceil, r);
      return;
    }
    var T' := Cofactor(s, T, ceil, -1);
    CeilIsCofactor(s, T, ceil, T');
    CeilWellFormed(s, T, ceil, T');
    var left := SmallestCube(s, T');
    var right := r;
    r := ScccMerge(left, Full(s), ceil, right);
    ColumnMerge(s, T, ceil, T', left, right, r);
  }

  lemma CeilIsCofactor(s: Space, T: CubeList, ceil: Cube, T': CubeList)
    requires ceil <= Full(s)
    requires forall p :: p in ceil <==> p in T.cof || exists it :: it in T.items && p in it.cube
    requires T'.cof == T.cof + (Full(s) - ceil)
    requires T'.items == Filter(T.items, MeetsOther(s, ceil, -1))
    ensures CeilCofactor(s, T, ceil, T')
  {
    hide Full, Meets;
  }

  lemma ColumnAll(s: Space, T: CubeList, ceil: Cube, r: Cube)
    requires WellFormed(s, T) && T.items != [] && ceil != Full(s) && ceil <= Full(s)
    requires forall p :: p in ceil <==> p in T.cof || exists it :: it in T.items && p in it.cube
    requires forall p :: p in r <==> p in Full(s) && !(OnlyActive(s, ceil, p.v) && p in ceil)
    requires r == Full(s)
    ensures IsSccc(s, T, r)
  {
    hide Full, OnlyActive;
    WellFormedLive(s, T);
    forall p | p in Full(s) && p !in T.cof
      ensures Escapes(s, T, p)
    {
      OpenColumn(s, T, ceil, p);
    }
  }

  /** A part that ScccCube leaves in escapes. */
  lemma OpenColumn(s: Space, T: CubeList, ceil: Cube, p: Part)
    requires WellFormed(s, T) && Live(s, T.cof) && ceil != Full(s) && ceil <= Full(s)
    requires forall p :: p in ceil <==> p in T.cof || exists it :: it in T.items && p in it.cube
    requires p in Full(s) && p !in T.cof && !(OnlyActive(s, ceil, p.v) && p in ceil)
    ensures Escapes(s, T, p)
  {
    if p !in ceil {
      EscapesByColumn(s, T, ceil, p, p);
    } else {
      var q0 :| q0 in Full(s) && q0 !in ceil;
      var q := q0;
      if q.v == p.v {
        assert q in Mask(s, p.v);
        var u :| 0 <= u < |s.sizes| && u != p.v && !(Mask(s, u) <= ceil);
        q :| q in Mask(s, u) && q !in ceil;
      }
      EscapesByColumn(s, T, ceil, p, q);
    }
  }

  lemma ColumnMerge(s: Space, T: CubeList, ceil: Cube, T': CubeList, left: Cube, right: Cube, r: Cube)
    requires WellFormed(s, T) && T.items != [] && ceil != Full(s) && ceil <= Full(s)
    requires forall p :: p in ceil <==> p in T.cof || exists it :: it in T.items && p in it.cube
    requires CeilCofactor(s, T, ceil, T') && IsSccc(s, T', left)
    requires forall p :: p in right <==> p in Full(s) && !(OnlyActive(s, ceil, p.v) && p in ceil)
    requires right != Full(s)
    requires forall p :: p in r <==> (p in left && p in ceil) || (p in Full(s) && p in right)
    ensures IsSccc(s, T, r)
  {
    hide Full, CeilCofactor, OnlyActive, Escapes, WellFormed;
    WellFormedLive(s, T);
    assert right <= Full(s);
    var p0 :| p0 in Full(s) && p0 !in right;
    CeilLiveAt(s, T, ceil, T', p0);
    forall p | p in Full(s) && p !in T.cof
      ensures p in r <==> Escapes(s, T, p)
    {
      if p in right {
        OpenColumn(s, T, ceil, p);
      } else {
        CeilEscapes(s, T, ceil, T', p.v, p);
        CeilOpen(s, T, ceil, T', p);
      }
    }
  }

  lemma CeilLiveAt(s: Space, T: CubeList, ceil: Cube, T': CubeList, p: Part)
    requires CeilCofactor(s, T, ceil, T') && WellFormed(s, T) && T.items != []
    requires p in Full(s) && OnlyActive(s, ceil, p.v) && p in ceil
    ensures Live(s, T'.cof)
  {
    assert p in ceil * Mask(s, p.v);
    CeilLive(s, T, ceil, T', p.v);
  }

  lemma CeilOpen(s: Space, T: CubeList, ceil: Cube, T': CubeList, p: Part)
    requires CeilCofactor(s, T, ceil, T') && p in ceil && p !in T.cof
    ensures p !in T'.cof
  {
  }

  /** The special cases; with done the answer is r. */
  method ScccSpecialCases(s: Space, T: CubeList) returns (done: bool, r: Cube, d: CData)
    requires WellFormed(s, T)
    ensures done ==> IsSccc(s, T, r)
    ensures !done ==> T.items != [] && CountsOf(s, T, d) && HasActivePair(s, T, d)
    decreases |Full(s) - T.cof|, |T.items|, 1
  {
    hide IsSccc, WellFormed, IsTautology, ActiveParts, CountsOf, Full, Escapes;
    d := CData(map[], [], 0, 0, -1);
    r := {};
    if T.items == [] {
      EverythingEscapesWF(s, T);
      return true, Full(s), d;
    }
    var row := HasFullRow(s, T);
    if row {
      FullRowIsTautology(s, T);
      NothingEscapes(s, T);
      return true, {}, d;
    }
    d := MassiveCount(s, T);
    CountFacts(s, T, d);
    if d.varsUnate == d.varsActive || |T.items| == 1 {
      if |T.items| == 1 { SingleAligned(s, T); } else { UnateAligned(s, T); }
      r := UnateSccc(s, T);
      return true, r, d;
    }
    var ceil := Ceiling(T);
    if ceil != Full(s) {
      CeilInFull(s, T, ceil);
      r := ColumnSccc(s, T, ceil);
      return true, r, d;
    }
    if d.varsActive == 1 {
      NoEmptyColumn(s, T, ceil);
      WellFormedLive(s, T);
      OneVariableIsTautology(s, T);
      NothingEscapes(s, T);
      return true, {}, d;
    }
    if d.vars[d.best].zeros < |T.items| / 2 {
      var A, B, n := CubelistPartition(s, T);
      if n == 0 {
        return false, r, d;
      }
      PartWellFormed(s, T, A, B);
      var a := SmallestCube(s, A);
      var b := SmallestCube(s, B);
      ComponentSccc(s, T, A, B, a, b);
      return true, a * b, d;
    }
    return false, r, d;
  }

  /** The smallest cube containing the complement of T. */
  method SmallestCube(s: Space, T: CubeList) returns (r: Cube)
    requires WellFormed(s, T)
    ensures IsSccc(s, T, r)
    decreases |Full(s) - T.cof|, |T.items|, 2
  {
    hide IsSccc, CountsOf, HasActivePair, Full, SplitOf, HalfOf, WellFormed;
    var done, r0, d := ScccSpecialCases(s, T);
    if done {
      return r0;
    }
    var cl, cr, L, R := SplitList(s, T, d);
    var left := SmallestCube(s, L);
    var right := SmallestCube(s, R);
    r := ScccMerge(left, right, cl, cr);
    SplitSccc(s, T, d.best, cl, cr, L, R, left, right, r);
  }

  lemma EverythingEscapesWF(s: Space, T: CubeList)
    requires WellFormed(s, T) && T.items == []
    ensures IsSccc(s, T, Full(s))
  {
    EverythingEscapes(s, T);
  }

  lemma CeilInFull(s: Space, T: CubeList, ceil: Cube)
    requires WellFormed(s, T)
    requires forall p :: p in ceil <==> p in T.cof || exists it :: it in T.items && p in it.cube
    ensures ceil <= Full(s)
  {
  }

  lemma PartWellFormed(s: Space, T: CubeList, A: CubeList, B: CubeList)
    requires WellFormed(s, T) && A.cof == T.cof && B.cof == T.cof
    requires forall it :: it in T.items <==> it in A.items || it in B.items
    ensures WellFormed(s, A) && WellFormed(s, B)
  {
    hide Survives;
  }

  lemma ComponentSccc(s: Space, T: CubeList, A: CubeList, B: CubeList, a: Cube, b: Cube)
    requires A.cof == T.cof && B.cof == T.cof && WellFormed(s, T) && T.items != []
    requires forall it :: it in T.items <==> it in A.items || it in B.items
    requires Separate(s, T.cof, A.items, B.items)
    requires IsSccc(s, A, a) && IsSccc(s, B, b)
    ensures IsSccc(s, T, a * b)
  {
    hide Full, Escapes, Separate, WellFormed;
    WellFormedLive(s, T);
    forall p | p in Full(s) && p !in T.cof
      ensures p in a * b <==> Escapes(s, T, p)
    {
      ComponentEscapes(s, T, A, B, p);
    }
  }

  lemma SplitSccc(s: Space, T: CubeList, v: nat, cl: Cube, cr: Cube, L: CubeList, R: CubeList,
                  left: Cube, right: Cube, r: Cube)
    requires v < |s.sizes| && Live(s, T.cof) && SplitOf(s, T.cof, v, cl, cr)
    requires HalfOf(s, T, cl, v, L) && HalfOf(s, T, cr, v, R) && Live(s, L.cof) && Live(s, R.cof)
    requires IsSccc(s, L, left) && IsSccc(s, R, right)
    requires forall p :: p in r <==> (p in left && p in cl) || (p in right && p in cr)
    ensures IsSccc(s, T, r)
  {
    hide Full, Escapes, SplitOf, HalfOf;
    assert r <= Full(s);
    forall p | p in Full(s) && p !in T.cof
      ensures p in r <==> Escapes(s, T, p)
    {
      SplitEscapes(s, T, v, cl, cr, L, R, p);
    }
  }
}
