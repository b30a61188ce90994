/** Finding all the ways in which a cube list covers its subspace: the rows of
    the irredundant covering table. */
module FindTautology {
  import opened Cubes
  import opened Counting
  import opened CubeLists
  import opened Splitting
  import opened Rows
  import opened Tautology
  import Covering

  type Row = set<nat>

  /** A cube that is not redundant covers m. */
  ghost predicate Certain(T: CubeList, redund: set<nat>, m: Minterm) {
    exists it :: it in T.items && it.id !in redund && In(m, it.cube)
  }

  /** Choosing any cube of the row covers m: the row names the cube being
      covered, and cubes of the list that hold m. */
  ghost predicate Offers(T: CubeList, current: nat, r: Row, m: Minterm) {
    current in r && forall j :: j in r && j != current ==> exists it :: it in T.items && it.id == j && In(m, it.cube)
  }

  /** Only the cubes of the row can cover m. */
  ghost predicate Witness(T: CubeList, redund: set<nat>, r: Row, m: Minterm) {
    !Certain(T, redund, m) && forall it :: it in T.items && In(m, it.cube) ==> it.id in r
  }

  /** The rows say exactly how the subspace can be covered: every minterm that is
      not certain has a row all of whose cubes cover it, and every row has a
      minterm that nothing but its cubes covers. */
  ghost predicate Derived(s: Space, T: CubeList, redund: set<nat>, current: nat, rows: set<Row>) {
    && (forall m :: Outside(s, T.cof, m) && !Certain(T, redund, m) ==>
        exists r :: r in rows && Offers(T, current, r, m))
    && (forall r :: r in rows ==> current in r && exists m :: Outside(s, T.cof, m) && Witness(T, redund, r, m))
    && (forall r, j :: r in rows && j in r && j != current ==> exists it :: it in T.items && it.id == j && j in redund)
  }

  // ---- unate reduction

  /** Each minterm m' of T has a minterm of T0 that only cubes of T cover, and
      only those that cover m'. */
  ghost predicate Shadows(s: Space, T0: CubeList, T: CubeList) {
    && T.cof == T0.cof
    && (forall it :: it in T.items ==> it in T0.items)
    && forall m' :: Outside(s, T.cof, m') ==> HasShadow(s, T0, T, m')
  }

  ghost predicate HasShadow(s: Space, T0: CubeList, T: CubeList, m': Minterm) {
    exists m :: Outside(s, T.cof, m) && ShadowOf(T0, T, m', m)
  }

  lemma ShadowFor(s: Space, T0: CubeList, T: CubeList, m': Minterm) returns (m: Minterm)
    requires Shadows(s, T0, T) && Outside(s, T.cof, m')
    ensures Outside(s, T.cof, m) && ShadowOf(T0, T, m', m)
  {
    assert HasShadow(s, T0, T, m');
    m :| Outside(s, T.cof, m) && ShadowOf(T0, T, m', m);
  }

  ghost predicate ShadowOf(T0: CubeList, T: CubeList, m': Minterm, m: Minterm) {
    forall it :: it in T0.items && In(m, it.cube) ==> it in T.items && In(m', it.cube)
  }

  lemma ShadowsSelf(s: Space, T: CubeList)
    ensures Shadows(s, T, T)
  {
    forall m | Outside(s, T.cof, m)
      ensures ShadowOf(T, T, m, m)
    {
    }
  }

  lemma ShadowsTrans(s: Space, T0: CubeList, T1: CubeList, T2: CubeList)
    requires Shadows(s, T0, T1) && Shadows(s, T1, T2)
    ensures Shadows(s, T0, T2)
  {
    hide Outside, In, HasShadow, ShadowOf;
    forall m2 | Outside(s, T2.cof, m2)
      ensures HasShadow(s, T0, T2, m2)
    {
      var m1 := ShadowFor(s, T1, T2, m2);
      var m := ShadowFor(s, T0, T1, m1);
      ShadowStep(s, T0, T1, T2, m2, m1, m);
    }
  }

  lemma ShadowStep(s: Space, T0: CubeList, T1: CubeList, T2: CubeList, m2: Minterm, m1: Minterm, m: Minterm)
    requires ShadowOf(T1, T2, m2, m1) && ShadowOf(T0, T1, m1, m) && Outside(s, T2.cof, m)
    ensures HasShadow(s, T0, T2, m2)
  {
    hide In;
    assert ShadowOf(T0, T2, m2, m);
  }

  lemma UnateShadows(s: Space, T: CubeList, vs: set<nat>, T': CubeList)
    requires UnateReduced(s, T, vs, T') && Live(s, T.cof)
    ensures Shadows(s, T, T')
  {
    hide ActiveParts, ActiveIn, UnateReduced;
    UnateReducedFacts(s, T, vs, T');
    var k := Corner(s, T, vs);
    forall m' | Outside(s, T.cof, m')
      ensures HasShadow(s, T, T', m')
    {
      var m := Mix(m', k, vs);
      assert Outside(s, T.cof, m);
      forall it | it in T.items && In(m, it.cube)
        ensures it in T'.items && In(m', it.cube)
      {
        CornerKeeps(s, T, vs, T', m', k, m, it);
      }
      assert ShadowOf(T, T', m', m);
    }
  }

  lemma CornerKeeps(s: Space, T: CubeList, vs: set<nat>, T': CubeList, m': Minterm, k: Minterm, m: Minterm, it: Item)
    requires UnateReduced(s, T, vs, T') && it in T.items && In(m, it.cube)
    requires Outside(s, T.cof, m') && Outside(s, T.cof, k) && Outside(s, T.cof, m)
    requires m == Mix(m', k, vs)
    requires forall v :: v in vs && v < |s.sizes| && ActiveParts(s, T, v) != {} ==>
               Part(v, k[v]) in ActiveParts(s, T, v)
    ensures it in T'.items && In(m', it.cube)
  {
    forall v | v in vs
      ensures !ActiveIn(s, T.cof, it.cube, v)
    {
      UnateCorner(s, T, vs, m, it, v);
    }
    forall v | 0 <= v < |m'|
      ensures Part(v, m'[v]) in it.cube
    {
      if v in vs {
        InactiveHolds(s, T.cof, it.cube, v, m');
      }
    }
  }

  lemma ShadowDerived(s: Space, T0: CubeList, T: CubeList, redund: set<nat>, current: nat, rows: set<Row>)
    requires Shadows(s, T0, T) && Derived(s, T, redund, current, rows)
    ensures Derived(s, T0, redund, current, rows)
  {
    hide Outside, In, HasShadow;
    forall m | Outside(s, T0.cof, m) && !Certain(T0, redund, m)
      ensures exists r :: r in rows && Offers(T0, current, r, m)
    {
      assert !Certain(T, redund, m);
      var r :| r in rows && Offers(T, current, r, m);
      assert Offers(T0, current, r, m);
    }
    forall r | r in rows
      ensures exists m :: Outside(s, T0.cof, m) && Witness(T0, redund, r, m)
    {
      var m' :| Outside(s, T.cof, m') && Witness(T, redund, r, m');
      var m := ShadowFor(s, T0, T, m');
      assert Witness(T0, redund, r, m);
    }
  }

  // ---- leaves

  /** The redundant cubes that fill the whole leaf. */
  ghost predicate LeafRow(s: Space, T: CubeList, redund: set<nat>, current: nat, r: Row) {
    forall j :: j in r <==>
      j == current || exists it :: it in T.items && it.id == j && j in redund && FullRow(s, it.cube, T.cof)
  }

  lemma LeafDerived(s: Space, T: CubeList, redund: set<nat>, current: nat, r: Row)
    requires Live(s, T.cof) && LeafRow(s, T, redund, current, r)
    requires forall it :: it in T.items && FullRow(s, it.cube, T.cof) ==> it.id in redund
    requires forall v :: 0 <= v < |s.sizes| ==> |ActiveParts(s, T, v)| <= 1
    ensures Derived(s, T, redund, current, {r})
  {
    hide ActiveParts, FullRow;
    forall m | Outside(s, T.cof, m) && !Certain(T, redund, m)
      ensures Offers(T, current, r, m)
    {
      forall j | j in r && j != current
        ensures exists it :: it in T.items && it.id == j && In(m, it.cube)
      {
        var it :| it in T.items && it.id == j && FullRow(s, it.cube, T.cof);
        FullRowCovers(s, T.cof, it.cube, m);
      }
    }
    var vs := Range(|s.sizes|);
    var m := Corner(s, T, vs);
    forall it | it in T.items && In(m, it.cube)
      ensures FullRow(s, it.cube, T.cof)
    {
      CornerFull(s, T, vs, m, it);
    }
    assert Witness(T, redund, r, m);
  }

  lemma CornerFull(s: Space, T: CubeList, vs: set<nat>, m: Minterm, it: Item)
    requires it in T.items && In(m, it.cube) && Outside(s, T.cof, m)
    requires vs == Range(|s.sizes|)
    requires forall v :: 0 <= v < |s.sizes| ==> |ActiveParts(s, T, v)| <= 1
    requires forall v :: v in vs && v < |s.sizes| && ActiveParts(s, T, v) != {} ==>
               Part(v, m[v]) in ActiveParts(s, T, v)
    ensures FullRow(s, it.cube, T.cof)
  {
    forall p | p in Full(s)
      ensures p in it.cube + T.cof
    {
      UnateCorner(s, T, vs, m, it, p.v);
      assert p in Mask(s, p.v);
    }
  }

  lemma CertainDerived(s: Space, T: CubeList, redund: set<nat>, current: nat, it: Item)
    requires it in T.items && it.id !in redund && FullRow(s, it.cube, T.cof)
    ensures Derived(s, T, redund, current, {})
  {
    hide FullRow;
    forall m | Outside(s, T.cof, m)
      ensures Certain(T, redund, m)
    {
      FullRowCovers(s, T.cof, it.cube, m);
    }
  }

  // ---- the split

  lemma SplitDerived(s: Space, T: CubeList, v: nat, cl: Cube, cr: Cube, L: CubeList, R: CubeList,
                     redund: set<nat>, current: nat, l: set<Row>, r: set<Row>)
    requires v < |s.sizes| && SplitOf(s, T.cof, v, cl, cr)
    requires HalfOf(s, T, cl, v, L) && HalfOf(s, T, cr, v, R)
    requires Derived(s, L, redund, current, l) && Derived(s, R, redund, current, r)
    ensures Derived(s, T, redund, current, l + r)
  {
    hide SplitOf, HalfOf, Outside, Derived;
    forall m | Outside(s, T.cof, m) && !Certain(T, redund, m)
      ensures exists row :: row in l + r && Offers(T, current, row, m)
    {
      SideOf(s, T.cof, v, cl, cr, m);
      HalfCofs(s, T, v, cl, cr, L, R);
      if Outside(s, L.cof, m) {
        HalfOffers(s, T, cl, v, L, redund, current, l, m);
      } else {
        HalfOffers(s, T, cr, v, R, redund, current, r, m);
      }
    }
    HalfRows(s, T, cl, v, L, redund, current, l);
    HalfRows(s, T, cr, v, R, redund, current, r);
    RowsUnion(s, T, redund, current, l, r);
  }

  lemma HalfCofs(s: Space, T: CubeList, v: nat, cl: Cube, cr: Cube, L: CubeList, R: CubeList)
    requires v < |s.sizes| && HalfOf(s, T, cl, v, L) && HalfOf(s, T, cr, v, R)
    ensures L.cof == T.cof + (Full(s) - cl) && R.cof == T.cof + (Full(s) - cr)
  {
  }

  ghost predicate RowsOf(s: Space, T: CubeList, redund: set<nat>, current: nat, rows: set<Row>) {
    && (forall r :: r in rows ==> current in r && exists m :: Outside(s, T.cof, m) && Witness(T, redund, r, m))
    && (forall r, j :: r in rows && j in r && j != current ==> exists it :: it in T.items && it.id == j && j in redund)
  }

  lemma RowsUnion(s: Space, T: CubeList, redund: set<nat>, current: nat, l: set<Row>, r: set<Row>)
    requires RowsOf(s, T, redund, current, l) && RowsOf(s, T, redund, current, r)
    requires forall m :: Outside(s, T.cof, m) && !Certain(T, redund, m) ==>
               exists row :: row in l + r && Offers(T, current, row, m)
    ensures Derived(s, T, redund, current, l + r)
  {
    hide Outside, Certain, Offers, Witness;
  }

  lemma HalfOffers(s: Space, T: CubeList, c: Cube, v: nat, H: CubeList, redund: set<nat>, current: nat,
                   rows: set<Row>, m: Minterm)
    requires v < |s.sizes| && HalfOf(s, T, c, v, H) && Derived(s, H, redund, current, rows)
    requires Outside(s, H.cof, m) && !Certain(T, redund, m)
    ensures exists r :: r in rows && Offers(T, current, r, m)
  {
    hide Outside, In, Witness;
    assert !Certain(H, redund, m);
    var r :| r in rows && Offers(H, current, r, m);
    assert Offers(T, current, r, m);
  }

  lemma HalfRows(s: Space, T: CubeList, c: Cube, v: nat, H: CubeList, redund: set<nat>, current: nat, rows: set<Row>)
    requires v < |s.sizes| && HalfOf(s, T, c, v, H) && Derived(s, H, redund, current, rows)
    ensures RowsOf(s, T, redund, current, rows)
  {
    hide Offers, Outside;
    forall r | r in rows
      ensures exists m :: Outside(s, T.cof, m) && Witness(T, redund, r, m)
    {
      var m :| Outside(s, H.cof, m) && Witness(H, redund, r, m);
      HalfWitness(s, T, c, v, H, redund, r, m);
    }
  }

  lemma HalfWitness(s: Space, T: CubeList, c: Cube, v: nat, H: CubeList, redund: set<nat>, r: Row, m: Minterm)
    requires v < |s.sizes| && HalfOf(s, T, c, v, H) && Outside(s, H.cof, m) && Witness(H, redund, r, m)
    ensures Outside(s, T.cof, m) && Witness(T, redund, r, m)
  {
    assert Part(v, m[v]) in c;
    forall it | it in T.items && In(m, it.cube)
      ensures it in H.items
    {
      assert Part(v, m[v]) in it.cube * (Mask(s, v) * c);
    }
  }

  // ---- the table

  /** t1 is the table t0 with the given rows added. */
  ghost predicate Grows(t0: Covering.Rows, t1: Covering.Rows, rows: set<Row>) {
    && (forall i :: i in t0 ==> i in t1 && t1[i] == t0[i])
    && (forall i :: i in t1 && i !in t0 ==> t1[i] in rows)
    && (forall r :: r in rows ==> exists i :: i in t1 && t1[i] == r)
  }

  lemma GrowsTrans(t0: Covering.Rows, t1: Covering.Rows, t2: Covering.Rows, a: set<Row>, b: set<Row>)
    requires Grows(t0, t1, a) && Grows(t1, t2, b)
    ensures Grows(t0, t2, a + b)
  {
    forall r | r in a + b
      ensures exists i :: i in t2 && t2[i] == r
    {
      if r in a {
        var i :| i in t1 && t1[i] == r;
        assert i in t2;
      }
    }
  }

  /** The number after the last row. */
  method NextRow(table: Covering.Rows) returns (n: nat)
    ensures forall i :: i in table ==> i < n
    ensures n > 0 ==> n - 1 in table
  {
    n := 0;
    var left := table.Keys;
    while left != {}
      invariant left <= table.Keys
      invariant forall i :: i in table ==> i in left || i < n
      invariant n > 0 ==> n - 1 in table
      decreases left
    {
      var i :| i in left;
      if i >= n {
        n := i + 1;
      }
      left := left - {i};
    }
  }

  /** Add a row for the redundant cubes that fill the leaf. */
  method AddLeaf(s: Space, T: CubeList, redund: set<nat>, current: nat, table: Covering.Rows)
      returns (table': Covering.Rows, ghost r: Row)
    ensures Grows(table, table', {r}) && LeafRow(s, T, redund, current, r)
  {
    hide FullRow;
    var rownum := NextRow(table);
    var row := {current};
    var i := 0;
    while i < |T.items|
      invariant 0 <= i <= |T.items|
      invariant forall j :: j in row <==>
                  (j == current ||
                    exists it :: it in T.items[..i] && it.id == j && j in redund && FullRow(s, it.cube, T.cof))
    {
      assert T.items[..i + 1] == T.items[..i] + [T.items[i]];
      if T.items[i].id in redund && FullRow(s, T.items[i].cube, T.cof) {
        row := row + {T.items[i].id};
      }
      i := i + 1;
    }
    assert T.items[..i] == T.items;
    table' := table[rownum := row];
    r := row;
    assert table'[rownum] == r;
  }

  /** A full row among the cubes that are not redundant? */
  method CertainRow(s: Space, T: CubeList, redund: set<nat>) returns (found: bool, ghost it: Item)
    ensures found ==> it in T.items && it.id !in redund && FullRow(s, it.cube, T.cof)
    ensures !found ==> forall it :: it in T.items && FullRow(s, it.cube, T.cof) ==> it.id in redund
  {
    hide FullRow;
    it := Item({}, 0);
    var i := 0;
    while i < |T.items|
      invariant 0 <= i <= |T.items|
      invariant forall k :: 0 <= k < i && FullRow(s, T.items[k].cube, T.cof) ==> T.items[k].id in redund
    {
      if T.items[i].id !in redund && FullRow(s, T.items[i].cube, T.cof) {
        return true, T.items[i];
      }
      i := i + 1;
    }
    found := false;
  }

  /** The special cases.  When done the rows are in the table; otherwise T is
      the list reduced in its unate variables. */
  method FTautSpecialCases(s: Space, T0: CubeList, redund: set<nat>, current: nat, table: Covering.Rows)
      returns (done: bool, T: CubeList, d: CData, table': Covering.Rows, ghost rows: set<Row>)
    requires WellFormed(s, T0) && Live(s, T0.cof)
    ensures done ==> Derived(s, T0, redund, current, rows) && Grows(table, table', rows)
    ensures !done ==> table' == table && WellFormed(s, T) && T.items != []
    ensures !done ==> CountsOf(s, T, d) && HasActivePair(s, T, d)
    ensures !done ==> Shadows(s, T0, T) && T.cof == T0.cof
  {
    hide Live, WellFormed, ActiveParts, CountsOf, Derived, Grows, Shadows, Full, FullRow, LeafRow, UnateReduced;
    T, table', rows := T0, table, {};
    d := CData(map[], [], 0, 0, -1);
    var row, it := CertainRow(s, T, redund);
    if row {
      CertainDerived(s, T, redund, current, it);
      GrowsSelf(table);
      return true, T, d, table', rows;
    }
    ShadowsSelf(s, T);
    while true
      invariant WellFormed(s, T) && T.cof == T0.cof && Shadows(s, T0, T)
      invariant forall it :: it in T.items && FullRow(s, it.cube, T.cof) ==> it.id in redund
      decreases |T.items|
    {
      d := MassiveCount(s, T);
      CountFacts(s, T, d);
      if d.varsUnate == d.varsActive {
        ghost var r;
        table', r := AddLeaf(s, T, redund, current, table);
        LeafDerived(s, T, redund, current, r);
        ShadowDerived(s, T0, T, redund, current, {r});
        return true, T, d, table', {r};
      } else if d.varsUnate != 0 {
        var T', vs := UnateReduce(s, T, d);
        UnateShadows(s, T, vs, T');
        ShadowsTrans(s, T0, T, T');
        SublistFacts(s, T, vs, T');
        T := T';
      } else {
        return false, T, d, table, {};
      }
    }
  }

  lemma GrowsSelf(t: Covering.Rows)
    ensures Grows(t, t, {})
  {
  }

  lemma SublistFacts(s: Space, T: CubeList, vs: set<nat>, T': CubeList)
    requires WellFormed(s, T) && UnateReduced(s, T, vs, T')
    ensures WellFormed(s, T') && T'.cof == T.cof
    ensures forall it :: it in T'.items ==> it in T.items
  {
    hide ActiveIn, ActiveParts, Survives;
  }

  /** Find the ways to cover the subspace, as rows of the table. */
  method FTautology(s: Space, T0: CubeList, redund: set<nat>, current: nat, table: Covering.Rows)
      returns (table': Covering.Rows, ghost rows: set<Row>)
    requires WellFormed(s, T0) && Live(s, T0.cof)
    ensures Derived(s, T0, redund, current, rows) && Grows(table, table', rows)
    ensures exists g: set<Row> :: Derived(s, T0, redund, current, g) && Grows(table, table', g)
    decreases |Full(s) - T0.cof|
  {
    hide Live, WellFormed, CountsOf, HasActivePair, Derived, Grows, Shadows, Full, SplitOf, HalfOf;
    var done, T, d, t;
    done, T, d, t, rows := FTautSpecialCases(s, T0, redund, current, table);
    if done {
      return t, rows;
    }
    var cl, cr, L, R := SplitList(s, T, d);
    var t1, l := FTautology(s, L, redund, current, t);
    var t2, r := FTautology(s, R, redund, current, t1);
    GrowsTrans(t, t1, t2, l, r);
    SplitDerived(s, T, d.best, cl, cr, L, R, redund, current, l, r);
    ShadowDerived(s, T0, T, redund, current, l + r);
    return t2, l + r;
  }
}
