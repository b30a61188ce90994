/** Matrices that the reductions solve: stars, paths and cycles. */
module Stars {
  import opened Counting
  import opened Covering
  import opened CoveringSplits

  /** r1 keeps some of the rows of r0 as they are. */
  ghost predicate SomeRows(r0: Rows, r1: Rows) {
    r1.Keys <= r0.Keys && forall i :: i in r1 ==> r1[i] == r0[i]
  }

  lemma SomeRowsCard(r0: Rows, r1: Rows)
    requires SomeRows(r0, r1)
    ensures |r1| <= |r0|
    ensures |r1| == |r0| ==> r1 == r0
  {
    assert |r0| == |r0.Keys| && |r1| == |r1.Keys|;
    SubsetCard(r1.Keys, r0.Keys);
  }

  /** f names the centres of the stars: the rows of a star share the centre, and rows
      that share a column at all belong to one star. */
  ghost predicate StarsOf(rows: Rows, f: map<nat, nat>) {
    && f.Keys <= rows.Keys
    && (forall i :: i in f ==> f[i] in rows[i])
    && (forall i, k :: i in f && k in rows && Intersects(rows[i], rows[k]) ==> k in f && f[k] == f[i])
  }

  /** A row that f does not name is thin: it has at most two columns, and each is in
      at most two rows. */
  ghost predicate RestThin(rows: Rows, f: map<nat, nat>) {
    forall i :: i in rows && i !in f ==> ThinRow(rows, i)
  }

  ghost predicate ThinRow(rows: Rows, i: nat)
    requires i in rows
  {
    |rows[i]| <= 2 && forall c :: c in rows[i] ==> |ColRows(rows, c)| <= 2
  }

  ghost predicate EasyBy(rows: Rows, f: map<nat, nat>) {
    StarsOf(rows, f) && RestThin(rows, f)
  }

  /** Stars, paths and cycles. */
  ghost predicate Easy(rows: Rows) {
    exists f :: EasyBy(rows, f)
  }

  /** Stars only. */
  ghost predicate Centred(rows: Rows, f: map<nat, nat>) {
    f.Keys == rows.Keys && StarsOf(rows, f)
  }

  // ---- the reductions keep them

  lemma EasySome(r0: Rows, r1: Rows)
    requires Easy(r0) && SomeRows(r0, r1)
    ensures Easy(r1)
  {
    hide ThinRow, StarsOf;
    var f: map<nat, nat> :| EasyBy(r0, f);
    var g := map i | i in f && i in r1 :: f[i];
    assert StarsOf(r1, g) by { StarsSome(r0, r1, f, g); }
    forall i | i in r1 && i !in g
      ensures ThinRow(r1, i)
    {
      ThinSome(r0, r1, i);
    }
    assert EasyBy(r1, g);
  }

  lemma StarsSome(r0: Rows, r1: Rows, f: map<nat, nat>, g: map<nat, nat>)
    requires StarsOf(r0, f) && SomeRows(r0, r1) && g == map i | i in f && i in r1 :: f[i]
    ensures StarsOf(r1, g)
  {
    hide Intersects;
  }

  lemma ThinSome(r0: Rows, r1: Rows, i: nat)
    requires SomeRows(r0, r1) && i in r1 && ThinRow(r0, i)
    ensures ThinRow(r1, i)
  {
    forall c | c in r1[i]
      ensures |ColRows(r1, c)| <= 2
    {
      SubsetCard(ColRows(r1, c), ColRows(r0, c));
    }
  }

  lemma KeysWithout(rows: Rows, p: nat, q: nat)
    requires ColRows(rows, p) <= ColRows(rows, q) && p != q && forall i :: i in rows ==> rows[i] != {}
    ensures WithoutCol(rows, p).Keys == rows.Keys
    ensures forall i :: i in rows ==> WithoutCol(rows, p)[i] == rows[i] - {p}
  {
    forall i | i in rows
      ensures rows[i] - {p} != {}
    {
      var c := Member(rows[i]);
      if c == p {
        assert i in ColRows(rows, p);
        assert q in rows[i] - {p};
      } else {
        assert c in rows[i] - {p};
      }
    }
  }

  lemma AnotherColumn(row: set<nat>, c: nat) returns (d: nat)
    requires |row| >= 2 && c in row
    ensures d in row && d != c
  {
    assert |row - {c}| == |row| - 1;
    d := Member(row - {c});
  }

  /** When a centre is dominated, the column that dominates it takes its place. */
  lemma EasyWithout(rows: Rows, p: nat, q: nat)
    requires Easy(rows) && ColRows(rows, p) <= ColRows(rows, q) && p != q && forall i :: i in rows ==> rows[i] != {}
    ensures Easy(WithoutCol(rows, p))
  {
    hide WithoutCol, ColRows, EasyBy;
    var f: map<nat, nat> :| EasyBy(rows, f);
    KeysWithout(rows, p, q);
    EasyMinus(rows, WithoutCol(rows, p), f, p, q);
  }

  lemma EasyMinus(rows: Rows, r: Rows, f: map<nat, nat>, p: nat, q: nat)
    requires EasyBy(rows, f) && ColRows(rows, p) <= ColRows(rows, q) && p != q
    requires r.Keys == rows.Keys && forall i :: i in r ==> r[i] == rows[i] - {p}
    ensures Easy(r)
  {
    hide ThinRow, StarsOf, ColRows;
    var g := map i | i in f :: if f[i] == p then q else f[i];
    assert StarsOf(r, g) by { StarsMinus(rows, r, f, g, p, q); }
    forall i | i in r && i !in g
      ensures ThinRow(r, i)
    {
      ThinMinus(rows, r, p, i);
    }
    assert EasyBy(r, g);
  }

  lemma StarsMinus(rows: Rows, r: Rows, f: map<nat, nat>, g: map<nat, nat>, p: nat, q: nat)
    requires StarsOf(rows, f) && ColRows(rows, p) <= ColRows(rows, q) && p != q
    requires r.Keys == rows.Keys && forall i :: i in r ==> r[i] == rows[i] - {p}
    requires g == map i | i in f :: if f[i] == p then q else f[i]
    ensures StarsOf(r, g)
  {
    hide Intersects;
    forall i | i in f
      ensures g[i] in r[i]
    {
      assert f[i] == p ==> i in ColRows(rows, p);
    }
    SharedMinus(rows, r, f, p);
  }

  lemma SharedMinus(rows: Rows, r: Rows, f: map<nat, nat>, p: nat)
    requires StarsOf(rows, f) && r.Keys == rows.Keys && forall i :: i in r ==> r[i] == rows[i] - {p}
    ensures forall i, k :: i in f && k in r && Intersects(r[i], r[k]) ==> k in f && f[k] == f[i]
  {
    hide ColRows;
    forall i, k | i in f && k in r && Intersects(r[i], r[k])
      ensures k in f && f[k] == f[i]
    {
      var c := Member(r[i] * r[k]);
      assert c in rows[i] * rows[k];
    }
  }

  lemma ThinMinus(rows: Rows, r: Rows, p: nat, i: nat)
    requires r.Keys == rows.Keys && i in r && ThinRow(rows, i) && forall k :: k in r ==> r[k] == rows[k] - {p}
    ensures ThinRow(r, i)
  {
    SubsetCard(r[i], rows[i]);
    forall c | c in r[i]
      ensures |ColRows(r, c)| <= 2
    {
      SubsetCard(ColRows(r, c), ColRows(rows, c));
    }
  }

  // ---- what is left of them

  /** No column has its rows among those of another one. */
  ghost predicate NoColDominated(rows: Rows) {
    forall p, q :: p in Cols(rows) && q in Cols(rows) && p != q ==> !(ColRows(rows, p) <= ColRows(rows, q))
  }

  /** Reduced, every row has two columns and every column two rows. */
  lemma EasyReduced(rows: Rows)
    requires Easy(rows) && NoColDominated(rows) && forall i :: i in rows ==> |rows[i]| >= 2
    ensures forall i :: i in rows ==> |rows[i]| == 2
    ensures forall c :: c in Cols(rows) ==> |ColRows(rows, c)| == 2
  {
    var f: map<nat, nat> :| EasyBy(rows, f);
    forall i | i in rows
      ensures i !in f && |rows[i]| == 2
    {
      if i in f {
        StarDominates(rows, f, i);
      }
    }
    forall c | c in Cols(rows)
      ensures |ColRows(rows, c)| == 2
    {
      var i :| i in rows && c in rows[i];
      assert i in ColRows(rows, c);
      if |ColRows(rows, c)| == 1 {
        LoneDominated(rows, i, c);
      }
    }
  }

  lemma StarDominates(rows: Rows, f: map<nat, nat>, i: nat)
    requires StarsOf(rows, f) && i in f && |rows[i]| >= 2
    ensures !NoColDominated(rows)
  {
    var c := f[i];
    var d := AnotherColumn(rows[i], c);
    assert c in Cols(rows) && d in Cols(rows);
    forall k | k in ColRows(rows, d)
      ensures k in ColRows(rows, c)
    {
      assert d in rows[i] * rows[k];
    }
  }

  lemma LoneDominated(rows: Rows, i: nat, c: nat)
    requires i in rows && c in rows[i] && |rows[i]| >= 2 && |ColRows(rows, c)| == 1
    ensures !NoColDominated(rows)
  {
    var d := AnotherColumn(rows[i], c);
    assert c in Cols(rows) && d in Cols(rows);
    forall k | k in ColRows(rows, c)
      ensures k in ColRows(rows, d)
    {
      SingletonCard(ColRows(rows, c), k, i);
    }
  }

  // ---- the rewriting keeps what is left

  ghost predicate Thin(rows: Rows) {
    && (forall i :: i in rows ==> |rows[i]| == 2)
    && (forall c :: c in Cols(rows) ==> |ColRows(rows, c)| == 2)
  }

  lemma ThinEasy(rows: Rows)
    requires (forall i :: i in rows ==> |rows[i]| <= 2) && forall c :: c in Cols(rows) ==> |ColRows(rows, c)| <= 2
    ensures Easy(rows)
  {
    assert EasyBy(rows, map[]);
  }

  lemma GimpelEasy(rows: Rows, pr: nat, se: nat, c1: nat, c2: nat)
    requires Thin(rows) && GimpelShape(rows, pr, se, c1, c2)
    ensures Easy(GimpelRows(rows, pr, se, c1, c2))
  {
    hide GimpelRows, ColRows;
    var g := GimpelRows(rows, pr, se, c1, c2);
    var s := OtherColumn(rows, se, c1);
    forall i | i in g
      ensures |g[i]| <= 2
    {
      GimpelThin(rows, pr, se, c1, c2, s, i);
    }
    forall c | c in Cols(g)
      ensures |ColRows(g, c)| <= 2
    {
      GimpelDegree(rows, pr, se, c1, c2, s, c);
    }
    ThinEasy(g);
  }

  lemma OtherColumn(rows: Rows, se: nat, c1: nat) returns (s: nat)
    requires se in rows && |rows[se]| == 2 && c1 in rows[se]
    ensures s != c1 && rows[se] == {c1, s}
  {
    assert |rows[se] - {c1}| == 1;
    s := Member(rows[se] - {c1});
    SubsetCard({c1, s}, rows[se]);
  }

  lemma GimpelThin(rows: Rows, pr: nat, se: nat, c1: nat, c2: nat, s: nat, i: nat)
    requires Thin(rows) && GimpelShape(rows, pr, se, c1, c2) && rows[se] == {c1, s} && s != c1
    requires i in GimpelRows(rows, pr, se, c1, c2)
    ensures |GimpelRows(rows, pr, se, c1, c2)[i]| <= 2
  {
    hide ColRows;
    var g := GimpelRows(rows, pr, se, c1, c2)[i];
    if c2 in rows[i] {
      assert g <= (rows[i] - {c2}) + {s};
      SubsetCard(g, (rows[i] - {c2}) + {s});
    } else {
      SubsetCard(g, rows[i]);
    }
  }

  lemma GimpelDegree(rows: Rows, pr: nat, se: nat, c1: nat, c2: nat, s: nat, c: nat)
    requires Thin(rows) && GimpelShape(rows, pr, se, c1, c2) && rows[se] == {c1, s} && s != c1
    requires c in Cols(GimpelRows(rows, pr, se, c1, c2))
    ensures |ColRows(GimpelRows(rows, pr, se, c1, c2), c)| <= 2
  {
    var g := GimpelRows(rows, pr, se, c1, c2);
    assert c2 in rows[pr] && s in rows[se];
    if c == s {
      assert se in ColRows(rows, s) && pr in ColRows(rows, c2);
      assert ColRows(g, s) <= (ColRows(rows, s) - {se}) + (ColRows(rows, c2) - {pr});
      SubsetCard(ColRows(g, s), (ColRows(rows, s) - {se}) + (ColRows(rows, c2) - {pr}));
    } else {
      assert ColRows(g, c) <= ColRows(rows, c);
      var i :| i in g && c in g[i];
      assert c in rows[i];
      SubsetCard(ColRows(g, c), ColRows(rows, c));
    }
  }

  // ---- how many columns a star takes

  lemma CentredEasy(rows: Rows, f: map<nat, nat>)
    requires Centred(rows, f)
    ensures Easy(rows)
  {
    hide StarsOf;
    assert EasyBy(rows, f);
  }

  lemma CentresHit(rows: Rows, f: map<nat, nat>)
    requires Centred(rows, f)
    ensures Hits(rows, f.Values) && f.Values <= Cols(rows)
  {
    hide ColRows;
    forall i | i in rows
      ensures Intersects(rows[i], f.Values)
    {
      assert f[i] in rows[i] * f.Values;
    }
  }

  /** A cover of stars has a column for each. */
  lemma {:induction false} CentresNeeded(rows: Rows, f: map<nat, nat>, y: set<nat>)
    requires Centred(rows, f) && Hits(rows, y)
    ensures |f.Values| <= |y|
    decreases |f.Values|
  {
    hide ColRows, Hits, StarsOf;
    if f.Values != {} {
      var v: nat :| v in f.Values;
      var rows' := map i | i in rows && f[i] != v :: rows[i];
      var f' := map i | i in f && f[i] != v :: f[i];
      var c := StarColumn(rows, f, y, v);
      RestCentred(rows, f, rows', f', v, y, c);
      CentresNeeded(rows', f', y - {c});
    }
  }

  /** The column of the cover that meets a row of the star. */
  lemma StarColumn(rows: Rows, f: map<nat, nat>, y: set<nat>, v: nat) returns (c: nat)
    requires Centred(rows, f) && Hits(rows, y) && v in f.Values
    ensures c in y && exists i :: i in f && f[i] == v && c in rows[i]
  {
    hide ColRows;
    var i :| i in f && f[i] == v;
    assert Intersects(rows[i], y);
    c := Member(rows[i] * y);
  }

  lemma RestCentred(rows: Rows, f: map<nat, nat>, rows': Rows, f': map<nat, nat>, v: nat, y: set<nat>, c: nat)
    requires Centred(rows, f) && Hits(rows, y) && exists i :: i in f && f[i] == v && c in rows[i]
    requires rows' == map i | i in rows && f[i] != v :: rows[i]
    requires f' == map i | i in f && f[i] != v :: f[i]
    ensures Centred(rows', f') && Hits(rows', y - {c}) && f'.Values == f.Values - {v}
  {
    hide Intersects, StarsOf;
    assert Centred(rows', f') by { StarsSome(rows, rows', f, f'); }
    forall k | k in rows'
      ensures Intersects(rows'[k], y - {c})
    {
      assert Intersects(rows[k], y);
      RestHit(rows, f, k, y, v, c);
    }
    RestValues(f, f', v);
  }

  lemma RestValues(f: map<nat, nat>, f': map<nat, nat>, v: nat)
    requires f' == map i | i in f && f[i] != v :: f[i]
    ensures f'.Values == f.Values - {v}
  {
    forall w | w in f.Values - {v}
      ensures w in f'.Values
    {
      var i :| i in f && f[i] == w;
      assert f'[i] == w;
    }
  }

  lemma RestHit(rows: Rows, f: map<nat, nat>, k: nat, y: set<nat>, v: nat, c: nat)
    requires Centred(rows, f) && k in rows && f[k] != v && Intersects(rows[k], y)
    requires exists i :: i in f && f[i] == v && c in rows[i]
    ensures Intersects(rows[k], y - {c})
  {
    var i :| i in f && f[i] == v && c in rows[i];
    var d := Member(rows[k] * y);
    assert !Intersects(rows[i], rows[k]);
    assert c !in rows[i] * rows[k];
    assert d in rows[k] * (y - {c});
  }

  lemma {:induction false} CostCard(x: set<nat>, n: nat)
    requires forall c :: c in x ==> c < n
    ensures Cost(Unit, x, n) == |x|
  {
    if n == 0 {
      assert x == {};
    } else {
      var y := x - {n - 1};
      CostCard(y, n - 1);
      CostSame(x, y, n - 1);
    }
  }

  lemma {:induction false} CostSame(x: set<nat>, y: set<nat>, n: nat)
    requires forall c :: c < n ==> (c in x <==> c in y)
    ensures Cost(Unit, x, n) == Cost(Unit, y, n)
  {
    if n > 0 {
      CostSame(x, y, n - 1);
    }
  }
}
