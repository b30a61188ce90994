/** Covering matrices up to the rows that contain other rows. */
module Cores {
  import opened Counting
  import opened Covering
  import opened Stars

  /** The rows of the core are among the rows, numbers aside, and every row contains
      one of the core. */
  ghost predicate CoreOf(rows: Rows, core: Rows) {
    && (forall k :: k in core ==> HasRow(rows, core[k]))
    && (forall i :: i in rows ==> HoldsRow(core, rows[i]))
  }

  ghost predicate HasRow(rows: Rows, row: set<nat>) {
    exists i :: i in rows && rows[i] == row
  }

  ghost predicate HoldsRow(core: Rows, row: set<nat>) {
    exists k :: k in core && core[k] <= row
  }

  /** No row lies properly inside another one. */
  ghost predicate NoneInside(rows: Rows) {
    forall i, k :: i in rows && k in rows && rows[i] <= rows[k] ==> rows[i] == rows[k]
  }

  lemma InsideSame(rows: Rows, i: nat, k: nat)
    requires NoneInside(rows) && i in rows && k in rows && rows[i] <= rows[k]
    ensures rows[i] == rows[k]
  {
  }

  lemma RowHeld(core: Rows, row: set<nat>) returns (k: nat)
    requires HoldsRow(core, row)
    ensures k in core && core[k] <= row
  {
    k :| k in core && core[k] <= row;
  }

  lemma HoldsNow(core: Rows, row: set<nat>, k: nat)
    requires k in core && core[k] <= row
    ensures HoldsRow(core, row)
  {
  }

  lemma RowFound(rows: Rows, row: set<nat>) returns (i: nat)
    requires HasRow(rows, row)
    ensures i in rows && rows[i] == row
  {
    i :| i in rows && rows[i] == row;
  }

  lemma HasNow(rows: Rows, i: nat)
    requires i in rows
    ensures HasRow(rows, rows[i])
  {
  }

  /** Stars, paths and cycles, up to rows that contain other rows. */
  ghost predicate EasyCore(rows: Rows) {
    exists core: Rows :: CoreOf(rows, core) && Easy(core)
  }

  lemma SelfCore(rows: Rows)
    ensures CoreOf(rows, rows)
  {
    hide HasRow, HoldsRow;
    forall i | i in rows
      ensures HasRow(rows, rows[i]) && HoldsRow(rows, rows[i])
    {
      HasNow(rows, i);
      HoldsNow(rows, rows[i], i);
    }
  }

  lemma EasyIsCore(rows: Rows)
    requires Easy(rows)
    ensures EasyCore(rows)
  {
    hide Easy, CoreOf;
    SelfCore(rows);
  }

  /** The columns that meet the core are those that meet the rows. */
  lemma CoreHits(rows: Rows, core: Rows, x: set<nat>)
    requires CoreOf(rows, core)
    ensures Hits(core, x) <==> Hits(rows, x)
    ensures Cols(core) <= Cols(rows)
  {
    hide HasRow, HoldsRow;
    forall k | k in core
      ensures Hits(rows, x) ==> Intersects(core[k], x)
      ensures core[k] <= Cols(rows)
    {
      var i := RowFound(rows, core[k]);
    }
    forall i | i in rows
      ensures Hits(core, x) ==> Intersects(rows[i], x)
    {
      var k := RowHeld(core, rows[i]);
      WiderIntersects(core[k], rows[i], x);
    }
  }

  lemma WiderIntersects(a: set<nat>, b: set<nat>, x: set<nat>)
    requires a <= b
    ensures Intersects(a, x) ==> Intersects(b, x)
  {
    if Intersects(a, x) {
      var c := Member(a * x);
      assert c in b * x;
    }
  }

  // ---- the reductions keep them

  lemma CoreWithout(rows: Rows, p: nat, q: nat)
    requires EasyCore(rows) && ColRows(rows, p) <= ColRows(rows, q) && p != q && forall i :: i in rows ==> rows[i] != {}
    ensures EasyCore(WithoutCol(rows, p))
  {
    hide Easy, WithoutCol, ColRows;
    var core: Rows :| CoreOf(rows, core) && Easy(core);
    CoreDominated(rows, core, p, q);
    EasyWithout(core, p, q);
    KeysWithout(rows, p, q);
    KeysWithout(core, p, q);
    WithoutCore(rows, core, WithoutCol(rows, p), WithoutCol(core, p), p);
  }

  lemma CoreDominated(rows: Rows, core: Rows, p: nat, q: nat)
    requires CoreOf(rows, core) && ColRows(rows, p) <= ColRows(rows, q) && forall i :: i in rows ==> rows[i] != {}
    ensures ColRows(core, p) <= ColRows(core, q) && forall k :: k in core ==> core[k] != {}
  {
    forall k | k in core
      ensures core[k] != {} && (p in core[k] ==> q in core[k])
    {
      var i :| i in rows && rows[i] == core[k];
      assert i in ColRows(rows, p) ==> i in ColRows(rows, q);
    }
  }

  lemma WithoutCore(rows: Rows, core: Rows, r: Rows, c: Rows, p: nat)
    requires CoreOf(rows, core) && r.Keys == rows.Keys && c.Keys == core.Keys
    requires (forall i :: i in r ==> r[i] == rows[i] - {p}) && forall k :: k in c ==> c[k] == core[k] - {p}
    ensures CoreOf(r, c)
  {
    hide HasRow, HoldsRow;
    forall k | k in c
      ensures HasRow(r, c[k])
    {
      var i := RowFound(rows, core[k]);
      HasNow(r, i);
    }
    forall i | i in r
      ensures HoldsRow(c, r[i])
    {
      var k := RowHeld(core, rows[i]);
      HoldsNow(c, r[i], k);
    }
  }

  /** r1 keeps some of the rows, and for what lies inside one of those, something inside
      that. */
  ghost predicate Floor(r0: Rows, r1: Rows) {
    && SomeRows(r0, r1)
    && forall i, j :: i in r1 && j in r0 && r0[j] <= r0[i] ==> HoldsRow(r1, r0[j])
  }

  lemma FloorSelf(rows: Rows)
    ensures Floor(rows, rows)
  {
    forall j | j in rows
      ensures HoldsRow(rows, rows[j])
    {
      assert rows[j] <= rows[j];
    }
  }

  lemma FloorTrans(r0: Rows, r1: Rows, r2: Rows)
    requires Floor(r0, r1) && Floor(r1, r2)
    ensures Floor(r0, r2)
  {
    hide HoldsRow;
    forall i, j | i in r2 && j in r0 && r0[j] <= r0[i]
      ensures HoldsRow(r2, r0[j])
    {
      var k := RowHeld(r1, r0[j]);
      var n := RowHeld(r2, r1[k]);
      HoldsNow(r2, r0[j], n);
    }
  }

  lemma FloorDelete(rows: Rows, i: nat, k: nat)
    requires i in rows && k in rows && i != k && rows[i] <= rows[k]
    ensures Floor(rows, rows - {k})
  {
    var r := rows - {k};
    forall j | j in rows
      ensures HoldsRow(r, rows[j])
    {
      var n := if j == k then i else j;
      assert n in r && r[n] <= rows[j];
    }
  }

  lemma FloorUncovered(rows: Rows, c: nat)
    ensures Floor(rows, Uncovered(rows, c))
  {
    var r := Uncovered(rows, c);
    forall i, j | i in r && j in rows && rows[j] <= rows[i]
      ensures HoldsRow(r, rows[j])
    {
      assert j in r && r[j] <= rows[j];
    }
  }

  lemma CoreFloor(r0: Rows, r1: Rows)
    requires EasyCore(r0) && Floor(r0, r1)
    ensures EasyCore(r1)
  {
    hide Easy, HoldsRow, HasRow;
    var core: Rows :| CoreOf(r0, core) && Easy(core);
    var c := map k | k in core && HasRow(r1, core[k]) :: core[k];
    EasySome(core, c);
    forall i | i in r1
      ensures HoldsRow(c, r1[i])
    {
      var k0 := RowHeld(core, r0[i]);
      var k := Lowest(r0, r1, core, i, k0);
      HoldsNow(c, r1[i], k);
    }
    assert CoreOf(r1, c);
  }

  /** Below a row of the core that is gone lies one that is left. */
  lemma {:induction false} Lowest(r0: Rows, r1: Rows, core: Rows, i: nat, k0: nat) returns (k: nat)
    requires CoreOf(r0, core) && Floor(r0, r1) && i in r1 && k0 in core && core[k0] <= r0[i]
    ensures k in core && HasRow(r1, core[k]) && core[k] <= r0[i]
    decreases |core[k0]|
  {
    hide HoldsRow, HasRow;
    var j := RowFound(r0, core[k0]);
    var n := RowHeld(r1, r0[j]);
    if r1[n] == core[k0] {
      assert HasRow(r1, core[k0]) by { HasNow(r1, n); }
      k := k0;
    } else {
      var k1 := RowHeld(core, r0[n]);
      ProperCard(core[k1], core[k0]);
      k := Lowest(r0, r1, core, i, k1);
    }
  }

  lemma ProperCard(a: set<nat>, b: set<nat>)
    requires a < b
    ensures |a| < |b|
  {
    var x :| x in b && x !in a;
    SubsetCard(a, b - {x});
  }

  // ---- without rows that contain others

  /** If no row contains another one, they are the core. */
  lemma CoreAlone(rows: Rows)
    requires EasyCore(rows) && forall i, k :: i in rows && k in rows && i != k ==> !(rows[i] <= rows[k])
    ensures Easy(rows)
  {
    hide Easy;
    var core: Rows :| CoreOf(rows, core) && Easy(core);
    forall i | i in rows
      ensures HasRow(core, rows[i])
    {
      assert HoldsRow(core, rows[i]);
      var k :| k in core && core[k] <= rows[i];
      assert HasRow(rows, core[k]);
      var j :| j in rows && rows[j] == core[k];
      assert j == i;
    }
    var name := map i | i in rows :: NameOf(core, rows[i]);
    RenamedEasy(rows, core, name);
  }

  ghost function NameOf(core: Rows, row: set<nat>): (k: nat)
    requires HasRow(core, row)
    ensures k in core && core[k] == row
  {
    var k :| k in core && core[k] == row;
    k
  }

  /** Other numbers for the rows change nothing. */
  lemma RenamedEasy(rows: Rows, core: Rows, name: map<nat, nat>)
    requires Easy(core) && name.Keys == rows.Keys
    requires forall i :: i in rows ==> name[i] in core && core[name[i]] == rows[i]
    requires forall i, j :: i in rows && j in rows && i != j ==> name[i] != name[j]
    ensures Easy(rows)
  {
    hide ThinRow, StarsOf;
    var f: map<nat, nat> :| EasyBy(core, f);
    var g := map i | i in rows && name[i] in f :: f[name[i]];
    assert StarsOf(rows, g) by { RenamedStars(rows, core, name, f, g); }
    forall i | i in rows && i !in g
      ensures ThinRow(rows, i)
    {
      RenamedThin(rows, core, name, i);
    }
    assert EasyBy(rows, g);
  }

  lemma RenamedStars(rows: Rows, core: Rows, name: map<nat, nat>, f: map<nat, nat>, g: map<nat, nat>)
    requires StarsOf(core, f) && name.Keys == rows.Keys
    requires forall i :: i in rows ==> name[i] in core && core[name[i]] == rows[i]
    requires g == map i | i in rows && name[i] in f :: f[name[i]]
    ensures StarsOf(rows, g)
  {
    hide Intersects;
  }

  lemma RenamedThin(rows: Rows, core: Rows, name: map<nat, nat>, i: nat)
    requires name.Keys == rows.Keys && i in rows
    requires forall j :: j in rows ==> name[j] in core && core[name[j]] == rows[j]
    requires forall j, k :: j in rows && k in rows && j != k ==> name[j] != name[k]
    requires ThinRow(core, name[i])
    ensures ThinRow(rows, i)
  {
    forall c | c in rows[i]
      ensures |ColRows(rows, c)| <= 2
    {
      Renamed(ColRows(rows, c), ColRows(core, c), name);
    }
  }

  lemma {:induction false} Renamed(a: set<nat>, b: set<nat>, name: map<nat, nat>)
    requires (forall i :: i in a ==> i in name && name[i] in b)
    requires forall i, j :: i in a && j in a && i != j ==> name[i] != name[j]
    ensures |a| <= |b|
    decreases |a|
  {
    if a != {} {
      var i := Member(a);
      Renamed(a - {i}, b - {name[i]}, name);
    }
  }
}
