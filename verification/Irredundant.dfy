/** The irredundant step: keep the relatively essential cubes and choose among
    the partially redundant ones by a covering table. */
module Irredundant {
  import opened Cubes
  import opened Counting
  import opened CubeLists
  import opened Tautology
  import opened FindTautology
  import opened Families
  import opened Covering
  import Cores
  import SparseMatrix
  import Dominance
  import Stars
  import Mincov

  // ---- the lists of the step: a cube keeps its number in F as its identity

  ghost predicate Numbers(F: Cover, idx: seq<nat>) {
    && (forall i :: 0 <= i < |idx| ==> idx[i] < |F|)
    && (forall i, j :: 0 <= i < j < |idx| ==> idx[i] != idx[j])
  }

  lemma NumbersSnoc(F: Cover, idx: seq<nat>, k: nat)
    requires Numbers(F, idx) && k < |F| && k !in idx
    ensures Numbers(F, idx + [k])
  {
    forall i | 0 <= i < |idx|
      ensures idx[i] != k
    {
      assert idx[i] in idx;
    }
  }

  function ItemsAt(F: Cover, idx: seq<nat>): (r: seq<Item>)
    requires forall i :: 0 <= i < |idx| ==> idx[i] < |F|
    ensures |r| == |idx|
    ensures forall i :: 0 <= i < |idx| ==> r[i] == Item(F[idx[i]].cube, idx[i])
  {
    seq(|idx|, i requires 0 <= i < |idx| => Item(F[idx[i]].cube, idx[i]))
  }

  /** The don't care cubes, and the numbered cubes of F. */
  function ListAt(F: Cover, D: Cover, idx: seq<nat>): CubeList
    requires forall i :: 0 <= i < |idx| ==> idx[i] < |F|
  {
    CubeList({}, Items(D, |F|) + ItemsAt(F, idx))
  }

  lemma ListAtItem(F: Cover, D: Cover, idx: seq<nat>, it: Item)
    requires Numbers(F, idx)
    ensures it in ListAt(F, D, idx).items <==>
      ((exists j :: 0 <= j < |D| && it == Item(D[j].cube, |F| + j))
          || (it.id in idx && it == Item(F[it.id].cube, it.id)))
  {
    var items := ListAt(F, D, idx).items;
    if it in items {
      var n :| 0 <= n < |items| && items[n] == it;
      if n >= |D| {
        assert idx[n - |D|] in idx;
      }
    }
    if j :| 0 <= j < |D| && it == Item(D[j].cube, |F| + j) {
      assert items[j] == it;
    }
    if it.id in idx && it == Item(F[it.id].cube, it.id) {
      var i :| 0 <= i < |idx| && idx[i] == it.id;
      assert items[|D| + i] == it;
    }
  }

  lemma ListAtItems(F: Cover, D: Cover, idx: seq<nat>)
    requires Numbers(F, idx)
    ensures forall it :: it in ListAt(F, D, idx).items <==>
      ((exists j :: 0 <= j < |D| && it == Item(D[j].cube, |F| + j))
          || (it.id in idx && it == Item(F[it.id].cube, it.id)))
  {
    hide ListAt;
    forall it
      ensures it in ListAt(F, D, idx).items <==>
        ((exists j :: 0 <= j < |D| && it == Item(D[j].cube, |F| + j))
            || (it.id in idx && it == Item(F[it.id].cube, it.id)))
    {
      ListAtItem(F, D, idx, it);
    }
  }

  lemma ListAtValid(s: Space, F: Cover, D: Cover, idx: seq<nat>)
    requires Numbers(F, idx) && Valid(s, F) && Valid(s, D)
    ensures forall it :: it in ListAt(F, D, idx).items ==> it.cube <= Full(s)
  {
    hide Full, ListAt;
    ListAtItems(F, D, idx);
  }

  /** The relatively essential or don't care cubes cover m. */
  ghost predicate Fixed(F: Cover, D: Cover, e: seq<nat>, m: Minterm) {
    Has(D, m) || exists i :: i in e && i < |F| && In(m, F[i].cube)
  }

  lemma ListAtOthers(F: Cover, D: Cover, idx: seq<nat>, k: int, m: Minterm)
    requires Numbers(F, idx)
    ensures OtherCovers(ListAt(F, D, idx), k, m) <==>
      ((exists j :: 0 <= j < |D| && |F| + j != k && In(m, D[j].cube))
          || (exists i :: i in idx && i != k && In(m, F[i].cube)))
  {
    hide ListAt, In;
    ListAtItems(F, D, idx);
    var T := ListAt(F, D, idx);
    if j :| 0 <= j < |D| && |F| + j != k && In(m, D[j].cube) {
      assert Item(D[j].cube, |F| + j) in T.items;
    }
    if i :| i in idx && i != k && In(m, F[i].cube) {
      assert Item(F[i].cube, i) in T.items;
    }
  }

  // ---- splitting F into E, Rt and Rp

  /** Every other cube together covers the k-th one. */
  ghost predicate Redundant(s: Space, F: Cover, D: Cover, k: nat)
    requires k < |F|
  {
    NonVoid(s, F[k].cube) && forall m :: IsMinterm(s, m) && In(m, F[k].cube) ==> HasOther(F, D, k, m)
  }

  /** The relatively essential cubes cover the k-th one, with the don't cares. */
  ghost predicate FullyFixed(s: Space, F: Cover, D: Cover, e: seq<nat>, k: nat)
    requires k < |F|
  {
    NonVoid(s, F[k].cube) && forall m :: IsMinterm(s, m) && In(m, F[k].cube) ==> Fixed(F, D, e, m)
  }

  /** The relatively essential cubes, the totally redundant ones, and the
      partially redundant ones, by number. */
  ghost predicate SplitCover(s: Space, F: Cover, D: Cover, e: seq<nat>, rt: seq<nat>, rp: seq<nat>) {
    && Numbers(F, e) && Numbers(F, rt) && Numbers(F, rp)
    && (forall k :: 0 <= k < |F| ==> (k in e <==> !Redundant(s, F, D, k)))
    && (forall k :: 0 <= k < |F| ==> (k in rt <==> Redundant(s, F, D, k) && FullyFixed(s, F, D, e, k)))
    && (forall k :: 0 <= k < |F| ==> (k in rp <==> Redundant(s, F, D, k) && !FullyFixed(s, F, D, e, k)))
  }

  method FindEssential(s: Space, F: Cover, D: Cover) returns (e: seq<nat>, r: seq<nat>)
    requires Valid(s, F) && Valid(s, D)
    ensures Numbers(F, e) && Numbers(F, r)
    ensures forall k :: 0 <= k < |F| ==> (k in e <==> !Redundant(s, F, D, k)) && (k in r <==> Redundant(s, F, D, k))
  {
    hide Redundant, NonVoid, Full, Cube2List;
    e, r := [], [];
    var k := 0;
    Cube2ListValid(s, F, D);
    while k < |F|
      invariant 0 <= k <= |F|
      invariant Numbers(F, e) && Numbers(F, r)
      invariant forall i :: i in e ==> i < k
      invariant forall i :: i in r ==> i < k
      invariant forall i :: 0 <= i < k ==> (i in e <==> !Redundant(s, F, D, i)) && (i in r <==> Redundant(s, F, D, i))
    {
      ValidAt(s, F, k);
      assert Cube2List(F, D).cof == {} by { Cube2ListCof(F, D); }
      var covered := CubeIsCovered(s, Cube2List(F, D), F[k].cube, k);
      CoveredIsRedundant(s, F, D, k, covered);
      if covered {
        NumbersSnoc(F, r, k);
        r := r + [k];
      } else {
        NumbersSnoc(F, e, k);
        e := e + [k];
      }
      k := k + 1;
    }
  }

  lemma Cube2ListCof(F: Cover, D: Cover)
    ensures Cube2List(F, D).cof == {}
  {
  }

  lemma CoveredIsRedundant(s: Space, F: Cover, D: Cover, k: nat, covered: bool)
    requires k < |F|
    requires covered <==> (NonVoid(s, F[k].cube)
               && forall m :: IsMinterm(s, m) && In(m, F[k].cube) ==> OtherCovers(Cube2List(F, D), k, m))
    ensures covered <==> Redundant(s, F, D, k)
  {
    hide NonVoid, Cube2List, OtherCovers, HasOther;
    forall m
      ensures OtherCovers(Cube2List(F, D), k, m) <==> HasOther(F, D, k, m)
    {
      Cube2ListOthers(F, D, k, m);
    }
  }

  method SplitRedundant(s: Space, F: Cover, D: Cover, e: seq<nat>, r: seq<nat>) returns (rt: seq<nat>, rp: seq<nat>)
    requires Valid(s, F) && Valid(s, D) && Numbers(F, e) && Numbers(F, r)
    ensures Numbers(F, rt) && Numbers(F, rp)
    ensures forall k :: 0 <= k < |F| ==> (k in rt <==> k in r && FullyFixed(s, F, D, e, k))
    ensures forall k :: 0 <= k < |F| ==> (k in rp <==> k in r && !FullyFixed(s, F, D, e, k))
  {
    hide FullyFixed, NonVoid, Full, ListAt;
    rt, rp := [], [];
    ListAtValid(s, F, D, e);
    ListAtCof(F, D, e);
    var i := 0;
    while i < |r|
      invariant 0 <= i <= |r|
      invariant Numbers(F, rt) && Numbers(F, rp)
      invariant forall k :: k in rt <==> k in r[..i] && FullyFixed(s, F, D, e, k)
      invariant forall k :: k in rp <==> k in r[..i] && !FullyFixed(s, F, D, e, k)
    {
      assert r[..i + 1] == r[..i] + [r[i]];
      var k := r[i];
      ValidAt(s, F, k);
      assert k !in r[..i];
      var covered := CubeIsCovered(s, ListAt(F, D, e), F[k].cube, -1);
      CoveredIsFixed(s, F, D, e, k, covered);
      if covered {
        NumbersSnoc(F, rt, k);
        rt := rt + [k];
      } else {
        NumbersSnoc(F, rp, k);
        rp := rp + [k];
      }
      i := i + 1;
    }
    assert r[..i] == r;
  }

  lemma ListAtCof(F: Cover, D: Cover, e: seq<nat>)
    requires Numbers(F, e)
    ensures ListAt(F, D, e).cof == {}
  {
  }

  lemma CoveredIsFixed(s: Space, F: Cover, D: Cover, e: seq<nat>, k: nat, covered: bool)
    requires k < |F| && Numbers(F, e)
    requires covered <==> (NonVoid(s, F[k].cube)
               && forall m :: IsMinterm(s, m) && In(m, F[k].cube) ==> OtherCovers(ListAt(F, D, e), -1, m))
    ensures covered <==> FullyFixed(s, F, D, e, k)
  {
    hide NonVoid, ListAt, OtherCovers, In;
    forall m
      ensures OtherCovers(ListAt(F, D, e), -1, m) <==> Fixed(F, D, e, m)
    {
      ListAtOthers(F, D, e, -1, m);
    }
  }

  method IrredSplitCover(s: Space, F: Cover, D: Cover) returns (e: seq<nat>, rt: seq<nat>, rp: seq<nat>)
    requires Valid(s, F) && Valid(s, D)
    ensures SplitCover(s, F, D, e, rt, rp)
  {
    hide Redundant, FullyFixed;
    var r;
    e, r := FindEssential(s, F, D);
    rt, rp := SplitRedundant(s, F, D, e, r);
  }

  // ---- the covering table

  /** Every cube of the row is partially redundant and holds m. */
  ghost predicate Choice(F: Cover, rp: seq<nat>, r: Row, m: Minterm) {
    r != {} && forall j :: j in r ==> j in rp && j < |F| && In(m, F[j].cube)
  }

  /** m needs a choice: a partially redundant cube numbered in done holds it, and
      neither the essential nor the don't care cubes do. */
  ghost predicate Open(s: Space, F: Cover, D: Cover, e: seq<nat>, done: seq<nat>, m: Minterm) {
    IsMinterm(s, m) && !Fixed(F, D, e, m) && exists k :: k in done && k < |F| && In(m, F[k].cube)
  }

  /** Every partially redundant cube that holds m is in the row. */
  ghost predicate Forces(F: Cover, rp: seq<nat>, r: Row, m: Minterm) {
    forall j :: j in rp && j < |F| && In(m, F[j].cube) ==> j in r
  }

  /** The rows g say exactly which choices cover the cubes numbered in done. */
  ghost predicate TableFor(s: Space, F: Cover, D: Cover, e: seq<nat>, rp: seq<nat>, done: seq<nat>, g: set<Row>) {
    && (forall m :: Open(s, F, D, e, done, m) ==> exists r :: r in g && Choice(F, rp, r, m))
    && (forall r :: r in g ==> r != {} && forall j :: j in r ==> j in rp)
    && (forall r :: r in g ==> exists m :: Open(s, F, D, e, rp, m) && Forces(F, rp, r, m))
  }

  /** The table holds rows of g, and is hit by the same sets as all of g. */
  ghost predicate SameHits(table: Covering.Rows, g: set<Row>) {
    && (forall i :: i in table ==> table[i] in g)
    && forall x :: Hits(table, x) ==> forall r :: r in g ==> Intersects(r, x)
  }

  /** The selection x holds every open minterm. */
  ghost predicate Closes(s: Space, F: Cover, D: Cover, e: seq<nat>, rp: seq<nat>, x: set<nat>) {
    forall m :: Open(s, F, D, e, rp, m) ==> exists j :: j in x && j < |F| && In(m, F[j].cube)
  }

  /** The selection covers every open minterm exactly when it hits the table. */
  lemma TableExact(s: Space, F: Cover, D: Cover, e: seq<nat>, rp: seq<nat>, g: set<Row>, table: Covering.Rows,
      x: set<nat>)
    requires TableFor(s, F, D, e, rp, rp, g) && SameHits(table, g)
    requires forall j :: j in x ==> j in rp && j < |F|
    ensures Hits(table, x) <==> Closes(s, F, D, e, rp, x)
  {
    hide TableFor, SameHits, Hits, Closes;
    if Hits(table, x) {
      HitsCloses(s, F, D, e, rp, g, table, x);
    }
    if Closes(s, F, D, e, rp, x) {
      ClosesHits(s, F, D, e, rp, g, table, x);
    }
  }

  lemma HitsCloses(s: Space, F: Cover, D: Cover, e: seq<nat>, rp: seq<nat>, g: set<Row>, table: Covering.Rows,
      x: set<nat>)
    requires TableFor(s, F, D, e, rp, rp, g) && SameHits(table, g) && Hits(table, x)
    ensures Closes(s, F, D, e, rp, x)
  {
    hide Open, In, TableFor, SameHits, Hits, Intersects;
    forall m | Open(s, F, D, e, rp, m)
      ensures exists j :: j in x && j < |F| && In(m, F[j].cube)
    {
      var r := ChosenRow(s, F, D, e, rp, rp, g, m);
      var j := HitRow(table, g, x, r);
    }
  }

  lemma ChosenRow(s: Space, F: Cover, D: Cover, e: seq<nat>, rp: seq<nat>, done: seq<nat>, g: set<Row>, m: Minterm)
      returns (r: Row)
    requires TableFor(s, F, D, e, rp, done, g) && Open(s, F, D, e, done, m)
    ensures r in g && Choice(F, rp, r, m)
  {
    r :| r in g && Choice(F, rp, r, m);
  }

  lemma HitRow(table: Covering.Rows, g: set<Row>, x: set<nat>, r: Row) returns (j: nat)
    requires SameHits(table, g) && Hits(table, x) && r in g
    ensures j in r && j in x
  {
    assert Intersects(r, x);
    j := Member(r * x);
  }

  lemma ForcedMinterm(s: Space, F: Cover, D: Cover, e: seq<nat>, rp: seq<nat>, done: seq<nat>, g: set<Row>, r: Row)
      returns (m: Minterm)
    requires TableFor(s, F, D, e, rp, done, g) && r in g
    ensures Open(s, F, D, e, rp, m) && Forces(F, rp, r, m)
  {
    m :| Open(s, F, D, e, rp, m) && Forces(F, rp, r, m);
  }

  lemma ClosesHits(s: Space, F: Cover, D: Cover, e: seq<nat>, rp: seq<nat>, g: set<Row>, table: Covering.Rows,
      x: set<nat>)
    requires TableFor(s, F, D, e, rp, rp, g) && SameHits(table, g) && Closes(s, F, D, e, rp, x)
    requires forall j :: j in x ==> j in rp && j < |F|
    ensures Hits(table, x)
  {
    hide Open, In, TableFor, SameHits;
    forall i | i in table
      ensures Intersects(table[i], x)
    {
      SameHitsRow(table, g, i);
      var m := ForcedMinterm(s, F, D, e, rp, rp, g, table[i]);
      var j :| j in x && j < |F| && In(m, F[j].cube);
      assert j in table[i] * x;
    }
  }

  lemma SameHitsRow(table: Covering.Rows, g: set<Row>, i: nat)
    requires SameHits(table, g) && i in table
    ensures table[i] in g
  {
  }

  /** The redundancy flags: the cubes of rp from position i on are still marked. */
  function Marked(rp: seq<nat>, i: nat): set<nat>
    requires i <= |rp|
  {
    set j | j in rp[i..]
  }

  /** What the rows derived for the i-th partially redundant cube say about the
      cover. */
  lemma RowsForCube(s: Space, F: Cover, D: Cover, e: seq<nat>, rp: seq<nat>, i: nat, list: CubeList, T: CubeList,
      rows: set<Row>)
    requires Numbers(F, rp) && Numbers(F, e + rp) && i < |rp|
    requires list == ListAt(F, D, e + rp)
    requires T.items == Filter(list.items, MeetsOther(s, F[rp[i]].cube, rp[i]))
    requires forall m :: Outside(s, T.cof, m) <==> IsMinterm(s, m) && In(m, F[rp[i]].cube)
    requires Derived(s, T, Marked(rp, i), rp[i], rows)
    ensures forall m | IsMinterm(s, m) && In(m, F[rp[i]].cube) && !Fixed(F, D, e, m) ::
              (forall j :: j in rp[..i] ==> !In(m, F[j].cube)) ==> exists r :: r in rows && Choice(F, rp, r, m)
    ensures forall r :: r in rows ==> r != {} && forall j :: j in r ==> j in rp
    ensures forall r :: r in rows ==> exists m :: Open(s, F, D, e, rp, m) && Forces(F, rp, r, m)
  {
    hide Derived, ListAt, Filter, Outside, Certain, Witness, Offers, Open, Forces, Choice, Fixed, Marked;
    forall m | IsMinterm(s, m) && In(m, F[rp[i]].cube) && !Fixed(F, D, e, m)
               && (forall j :: j in rp[..i] ==> !In(m, F[j].cube))
      ensures exists r :: r in rows && Choice(F, rp, r, m)
    {
      NotCertain(s, F, D, e, rp, i, list, T, m);
      var r := DerivedOffer(s, T, Marked(rp, i), rp[i], rows, m);
      OfferIsChoice(s, F, D, e, rp, i, list, T, rows, r, m);
    }
    forall r | r in rows
      ensures r != {} && (forall j :: j in r ==> j in rp)
      ensures exists m :: Open(s, F, D, e, rp, m) && Forces(F, rp, r, m)
    {
      DerivedNames(s, T, Marked(rp, i), rp[i], rows, r);
      MarkedIn(rp, i);
      var m := DerivedWitness(s, T, Marked(rp, i), rp[i], rows, r);
      WitnessForces(s, F, D, e, rp, i, list, T, r, m);
    }
  }

  lemma MarkedIn(rp: seq<nat>, i: nat)
    requires i < |rp|
    ensures rp[i] in rp && forall j :: j in Marked(rp, i) ==> j in rp
  {
  }

  lemma DerivedOffer(s: Space, T: CubeList, redund: set<nat>, current: nat, rows: set<Row>, m: Minterm) returns (r: Row)
    requires Derived(s, T, redund, current, rows) && Outside(s, T.cof, m) && !Certain(T, redund, m)
    ensures r in rows && Offers(T, current, r, m)
  {
    r :| r in rows && Offers(T, current, r, m);
  }

  lemma DerivedWitness(s: Space, T: CubeList, redund: set<nat>, current: nat, rows: set<Row>, r: Row)
      returns (m: Minterm)
    requires Derived(s, T, redund, current, rows) && r in rows
    ensures Outside(s, T.cof, m) && Witness(T, redund, r, m)
  {
    m :| Outside(s, T.cof, m) && Witness(T, redund, r, m);
  }

  lemma DerivedNames(s: Space, T: CubeList, redund: set<nat>, current: nat, rows: set<Row>, r: Row)
    requires Derived(s, T, redund, current, rows) && r in rows
    ensures current in r && forall j :: j in r ==> j == current || j in redund
  {
  }

  lemma NotCertain(s: Space, F: Cover, D: Cover, e: seq<nat>, rp: seq<nat>, i: nat, list: CubeList, T: CubeList,
      m: Minterm)
    requires Numbers(F, rp) && Numbers(F, e + rp) && i < |rp|
    requires list == ListAt(F, D, e + rp)
    requires T.items == Filter(list.items, MeetsOther(s, F[rp[i]].cube, rp[i]))
    requires !Fixed(F, D, e, m) && (forall j :: j in rp[..i] ==> !In(m, F[j].cube))
    ensures !Certain(T, Marked(rp, i), m)
  {
    hide ListAt, In, Meets;
    ListAtItems(F, D, e + rp);
    forall it | it in T.items && it.id !in Marked(rp, i)
      ensures !In(m, it.cube)
    {
      assert it in list.items;
      if j :| 0 <= j < |D| && it == Item(D[j].cube, |F| + j) {
        assert !Has(D, m);
      } else {
        assert it.id in e || it.id in rp;
        if it.id !in e {
          Earlier(rp, i, it.id);
        }
      }
    }
  }

  lemma Earlier(rp: seq<nat>, i: nat, k: nat)
    requires i < |rp| && k in rp && k !in Marked(rp, i)
    ensures k in rp[..i]
  {
    assert rp == rp[..i] + rp[i..];
  }

  lemma OfferIsChoice(s: Space, F: Cover, D: Cover, e: seq<nat>, rp: seq<nat>, i: nat, list: CubeList, T: CubeList,
                      rows: set<Row>, r: Row, m: Minterm)
    requires Numbers(F, rp) && Numbers(F, e + rp) && i < |rp|
    requires list == ListAt(F, D, e + rp)
    requires T.items == Filter(list.items, MeetsOther(s, F[rp[i]].cube, rp[i]))
    requires Derived(s, T, Marked(rp, i), rp[i], rows) && r in rows
    requires Offers(T, rp[i], r, m) && In(m, F[rp[i]].cube)
    ensures Choice(F, rp, r, m)
  {
    hide ListAt, In, Meets, Derived, Marked;
    ListAtItems(F, D, e + rp);
    DerivedNames(s, T, Marked(rp, i), rp[i], rows, r);
    MarkedIn(rp, i);
    forall j | j in r
      ensures j in rp && j < |F| && In(m, F[j].cube)
    {
      if j != rp[i] {
        var it :| it in T.items && it.id == j && In(m, it.cube);
        assert it in list.items;
        assert j < |F|;
      }
    }
  }

  lemma WitnessForces(s: Space, F: Cover, D: Cover, e: seq<nat>, rp: seq<nat>, i: nat, list: CubeList, T: CubeList,
                      r: Row, m: Minterm)
    requires Numbers(F, rp) && Numbers(F, e + rp) && i < |rp|
    requires list == ListAt(F, D, e + rp)
    requires T.items == Filter(list.items, MeetsOther(s, F[rp[i]].cube, rp[i]))
    requires IsMinterm(s, m) && In(m, F[rp[i]].cube)
    requires rp[i] in r && Witness(T, Marked(rp, i), r, m)
    ensures Open(s, F, D, e, rp, m) && Forces(F, rp, r, m)
  {
    hide ListAt, In, Meets, Marked, Witness, Filter;
    forall it | it in list.items && it.id != rp[i]
      ensures In(m, it.cube) ==> it.id in r
      ensures it.id !in Marked(rp, i) ==> !In(m, it.cube)
    {
      WitnessItem(s, F[rp[i]].cube, rp[i], list, T, Marked(rp, i), r, m, it);
    }
    ListAtItems(F, D, e + rp);
    NoFixed(F, D, e, rp, i, list, m);
    forall j | j in rp && j < |F| && In(m, F[j].cube)
      ensures j in r
    {
      assert j in e + rp;
      assert Item(F[j].cube, j) in list.items;
    }
  }

  lemma WitnessItem(s: Space, c: Cube, self: nat, list: CubeList, T: CubeList, redund: set<nat>, r: Row, m: Minterm,
      it: Item)
    requires T.items == Filter(list.items, MeetsOther(s, c, self))
    requires IsMinterm(s, m) && In(m, c) && Witness(T, redund, r, m)
    requires it in list.items && it.id != self
    ensures In(m, it.cube) ==> it.id in r
    ensures it.id !in redund ==> !In(m, it.cube)
  {
    hide Meets;
    MeetsIffCommonMinterm(s, it.cube, c);
    assert MeetsOther(s, c, self)(it) == (it.id != self && Meets(s, it.cube, c));
  }

  lemma NoFixed(F: Cover, D: Cover, e: seq<nat>, rp: seq<nat>, i: nat, list: CubeList, m: Minterm)
    requires Numbers(F, rp) && Numbers(F, e + rp) && i < |rp|
    requires list == ListAt(F, D, e + rp)
    requires forall it :: it in list.items && it.id != rp[i] && it.id !in Marked(rp, i) ==> !In(m, it.cube)
    ensures !Fixed(F, D, e, m)
  {
    hide ListAt, In, Marked;
    ListAtItems(F, D, e + rp);
    forall j | 0 <= j < |D|
      ensures !In(m, D[j].cube)
    {
      assert Item(D[j].cube, |F| + j) in list.items;
      NotMarked(rp, i, |F| + j);
    }
    forall k | k in e && k < |F|
      ensures !In(m, F[k].cube)
    {
      Apart(e, rp, k);
      assert k in e + rp;
      assert Item(F[k].cube, k) in list.items;
      NotMarked(rp, i, k);
    }
  }

  lemma NotMarked(rp: seq<nat>, i: nat, k: nat)
    requires i < |rp| && k !in rp
    ensures k !in Marked(rp, i)
  {
  }

  lemma Apart(e: seq<nat>, rp: seq<nat>, k: nat)
    requires forall i, j :: 0 <= i < j < |e + rp| ==> (e + rp)[i] != (e + rp)[j]
    requires k in e
    ensures k !in rp
  {
    var i :| 0 <= i < |e| && e[i] == k;
    assert (e + rp)[i] == k;
    forall j | 0 <= j < |rp|
      ensures rp[j] != k
    {
      assert (e + rp)[|e| + j] == rp[j];
    }
  }

  // ---- building the table

  lemma TableStep(s: Space, F: Cover, D: Cover, e: seq<nat>, rp: seq<nat>, i: nat, g: set<Row>, rows: set<Row>)
    requires Numbers(F, rp) && i < |rp| && TableFor(s, F, D, e, rp, rp[..i], g)
    requires forall m | IsMinterm(s, m) && In(m, F[rp[i]].cube) && !Fixed(F, D, e, m) ::
               (forall j :: j in rp[..i] ==> !In(m, F[j].cube)) ==> exists r :: r in rows && Choice(F, rp, r, m)
    requires forall r :: r in rows ==> r != {} && forall j :: j in r ==> j in rp
    requires forall r :: r in rows ==> exists m :: Open(s, F, D, e, rp, m) && Forces(F, rp, r, m)
    ensures TableFor(s, F, D, e, rp, rp[..i + 1], g + rows)
  {
    hide In, Forces, Choice, Fixed;
    var done := rp[..i + 1];
    assert done == rp[..i] + [rp[i]];
    forall m | Open(s, F, D, e, done, m)
      ensures exists r :: r in g + rows && Choice(F, rp, r, m)
    {
      if Open(s, F, D, e, rp[..i], m) {
        var r := ChosenRow(s, F, D, e, rp, rp[..i], g, m);
        assert r in g + rows;
      } else {
        assert In(m, F[rp[i]].cube);
        var r :| r in rows && Choice(F, rp, r, m);
        assert r in g + rows;
      }
    }
  }

  lemma SameHitsGrow(t0: Covering.Rows, t1: Covering.Rows, g: set<Row>, rows: set<Row>)
    requires SameHits(t0, g) && Grows(t0, t1, rows)
    ensures SameHits(t1, g + rows)
  {
    hide Intersects;
    forall x | Hits(t1, x)
      ensures forall r :: r in g + rows ==> Intersects(r, x)
    {
      assert Hits(t0, x) by {
        forall i | i in t0
          ensures Intersects(t0[i], x)
        {
          assert i in t1;
        }
      }
      forall r | r in g + rows
        ensures Intersects(r, x)
      {
        if r in rows {
          var i :| i in t1 && t1[i] == r;
        }
      }
    }
  }

  /** Drop the dominated rows of the table to keep it small. */
  method ReduceTable(table: Covering.Rows, ghost g: set<Row>, cols: nat) returns (table': Covering.Rows)
    requires SameHits(table, g) && ValidRows(table, cols)
    ensures SameHits(table', g) && ValidRows(table', cols)
  {
    var n := NextRow(table);
    var A := new SparseMatrix.Matrix(table, n, cols);
    var deleted := Dominance.RowDominance(A, Unit);
    table' := A.rows;
    SameHitsReduce(table, table', g, cols);
  }

  lemma SameHitsReduce(t0: Covering.Rows, t1: Covering.Rows, g: set<Row>, n: nat)
    requires SameHits(t0, g) && Stars.SomeRows(t0, t1) && Reduces(Unit, n, t0, {}, t1)
    ensures SameHits(t1, g)
  {
    hide Hits, Covering.Within;
    forall x | Hits(t1, x)
      ensures Hits(t0, x)
    {
      assert {} + x == x;
    }
  }

  /** Add the rows for the i-th partially redundant cube. */
  method DeriveRows(s: Space, F: Cover, D: Cover, e: seq<nat>, rp: seq<nat>, i: nat, list: CubeList, redund: set<nat>,
      table: Covering.Rows, ghost g: set<Row>)
      returns (table': Covering.Rows, ghost g': set<Row>)
    requires Valid(s, F) && Valid(s, D) && Numbers(F, rp) && Numbers(F, e + rp) && i < |rp|
    requires rp[i] < |F| && NonVoid(s, F[rp[i]].cube)
    requires list == ListAt(F, D, e + rp) && redund == Marked(rp, i)
    requires TableFor(s, F, D, e, rp, rp[..i], g) && SameHits(table, g) && ValidRows(table, |F|)
    ensures TableFor(s, F, D, e, rp, rp[..i + 1], g') && SameHits(table', g') && ValidRows(table', |F|)
  {
    hide NonVoid, Full, ListAt, TableFor, SameHits, Derived, Grows, Marked, Open, Choice, Forces, Fixed, ValidRows,
      WellFormed, Live;
    ListAtValid(s, F, D, e + rp);
    ListAtCof(F, D, e + rp);
    ValidAt(s, F, rp[i]);
    var T := Cofactor(s, list, F[rp[i]].cube, rp[i]);
    CofactorMeaning(s, list, F[rp[i]].cube, rp[i], T);
    ghost var rows;
    table', rows := FTautology(s, T, redund, rp[i], table);
    RowsForCube(s, F, D, e, rp, i, list, T, rows);
    TableStep(s, F, D, e, rp, i, g, rows);
    SameHitsGrow(table, table', g, rows);
    GrownValid(F, rp, table, table', rows);
    g' := g + rows;
  }

  /** Build the table for the partially redundant cubes, one after the other.  A
      cube whose rows are in the table counts as certain from then on. */
  method IrredDeriveTable(s: Space, F: Cover, D: Cover, e: seq<nat>, rp: seq<nat>)
      returns (table: Covering.Rows, ghost g: set<Row>)
    requires Valid(s, F) && Valid(s, D) && Numbers(F, rp) && Numbers(F, e + rp)
    requires forall k :: k in rp ==> k < |F| && NonVoid(s, F[k].cube)
    ensures TableFor(s, F, D, e, rp, rp, g) && SameHits(table, g) && ValidRows(table, |F|)
  {
    hide NonVoid, Valid, ListAt, TableFor, SameHits, Marked, ValidRows;
    table, g := map[], {};
    var list := ListAt(F, D, e + rp);
    TableStart(s, F, D, e, rp);
    var redund := Marked(rp, 0);
    var sizeLastDominance := 0;
    var i := 0;
    while i < |rp|
      invariant 0 <= i <= |rp| && redund == Marked(rp, i)
      invariant TableFor(s, F, D, e, rp, rp[..i], g) && SameHits(table, g) && ValidRows(table, |F|)
    {
      assert rp[i] in rp;
      table, g := DeriveRows(s, F, D, e, rp, i, list, redund, table, g);
      MarkedStep(F, rp, i);
      redund := redund - {rp[i]};
      if |table| - sizeLastDominance > 1000 {
        table := ReduceTable(table, g, |F|);
        sizeLastDominance := |table|;
      }
      i := i + 1;
    }
    assert rp[..i] == rp;
  }

  lemma TableStart(s: Space, F: Cover, D: Cover, e: seq<nat>, rp: seq<nat>)
    ensures TableFor(s, F, D, e, rp, rp[..0], {}) && SameHits(map[], {}) && ValidRows(map[], |F|)
  {
  }

  lemma GrownValid(F: Cover, rp: seq<nat>, t0: Covering.Rows, t1: Covering.Rows, rows: set<Row>)
    requires ValidRows(t0, |F|) && Grows(t0, t1, rows) && Numbers(F, rp)
    requires forall r :: r in rows ==> r != {} && forall j :: j in r ==> j in rp
    ensures ValidRows(t1, |F|)
  {
  }

  lemma MarkedStep(F: Cover, rp: seq<nat>, i: nat)
    requires Numbers(F, rp) && i < |rp|
    ensures Marked(rp, i + 1) == Marked(rp, i) - {rp[i]}
  {
    var rest := rp[i + 1..];
    assert rp[i..] == [rp[i]] + rest;
    forall j | j in rest
      ensures j != rp[i]
    {
      var k :| 0 <= k < |rest| && rest[k] == j;
      assert rp[i + 1 + k] == j;
    }
  }

  // ---- the result

  /** The cubes still active in G, with the don't cares, cover m. */
  ghost predicate Kept(G: Cover, D: Cover, m: Minterm) {
    Has(D, m) || exists i :: 0 <= i < |G| && G[i].active && In(m, G[i].cube)
  }

  /** The relatively essential cubes of G, with the don't cares, cover m. */
  ghost predicate EssenCovers(G: Cover, D: Cover, m: Minterm) {
    Has(D, m) || exists i :: 0 <= i < |G| && G[i].relEssen && In(m, G[i].cube)
  }

  /** The i-th cube holds a minterm that the relatively essential ones leave open. */
  ghost predicate Needed(s: Space, F: Cover, D: Cover, G: Cover, i: nat)
    requires i < |F|
  {
    exists m :: IsMinterm(s, m) && In(m, F[i].cube) && !EssenCovers(G, D, m)
  }

  /** The c-th cube holds all minterms of F that the relatively essential ones leave
      open. */
  ghost predicate ClosesAlone(s: Space, F: Cover, D: Cover, G: Cover, c: nat)
    requires c < |F|
  {
    forall m :: IsMinterm(s, m) && Has(F, m) && !EssenCovers(G, D, m) ==> In(m, F[c].cube)
  }

  /** The relatively essential cubes leave the minterm of F open. */
  ghost predicate LeftOpen(s: Space, F: Cover, D: Cover, G: Cover, m: Minterm) {
    IsMinterm(s, m) && Has(F, m) && !EssenCovers(G, D, m)
  }

  /** Every cube numbered in the row holds m. */
  ghost predicate AllHold(F: Cover, row: set<nat>, m: Minterm) {
    forall j :: j in row ==> j < |F| && In(m, F[j].cube)
  }

  /** Every cube that holds m is numbered in the row. */
  ghost predicate HoldersIn(F: Cover, row: set<nat>, m: Minterm) {
    forall j :: 0 <= j < |F| && In(m, F[j].cube) ==> j in row
  }

  /** The row numbers the cubes that hold some minterm left open. */
  ghost predicate OpenRow(s: Space, F: Cover, D: Cover, G: Cover, row: set<nat>) {
    exists m :: LeftOpen(s, F, D, G, m) && AllHold(F, row, m) && HoldersIn(F, row, m)
  }

  ghost predicate CoreHolds(F: Cover, core: Covering.Rows, m: Minterm) {
    exists k :: k in core && AllHold(F, core[k], m)
  }

  /** The rows are the least sets of cubes that hold a minterm left open. */
  ghost predicate OpenCore(s: Space, F: Cover, D: Cover, G: Cover, core: Covering.Rows) {
    && (forall k :: k in core ==> OpenRow(s, F, D, G, core[k]))
    && (forall m :: LeftOpen(s, F, D, G, m) ==> CoreHolds(F, core, m))
    && Cores.NoneInside(core)
  }

  /** The cubes numbered in x hold everything left open. */
  ghost predicate ClosesAll(s: Space, F: Cover, D: Cover, G: Cover, x: set<nat>) {
    forall m :: LeftOpen(s, F, D, G, m) ==> exists j :: j in x && j < |F| && In(m, F[j].cube)
  }

  /** The cubes kept that are not relatively essential. */
  ghost function ChosenOnes(G: Cover): (r: set<nat>)
    ensures forall i: nat :: i in r <==> i < |G| && G[i].active && !G[i].relEssen
  {
    set i: nat | i < |G| && G[i].active && !G[i].relEssen
  }

  /** As few cubes as possible were chosen, if the least sets make up stars, paths and
      cycles. */
  ghost predicate FewestChosen(s: Space, F: Cover, D: Cover, G: Cover) {
    forall core, x :: OpenCore(s, F, D, G, core) && Stars.Easy(core) && ClosesAll(s, F, D, G, x) ==>
      |ChosenOnes(G)| <= |x|
  }

  /** The cubes of F with the marks of those to keep.  A cube is relatively essential
      exactly when the others do not cover it, and then it is kept; a cube that the
      relatively essential ones cover is not; what is kept covers all of F; if one
      cube is enough beside the relatively essential ones, no more is kept, and in
      the easy cases no more than necessary. */
  ghost predicate MarksOf(s: Space, F: Cover, D: Cover, G: Cover) {
    && |G| == |F|
    && (forall i :: 0 <= i < |F| ==> G[i] == F[i].(active := G[i].active, relEssen := G[i].relEssen))
    && (forall i :: 0 <= i < |F| ==> (G[i].relEssen <==> !Redundant(s, F, D, i)))
    && (forall i :: 0 <= i < |F| && G[i].relEssen ==> G[i].active)
    && (forall i :: 0 <= i < |F| && G[i].active && !G[i].relEssen ==> Needed(s, F, D, G, i))
    && (forall m :: IsMinterm(s, m) && Has(F, m) ==> Kept(G, D, m))
    && (forall c :: 0 <= c < |F| && ClosesAlone(s, F, D, G, c) ==> AtMostOne(G))
    && FewestChosen(s, F, D, G)
  }

  /** At most one cube is kept that is not relatively essential. */
  ghost predicate AtMostOne(G: Cover) {
    forall i, j :: 0 <= i < |G| && 0 <= j < |G| && G[i].active && !G[i].relEssen && G[j].active && !G[j].relEssen ==>
      i == j
  }

  /** Mark the cubes to keep. */
  method MarkIrredundant(s: Space, F: Cover, D: Cover) returns (G: Cover)
    requires Valid(s, F) && Valid(s, D)
    ensures MarksOf(s, F, D, G)
  {
    hide Redundant, FullyFixed, NonVoid, Full, TableFor, SameHits, ValidRows, Hits, Cols, Mincov.IsMinimum, Needed,
      ClosesAlone, AtMostOne, Stars.Centred, Cores.EasyCore, Cores.CoreOf, Closes, Kept, SplitCover, OpenCore,
      ClosesAll;
    var e, rt, rp := IrredSplitCover(s, F, D);
    SplitNumbers(s, F, D, e, rt, rp);
    var table, g := IrredDeriveTable(s, F, D, e, rp);
    var n := NextRow(table);
    var A := new SparseMatrix.Matrix(table, n, |F|);
    var cover := Mincov.MinimumCover(A, Unit, true);
    G := MarkAll(F, e, cover);
    TableRows(s, F, D, e, rp, g);
    TableCols(F, rp, table, g, cover);
    TableExact(s, F, D, e, rp, g, table, cover);
    MarkedKeeps(s, F, D, e, rt, rp, cover, G);
    MarkedReason(s, F, D, e, rt, rp, cover, G);
    SplitEssential(s, F, D, e, rt, rp);
    forall c | 0 <= c < |F| && ClosesAlone(s, F, D, G, c)
      ensures AtMostOne(G)
    {
      OneEnough(s, F, D, e, rt, rp, g, table, cover, G, c);
    }
    forall core: Covering.Rows, x | OpenCore(s, F, D, G, core) && Stars.Easy(core) && ClosesAll(s, F, D, G, x)
      ensures |ChosenOnes(G)| <= |x|
    {
      FewEnough(s, F, D, e, rt, rp, g, table, cover, G, core, x);
    }
  }

  /** G marks the relatively essential cubes, and the table describes what they leave
      open. */
  ghost predicate Tabled(s: Space, F: Cover, D: Cover, e: seq<nat>, rt: seq<nat>, rp: seq<nat>, g: set<Row>,
      table: Covering.Rows, G: Cover) {
    && SplitCover(s, F, D, e, rt, rp) && TableFor(s, F, D, e, rp, rp, g) && SameHits(table, g)
    && |G| == |F| && forall k :: 0 <= k < |F| ==> G[k].cube == F[k].cube && (G[k].relEssen <==> k in e)
  }

  /** The least sets are the core of the table: */
  lemma OpenIsCore(s: Space, F: Cover, D: Cover, e: seq<nat>, rt: seq<nat>, rp: seq<nat>, g: set<Row>,
      table: Covering.Rows, G: Cover, core: Covering.Rows)
    requires Tabled(s, F, D, e, rt, rp, g, table, G) && OpenCore(s, F, D, G, core)
    ensures Cores.CoreOf(table, core)
  {
    hide Tabled, OpenRow, CoreHolds, Cores.HasRow, Cores.HoldsRow, Cores.NoneInside, LeftOpen, AllHold, HoldersIn;
    forall i | i in table
      ensures Cores.HoldsRow(core, table[i])
    {
      var m := RowHolders(s, F, D, e, rt, rp, g, table, G, i);
      var k := CoreInside(F, core, m, table[i]);
      Cores.HoldsNow(core, table[i], k);
    }
    forall k | k in core
      ensures Cores.HasRow(table, core[k])
    {
      var m := OpenMinterm(s, F, D, G, core[k]);
      var i := RowInside(s, F, D, e, rt, rp, g, table, G, m);
      RowWithin(F, table[i], core[k], m);
      var m1 := RowHolders(s, F, D, e, rt, rp, g, table, G, i);
      var n := CoreInside(F, core, m1, table[i]);
      assert core[n] <= core[k];
      Cores.InsideSame(core, n, k);
      assert table[i] == core[k];
      Cores.HasNow(table, i);
    }
  }

  lemma OpenMinterm(s: Space, F: Cover, D: Cover, G: Cover, row: set<nat>) returns (m: Minterm)
    requires OpenRow(s, F, D, G, row)
    ensures LeftOpen(s, F, D, G, m) && AllHold(F, row, m) && HoldersIn(F, row, m)
  {
    m :| LeftOpen(s, F, D, G, m) && AllHold(F, row, m) && HoldersIn(F, row, m);
  }

  lemma CoreInside(F: Cover, core: Covering.Rows, m: Minterm, row: set<nat>) returns (k: nat)
    requires CoreHolds(F, core, m) && HoldersIn(F, row, m)
    ensures k in core && core[k] <= row
  {
    hide In;
    k :| k in core && AllHold(F, core[k], m);
  }

  lemma RowWithin(F: Cover, a: set<nat>, b: set<nat>, m: Minterm)
    requires AllHold(F, a, m) && HoldersIn(F, b, m)
    ensures a <= b
  {
    hide In;
  }

  /** every row numbers all the cubes that hold some open minterm, */
  lemma RowHolders(s: Space, F: Cover, D: Cover, e: seq<nat>, rt: seq<nat>, rp: seq<nat>, g: set<Row>,
      table: Covering.Rows, G: Cover, i: nat) returns (m: Minterm)
    requires Tabled(s, F, D, e, rt, rp, g, table, G) && i in table
    ensures LeftOpen(s, F, D, G, m) && HoldersIn(F, table[i], m)
  {
    hide TableFor, SameHits, SplitCover, In, Fixed, EssenCovers;
    SameHitsRow(table, g, i);
    m := ForcedMinterm(s, F, D, e, rp, rp, g, table[i]);
    EssenIsFixed(F, D, e, G, m);
    var k :| k in rp && k < |F| && In(m, F[k].cube);
    assert Has(F, m);
    forall j | 0 <= j < |F| && In(m, F[j].cube)
      ensures j in table[i]
    {
      InPartial(s, F, D, e, rt, rp, j, m);
    }
  }

  /** and for every open minterm some row has only cubes that hold it. */
  lemma RowInside(s: Space, F: Cover, D: Cover, e: seq<nat>, rt: seq<nat>, rp: seq<nat>, g: set<Row>,
      table: Covering.Rows, G: Cover, m: Minterm) returns (i: nat)
    requires Tabled(s, F, D, e, rt, rp, g, table, G) && LeftOpen(s, F, D, G, m)
    ensures i in table && AllHold(F, table[i], m)
  {
    hide SplitCover, TableFor, SameHits, In, Open, Choice, LeftOpen, Hits, Intersects;
    OpenAgain(s, F, D, e, rt, rp, G, m);
    var r := OpenChoice(s, F, D, e, rp, g, m);
    var x := set j: nat | j in rp && !(j < |F| && In(m, F[j].cube));
    ChoiceMisses(F, rp, r, m, x);
    i := RowMissed(table, g, r, x);
    TableRow(s, F, D, e, rp, g, table, i);
    forall j | j in table[i]
      ensures j < |F| && In(m, F[j].cube)
    {
      MissedNot(table[i], x, j);
    }
  }

  lemma OpenChoice(s: Space, F: Cover, D: Cover, e: seq<nat>, rp: seq<nat>, g: set<Row>, m: Minterm) returns (r: Row)
    requires TableFor(s, F, D, e, rp, rp, g) && Open(s, F, D, e, rp, m)
    ensures r in g && Choice(F, rp, r, m)
  {
    hide Open, Choice, Forces;
    r :| r in g && Choice(F, rp, r, m);
  }

  /** A set that misses a row of g misses a row of the table. */
  lemma RowMissed(table: Covering.Rows, g: set<Row>, r: Row, x: set<nat>) returns (i: nat)
    requires SameHits(table, g) && r in g && !Intersects(r, x)
    ensures i in table && !Intersects(table[i], x)
  {
    hide Intersects;
    assert !Hits(table, x);
    i :| i in table && !Intersects(table[i], x);
  }

  lemma TableRow(s: Space, F: Cover, D: Cover, e: seq<nat>, rp: seq<nat>, g: set<Row>, table: Covering.Rows, i: nat)
    requires TableFor(s, F, D, e, rp, rp, g) && SameHits(table, g) && i in table
    ensures forall j :: j in table[i] ==> j in rp
  {
    hide Open, Choice, Forces;
    SameHitsRow(table, g, i);
  }

  lemma MissedNot(row: set<nat>, x: set<nat>, j: nat)
    requires !Intersects(row, x) && j in row
    ensures j !in x
  {
    assert j !in row * x;
  }

  lemma ChoiceMisses(F: Cover, rp: seq<nat>, r: Row, m: Minterm, x: set<nat>)
    requires Choice(F, rp, r, m) && x == set j: nat | j in rp && !(j < |F| && In(m, F[j].cube))
    ensures !Intersects(r, x)
  {
    hide In;
    forall j | j in r
      ensures j !in x
    {
      assert j < |F| && In(m, F[j].cube);
    }
  }

  lemma OpenAgain(s: Space, F: Cover, D: Cover, e: seq<nat>, rt: seq<nat>, rp: seq<nat>, G: Cover, m: Minterm)
    requires SplitCover(s, F, D, e, rt, rp) && LeftOpen(s, F, D, G, m)
    requires |G| == |F| && forall k :: 0 <= k < |F| ==> G[k].cube == F[k].cube && (G[k].relEssen <==> k in e)
    ensures Open(s, F, D, e, rp, m)
  {
    hide SplitCover, In;
    forall i | i in e && i < |F|
      ensures !In(m, F[i].cube)
    {
      assert G[i].relEssen;
    }
    var k :| 0 <= k < |F| && In(m, F[k].cube);
    InPartial(s, F, D, e, rt, rp, k, m);
  }

  /** What closes everything meets every row, so the choice has no more cubes. */
  lemma FewEnough(s: Space, F: Cover, D: Cover, e: seq<nat>, rt: seq<nat>, rp: seq<nat>, g: set<Row>,
      table: Covering.Rows, cover: set<nat>, G: Cover, core: Covering.Rows, x: set<nat>)
    requires Tabled(s, F, D, e, rt, rp, g, table, G) && ValidRows(table, |F|) && cover <= Cols(table) && |G| == |F|
    requires forall i :: 0 <= i < |F| ==> (G[i].active <==> i in e || i in cover) && (G[i].relEssen <==> i in e)
    requires Cores.EasyCore(table) ==> Mincov.IsMinimum(Unit, |F|, table, cover)
    requires OpenCore(s, F, D, G, core) && Stars.Easy(core) && ClosesAll(s, F, D, G, x)
    ensures |ChosenOnes(G)| <= |x|
  {
    hide Tabled, OpenCore, Stars.Easy, Cores.CoreOf, LeftOpen, Cost, ClosesAll, HoldersIn, Hits, Cols, ValidRows,
      Intersects;
    OpenIsCore(s, F, D, e, rt, rp, g, table, G, core);
    assert Cores.EasyCore(table);
    var y := set j | j in x && j < |F|;
    assert Hits(table, y) by {
      ClosesHitsAll(s, F, D, e, rt, rp, g, table, G, x, y);
    }
    TableBelow(table, |F|, cover);
    assert ChosenOnes(G) <= cover;
    Stars.CostCard(cover, |F|);
    Stars.CostCard(y, |F|);
    SubsetCard(ChosenOnes(G), cover);
    SubsetCard(y, x);
  }

  lemma TableBelow(table: Covering.Rows, n: nat, cover: set<nat>)
    requires ValidRows(table, n) && cover <= Cols(table)
    ensures forall c :: c in cover ==> c < n
  {
  }

  lemma ClosesHitsAll(s: Space, F: Cover, D: Cover, e: seq<nat>, rt: seq<nat>, rp: seq<nat>, g: set<Row>,
      table: Covering.Rows, G: Cover, x: set<nat>, y: set<nat>)
    requires Tabled(s, F, D, e, rt, rp, g, table, G) && ClosesAll(s, F, D, G, x) && y == set j | j in x && j < |F|
    ensures Hits(table, y)
  {
    hide Tabled, LeftOpen, In;
    forall i | i in table
      ensures Intersects(table[i], y)
    {
      var m := RowHolders(s, F, D, e, rt, rp, g, table, G, i);
      var j :| j in x && j < |F| && In(m, F[j].cube);
      assert j in table[i] * y;
    }
  }

  lemma SplitEssential(s: Space, F: Cover, D: Cover, e: seq<nat>, rt: seq<nat>, rp: seq<nat>)
    requires SplitCover(s, F, D, e, rt, rp)
    ensures forall i :: 0 <= i < |F| ==> (i in e <==> !Redundant(s, F, D, i))
  {
    hide Redundant, FullyFixed, NonVoid;
  }

  /** If one cube closes everything, it is in every row of the table. */
  lemma OneEnough(s: Space, F: Cover, D: Cover, e: seq<nat>, rt: seq<nat>, rp: seq<nat>, g: set<Row>,
      table: Covering.Rows, cover: set<nat>, G: Cover, c: nat)
    requires SplitCover(s, F, D, e, rt, rp) && TableFor(s, F, D, e, rp, rp, g) && SameHits(table, g)
    requires |G| == |F| && c < |F| && ClosesAlone(s, F, D, G, c)
    requires forall i :: 0 <= i < |F| ==>
      G[i].cube == F[i].cube && (G[i].active <==> i in e || i in cover) && (G[i].relEssen <==> i in e)
    requires forall core, f :: Cores.CoreOf(table, core) && Stars.Centred(core, f) ==> |cover| == |f.Values|
    ensures AtMostOne(G)
  {
    hide TableFor, SameHits, Stars.Centred, SplitCover, ClosesAlone, Cores.CoreOf;
    Cores.SelfCore(table);
    CommonColumn(s, F, D, e, rt, rp, g, table, G, c);
    var f := map i | i in table :: c;
    assert Stars.Centred(table, f) by { OneStar(table, f, c); }
    assert f.Values <= {c};
    SubsetCard(f.Values, {c});
    OneMember(cover);
  }

  lemma OneStar(table: Covering.Rows, f: map<nat, nat>, c: nat)
    requires (forall i :: i in table ==> c in table[i]) && f == map i | i in table :: c
    ensures Stars.Centred(table, f)
  {
    hide Intersects;
  }

  lemma OneMember(a: set<nat>)
    requires |a| <= 1
    ensures forall i, j :: i in a && j in a ==> i == j
  {
    forall i, j | i in a && j in a
      ensures i == j
    {
      SubsetCard({i, j}, a);
    }
  }

  lemma CommonColumn(s: Space, F: Cover, D: Cover, e: seq<nat>, rt: seq<nat>, rp: seq<nat>, g: set<Row>,
      table: Covering.Rows, G: Cover, c: nat)
    requires SplitCover(s, F, D, e, rt, rp) && TableFor(s, F, D, e, rp, rp, g) && SameHits(table, g)
    requires |G| == |F| && c < |F| && ClosesAlone(s, F, D, G, c)
    requires forall i :: 0 <= i < |F| ==> G[i].cube == F[i].cube && (G[i].relEssen <==> i in e)
    ensures forall i :: i in table ==> c in table[i]
  {
    hide TableFor, SameHits, SplitCover, In, Fixed, EssenCovers;
    forall i | i in table
      ensures c in table[i]
    {
      SameHitsRow(table, g, i);
      var m := ForcedMinterm(s, F, D, e, rp, rp, g, table[i]);
      EssenIsFixed(F, D, e, G, m);
      var k :| k in rp && k < |F| && In(m, F[k].cube);
      assert Has(F, m);
      InPartial(s, F, D, e, rt, rp, c, m);
    }
  }

  method MarkAll(F: Cover, e: seq<nat>, cover: set<nat>) returns (G: Cover)
    requires Numbers(F, e)
    ensures |G| == |F|
    ensures forall i :: 0 <= i < |F| ==> G[i] == F[i].(active := i in e || i in cover, relEssen := i in e)
  {
    G := F;
    var i := 0;
    while i < |F|
      invariant 0 <= i <= |F| == |G|
      invariant forall k :: 0 <= k < i ==> G[k] == F[k].(active := k in e || k in cover, relEssen := k in e)
      invariant forall k :: i <= k < |F| ==> G[k] == F[k]
    {
      G := G[i := F[i].(active := i in e || i in cover, relEssen := i in e)];
      i := i + 1;
    }
  }

  lemma SplitNumbers(s: Space, F: Cover, D: Cover, e: seq<nat>, rt: seq<nat>, rp: seq<nat>)
    requires SplitCover(s, F, D, e, rt, rp)
    ensures Numbers(F, e) && Numbers(F, rp) && Numbers(F, e + rp)
    ensures forall k :: k in rp ==> k < |F| && NonVoid(s, F[k].cube)
  {
    hide FullyFixed, NonVoid, HasOther;
    var idx := e + rp;
    forall i, j | 0 <= i < j < |idx|
      ensures idx[i] != idx[j]
    {
      if i < |e| && j >= |e| {
        assert e[i] in e && rp[j - |e|] in rp;
      }
    }
    forall k | k in rp
      ensures k < |F| && NonVoid(s, F[k].cube)
    {
      var i :| 0 <= i < |rp| && rp[i] == k;
    }
  }

  lemma TableCols(F: Cover, rp: seq<nat>, table: Covering.Rows, g: set<Row>, cover: set<nat>)
    requires Numbers(F, rp) && cover <= Cols(table) && SameHits(table, g)
    requires forall r :: r in g ==> r != {} && forall j :: j in r ==> j in rp
    ensures forall j :: j in cover ==> j in rp && j < |F|
  {
    forall j | j in cover
      ensures j in rp && j < |F|
    {
      var i :| i in table && j in table[i];
      assert table[i] in g;
      var k :| 0 <= k < |rp| && rp[k] == j;
    }
  }

  lemma TableRows(s: Space, F: Cover, D: Cover, e: seq<nat>, rp: seq<nat>, g: set<Row>)
    requires TableFor(s, F, D, e, rp, rp, g)
    ensures forall r :: r in g ==> r != {} && forall j :: j in r ==> j in rp
  {
  }

  lemma MarkedKeeps(s: Space, F: Cover, D: Cover, e: seq<nat>, rt: seq<nat>, rp: seq<nat>, cover: set<nat>, G: Cover)
    requires SplitCover(s, F, D, e, rt, rp) && Closes(s, F, D, e, rp, cover) && |G| == |F|
    requires forall i :: 0 <= i < |F| ==> G[i].cube == F[i].cube && (G[i].active <==> i in e || i in cover)
    ensures forall m :: IsMinterm(s, m) && Has(F, m) ==> Kept(G, D, m)
  {
    hide Redundant, NonVoid, In;
    forall m | IsMinterm(s, m) && Has(F, m)
      ensures Kept(G, D, m)
    {
      var k :| 0 <= k < |F| && In(m, F[k].cube);
      if Fixed(F, D, e, m) {
        if !Has(D, m) {
          var i :| i in e && i < |F| && In(m, F[i].cube);
          assert G[i].active && In(m, G[i].cube);
        }
      } else {
        InPartial(s, F, D, e, rt, rp, k, m);
        assert Open(s, F, D, e, rp, m);
        var j :| j in cover && j < |F| && In(m, F[j].cube);
        assert G[j].active && In(m, G[j].cube);
      }
    }
  }

  lemma InPartial(s: Space, F: Cover, D: Cover, e: seq<nat>, rt: seq<nat>, rp: seq<nat>, k: nat, m: Minterm)
    requires SplitCover(s, F, D, e, rt, rp) && k < |F|
    requires IsMinterm(s, m) && In(m, F[k].cube) && !Fixed(F, D, e, m)
    ensures k in rp
  {
    hide NonVoid, In, Redundant;
  }

  lemma MarkedReason(s: Space, F: Cover, D: Cover, e: seq<nat>, rt: seq<nat>, rp: seq<nat>, cover: set<nat>, G: Cover)
    requires SplitCover(s, F, D, e, rt, rp) && |G| == |F|
    requires forall j :: j in cover ==> j in rp && j < |F|
    requires forall i :: 0 <= i < |F| ==>
      G[i].cube == F[i].cube && (G[i].active <==> i in e || i in cover) && (G[i].relEssen <==> i in e)
    ensures forall i :: 0 <= i < |F| && G[i].active && !G[i].relEssen ==>
              Needed(s, F, D, G, i)
  {
    hide In, NonVoid, HasOther;
    forall i | 0 <= i < |F| && G[i].active && !G[i].relEssen
      ensures Needed(s, F, D, G, i)
    {
      assert i in rp && NonVoid(s, F[i].cube);
      var m :| IsMinterm(s, m) && In(m, F[i].cube) && !Fixed(F, D, e, m);
      EssenIsFixed(F, D, e, G, m);
    }
  }

  lemma EssenIsFixed(F: Cover, D: Cover, e: seq<nat>, G: Cover, m: Minterm)
    requires |G| == |F| && forall i :: 0 <= i < |F| ==> G[i].cube == F[i].cube && (G[i].relEssen <==> i in e)
    ensures EssenCovers(G, D, m) ==> Fixed(F, D, e, m)
  {
    hide In;
    if EssenCovers(G, D, m) && !Has(D, m) {
      var i :| 0 <= i < |G| && G[i].relEssen && In(m, G[i].cube);
      assert i in e && In(m, F[i].cube);
    }
  }

  /** G has the cubes of F that are marked active, each once and in their order. */
  ghost predicate Picked(M: Cover, G: Cover, from: seq<nat>) {
    && |from| == |G| && (forall j :: 0 <= j < |G| ==> from[j] < |M| && G[j] == M[from[j]] && G[j].active)
    && (forall i, j :: 0 <= i < j < |from| ==> from[i] < from[j])
    && (forall i :: 0 <= i < |M| && M[i].active ==> i in from)
  }

  /** G is what marking the cubes of F keeps. */
  ghost predicate IrredundantOf(s: Space, F: Cover, D: Cover, G: Cover) {
    exists M, from :: MarksOf(s, F, D, M) && Picked(M, G, from)
  }

  lemma ChosenShapes(s: Space, F: Cover, D: Cover, G: Cover)
    requires IrredundantOf(s, F, D, G)
    ensures SameShapes(G, F)
  {
    hide Redundant, Needed, ClosesAlone, AtMostOne, Kept;
    var M, from :| MarksOf(s, F, D, M) && Picked(M, G, from);
    forall j | 0 <= j < |G|
      ensures IsShape(G[j].cube, F)
    {
      assert F[from[j]].cube == G[j].cube;
    }
  }

  /** A subset of F that, with the don't cares, covers every minterm of F: exactly the
      cubes that are marked. */
  method IrredundantCover(s: Space, F: Cover, D: Cover) returns (G: Cover)
    requires Valid(s, F) && Valid(s, D)
    ensures Valid(s, G) && |G| <= |F| && Inside(G, F) && SameShapes(G, F)
    ensures CoveredBy(s, F, G, D) && IrredundantOf(s, F, D, G)
  {
    hide Full, Redundant, Has, Valid, Inside, SameShapes, Needed, ClosesAlone, AtMostOne, Kept;
    var M := MarkIrredundant(s, F, D);
    ghost var from;
    G, from := Inactive(M);
    assert Picked(M, G, from);
    SameCubesFacts(s, F, M);
    InactiveFacts(s, M, G, from);
    InsideTrans(G, M, F);
    KeptShapes(F, M, G, from);
    forall m | IsMinterm(s, m) && Has(F, m)
      ensures Has(G, m) || Has(D, m)
    {
      KeptHas(M, D, G, from, m);
    }
  }

  lemma KeptShapes(F: Cover, M: Cover, G: Cover, from: seq<nat>)
    requires |M| == |F| && |from| == |G| && forall i :: 0 <= i < |F| ==> M[i].cube == F[i].cube
    requires forall j :: 0 <= j < |G| ==> from[j] < |M| && G[j] == M[from[j]]
    ensures SameShapes(G, F)
  {
    forall j | 0 <= j < |G|
      ensures IsShape(G[j].cube, F)
    {
      assert F[from[j]].cube == G[j].cube;
    }
  }

  lemma KeptHas(M: Cover, D: Cover, G: Cover, from: seq<nat>, m: Minterm)
    requires |from| == |G| && Kept(M, D, m)
    requires forall j :: 0 <= j < |G| ==> from[j] < |M| && G[j] == M[from[j]]
    requires forall i :: 0 <= i < |M| && M[i].active ==> i in from
    ensures Has(G, m) || Has(D, m)
  {
    hide In;
    if !Has(D, m) {
      var i :| 0 <= i < |M| && M[i].active && In(m, M[i].cube);
      var j :| 0 <= j < |from| && from[j] == i;
      assert In(m, G[j].cube);
    }
  }
}
