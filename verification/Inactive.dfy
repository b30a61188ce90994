/** Variables in which every cube of a list is full: they play no part in the
    recursions, whether or not their parts are cofactored away. */
module Inactive {
  import opened Cubes
  import opened CubeLists
  import opened Splitting
  import opened Rows
  import opened Complement

  /** The variables in which every cube has every live part. */
  ghost function Idle(s: Space, T: CubeList): (vs: set<nat>)
    ensures forall v: nat :: v in vs <==> v < |s.sizes| && ActiveParts(s, T, v) == {}
  {
    set v: nat | v < |s.sizes| && ActiveParts(s, T, v) == {}
  }

  /** All parts of the variables. */
  ghost function Masks(s: Space, vs: set<nat>): (c: Cube)
    ensures forall p :: p in c <==> p in Full(s) && p.v in vs
  {
    set p | p in Full(s) && p.v in vs
  }

  /** The list with every part of the variables live, and in every cube. */
  ghost function Freed(s: Space, vs: set<nat>, T: CubeList): (U: CubeList)
    ensures U.cof == T.cof - Masks(s, vs) && |U.items| == |T.items|
    ensures forall i :: 0 <= i < |T.items| ==> U.items[i] == FreedItem(s, vs, T.items[i])
  {
    CubeList(T.cof - Masks(s, vs), seq(|T.items|, i requires 0 <= i < |T.items| => FreedItem(s, vs, T.items[i])))
  }

  ghost function FreedItem(s: Space, vs: set<nat>, it: Item): Item {
    Item(it.cube + Masks(s, vs), it.id)
  }

  /** The list with every idle variable freed. */
  ghost function Cleared(s: Space, T: CubeList): CubeList {
    Freed(s, Idle(s, T), T)
  }

  lemma FreedMembers(s: Space, vs: set<nat>, T: CubeList)
    ensures forall it :: it in T.items ==> FreedItem(s, vs, it) in Freed(s, vs, T).items
    ensures forall u :: u in Freed(s, vs, T).items ==> exists it :: it in T.items && u == FreedItem(s, vs, it)
  {
    hide Masks, FreedItem;
    forall it | it in T.items
      ensures FreedItem(s, vs, it) in Freed(s, vs, T).items
    {
      var i :| 0 <= i < |T.items| && T.items[i] == it;
      assert Freed(s, vs, T).items[i] == FreedItem(s, vs, it);
    }
  }

  lemma FreedInSpace(s: Space, vs: set<nat>, T: CubeList)
    requires InSpace(s, T)
    ensures InSpace(s, Freed(s, vs, T))
  {
    hide Full;
    FreedMembers(s, vs, T);
  }

  /** Nothing changes outside what is cofactored away. */
  lemma FreedSame(s: Space, vs: set<nat>, T: CubeList, it: Item)
    requires vs <= Idle(s, T) && it in T.items
    ensures it.cube + T.cof == FreedItem(s, vs, it).cube + Freed(s, vs, T).cof
  {
    hide Full, Idle;
    forall p | p in Masks(s, vs)
      ensures p in it.cube + T.cof
    {
      assert ActiveParts(s, T, p.v) == {};
      assert p in Mask(s, p.v);
      assert p !in ActiveParts(s, T, p.v);
    }
  }

  /** The same parts are active. */
  lemma FreedActive(s: Space, vs: set<nat>, T: CubeList, v: nat)
    requires vs <= Idle(s, T) && v < |s.sizes|
    ensures ActiveParts(s, Freed(s, vs, T), v) == ActiveParts(s, T, v)
  {
    hide Full, Idle;
    var U := Freed(s, vs, T);
    FreedMembers(s, vs, T);
    forall p | p in ActiveParts(s, T, v)
      ensures p in ActiveParts(s, U, v)
    {
      var it :| it in T.items && p !in it.cube;
      assert v !in vs;
      assert FreedItem(s, vs, it) in U.items && p !in FreedItem(s, vs, it).cube;
    }
    forall p | p in ActiveParts(s, U, v)
      ensures p in ActiveParts(s, T, v)
    {
      var u :| u in U.items && p !in u.cube;
      var it :| it in T.items && u == FreedItem(s, vs, it);
      assert p !in Masks(s, vs);
    }
  }

  lemma FreedIdle(s: Space, vs: set<nat>, T: CubeList)
    requires vs <= Idle(s, T)
    ensures Idle(s, Freed(s, vs, T)) == Idle(s, T)
  {
    hide ActiveParts;
    forall v: nat | v < |s.sizes|
      ensures v in Idle(s, Freed(s, vs, T)) <==> v in Idle(s, T)
    {
      FreedActive(s, vs, T, v);
    }
  }

  /** Clearing after freeing some idle variables is clearing. */
  lemma ClearedFreed(s: Space, vs: set<nat>, T: CubeList)
    requires vs <= Idle(s, T)
    ensures Cleared(s, Freed(s, vs, T)) == Cleared(s, T)
  {
    hide Full, Idle;
    FreedIdle(s, vs, T);
    var U, ws := Freed(s, vs, T), Idle(s, T);
    assert Masks(s, vs) <= Masks(s, ws);
    assert Freed(s, ws, U).cof == Freed(s, ws, T).cof;
    forall i | 0 <= i < |T.items|
      ensures Freed(s, ws, U).items[i] == Freed(s, ws, T).items[i]
    {
      assert FreedItem(s, vs, T.items[i]).cube + Masks(s, ws) == T.items[i].cube + Masks(s, ws);
    }
    assert Freed(s, ws, U).items == Freed(s, ws, T).items;
  }

  lemma FreedFullRow(s: Space, vs: set<nat>, T: CubeList)
    requires vs <= Idle(s, T) && !NoFullRow(s, T)
    ensures !NoFullRow(s, Freed(s, vs, T))
  {
    hide Full, Idle, FreedItem;
    FreedMembers(s, vs, T);
    var it :| it in T.items && FullRow(s, it.cube, T.cof);
    FreedSame(s, vs, T, it);
    assert FullRow(s, FreedItem(s, vs, it).cube, Freed(s, vs, T).cof);
  }

  lemma FreedUnlist(s: Space, vs: set<nat>, T: CubeList)
    requires vs <= Idle(s, T)
    ensures CubeUnlist(Freed(s, vs, T)) == CubeUnlist(T)
  {
    hide Full, Idle, FreedItem, Freed;
    var A, B := CubeUnlist(Freed(s, vs, T)), CubeUnlist(T);
    forall i | 0 <= i < |T.items|
      ensures A[i] == B[i]
    {
      FreedSame(s, vs, T, T.items[i]);
    }
  }

  /** The union of the cubes is the same. */
  lemma FreedCeil(s: Space, vs: set<nat>, T: CubeList, ceil: Cube)
    requires vs <= Idle(s, T) && T.items != [] && CeilOf(T, ceil)
    ensures CeilOf(Freed(s, vs, T), ceil) && Masks(s, vs) <= ceil
  {
    hide Full, Idle, ActiveParts;
    var U := Freed(s, vs, T);
    FreedMembers(s, vs, T);
    var it := T.items[0];
    FreedSame(s, vs, T, it);
    forall p | p in ceil
      ensures p in U.cof || exists u :: u in U.items && p in u.cube
    {
      if p in T.cof {
        assert p in FreedItem(s, vs, it).cube + U.cof;
        assert FreedItem(s, vs, it) in U.items;
      } else {
        var it' :| it' in T.items && p in it'.cube;
        assert FreedItem(s, vs, it') in U.items;
      }
    }
    forall p | p in U.cof || exists u :: u in U.items && p in u.cube
      ensures p in ceil
    {
      if p !in U.cof {
        var u :| u in U.items && p in u.cube;
        var it' :| it' in T.items && u == FreedItem(s, vs, it');
        FreedSame(s, vs, T, it');
        assert p in it'.cube + T.cof;
      }
    }
  }

  /** Taking out the empty columns commutes with freeing. */
  lemma FreedCeilList(s: Space, vs: set<nat>, T: CubeList, ceil: Cube)
    requires vs <= Idle(s, T) && T.items != [] && CeilOf(T, ceil)
    ensures CeilList(s, Freed(s, vs, T), ceil) == Freed(s, vs, CeilList(s, T, ceil))
    ensures vs <= Idle(s, CeilList(s, T, ceil))
  {
    hide Full, FreedItem;
    FreedCeil(s, vs, T, ceil);
    assert CeilList(s, Freed(s, vs, T), ceil).cof == Freed(s, vs, CeilList(s, T, ceil)).cof;
    CofGrowsIdle(s, T, CeilList(s, T, ceil));
  }

  /** With more parts cofactored away and fewer cubes, no variable becomes active. */
  lemma CofGrowsIdle(s: Space, T: CubeList, H: CubeList)
    requires T.cof <= H.cof && forall it :: it in H.items ==> it in T.items
    ensures Idle(s, T) <= Idle(s, H)
  {
    hide Full;
    forall v | v in Idle(s, T)
      ensures v in Idle(s, H)
    {
      assert ActiveParts(s, H, v) <= ActiveParts(s, T, v);
    }
  }

  /** A half of the split commutes with freeing. */
  lemma FreedHalf(s: Space, vs: set<nat>, T: CubeList, v: nat, c: Cube, other: Cube, H: CubeList)
    requires v < |s.sizes| && vs <= Idle(s, T) && v !in vs && SplitOf(s, T.cof, v, c, other) && HalfOf(s, T, c, v, H)
    ensures SplitOf(s, Freed(s, vs, T).cof, v, c, other)
    ensures HalfOf(s, Freed(s, vs, T), c, v, Freed(s, vs, H)) && vs <= Idle(s, H)
  {
    hide Idle, FreedItem, Freed;
    CofGrowsIdle(s, T, H);
    assert Freed(s, vs, H).cof == Freed(s, vs, T).cof + (Full(s) - c);
    FreedHalfItems(s, vs, T, v, c, H);
  }

  lemma FreedHalfItems(s: Space, vs: set<nat>, T: CubeList, v: nat, c: Cube, H: CubeList)
    requires v < |s.sizes| && v !in vs && HalfOf(s, T, c, v, H)
    ensures forall u :: u in Freed(s, vs, H).items <==>
      u in Freed(s, vs, T).items && u.cube * (Mask(s, v) * c) != {}
  {
    hide Idle, Freed, Full;
    FreedMembers(s, vs, T);
    FreedMembers(s, vs, H);
    forall it: Item
      ensures FreedItem(s, vs, it).cube * (Mask(s, v) * c) == it.cube * (Mask(s, v) * c)
    {
      assert Masks(s, vs) * Mask(s, v) == {};
    }
    forall u | u in Freed(s, vs, H).items
      ensures u in Freed(s, vs, T).items && u.cube * (Mask(s, v) * c) != {}
    {
      var it :| it in H.items && u == FreedItem(s, vs, it);
    }
    forall u | u in Freed(s, vs, T).items && u.cube * (Mask(s, v) * c) != {}
      ensures u in Freed(s, vs, H).items
    {
      var it :| it in T.items && u == FreedItem(s, vs, it);
    }
  }
}
