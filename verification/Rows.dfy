/** Rows and columns of a cube list: full rows, empty columns, unate corners. */
module Rows {
  import opened Cubes
  import opened Counting
  import opened CubeLists

  /** c holds every part that is not cofactored away. */
  predicate FullRow(s: Space, c: Cube, cof: Cube) {
    Full(s) <= c + cof
  }

  ghost predicate NoFullRow(s: Space, T: CubeList) {
    forall it :: it in T.items ==> !FullRow(s, it.cube, T.cof)
  }

  /** Some part outside cof is in no cube of the list. */
  ghost predicate EmptyColumn(s: Space, T: CubeList, p: Part) {
    p in Full(s) && p !in T.cof && forall it :: it in T.items ==> p !in it.cube
  }

  method HasFullRow(s: Space, T: CubeList) returns (found: bool)
    ensures found <==> !NoFullRow(s, T)
  {
    hide FullRow;
    var i := 0;
    while i < |T.items|
      invariant 0 <= i <= |T.items|
      invariant forall it :: it in T.items[..i] ==> !FullRow(s, it.cube, T.cof)
    {
      if FullRow(s, T.items[i].cube, T.cof) {
        return true;
      }
      i := i + 1;
    }
    return false;
  }

  /** The union of cof and all the cubes. */
  method Ceiling(T: CubeList) returns (ceil: Cube)
    ensures forall p :: p in ceil <==> p in T.cof || exists it :: it in T.items && p in it.cube
  {
    ceil := T.cof;
    var i := 0;
    while i < |T.items|
      invariant 0 <= i <= |T.items|
      invariant forall p :: p in ceil <==> p in T.cof || exists it :: it in T.items[..i] && p in it.cube
    {
      ceil := ceil + T.items[i].cube;
      assert T.items[..i + 1] == T.items[..i] + [T.items[i]];
      i := i + 1;
    }
    assert T.items[..i] == T.items;
  }

  lemma FullRowCovers(s: Space, cof: Cube, c: Cube, m: Minterm)
    requires FullRow(s, c, cof) && Outside(s, cof, m)
    ensures In(m, c)
  {
  }

  /** A minterm through the part p, if there is a subspace at all. */
  lemma MintermThrough(s: Space, cof: Cube, p: Part) returns (m: Minterm)
    requires Live(s, cof) && p in Full(s) && p !in cof
    ensures Outside(s, cof, m) && m[p.v] == p.k
  {
    m := PickMinterm(s, Full(s) - cof)[p.v := p.k];
  }

  /** An item that is not a full row leaves out an active part. */
  lemma MissingPart(s: Space, T: CubeList, it: Item) returns (p: Part)
    requires it in T.items && !FullRow(s, it.cube, T.cof)
    ensures p in Full(s) && p !in T.cof && p !in it.cube && p in ActiveParts(s, T, p.v)
  {
    p :| p in Full(s) && p !in it.cube + T.cof;
  }

  /** The parts of the corner: in the variables vs the active parts, where
      there are any, and every live part elsewhere. */
  ghost function CornerParts(s: Space, T: CubeList, vs: set<nat>): Cube {
    set p | p in Full(s) && p !in T.cof
            && (p.v in vs && ActiveParts(s, T, p.v) != {} ==> p in ActiveParts(s, T, p.v))
  }

  /** A minterm that takes the active part of every variable in vs that has
      one: it meets only the cubes that are full there. */
  lemma Corner(s: Space, T: CubeList, vs: set<nat>) returns (m: Minterm)
    requires Live(s, T.cof)
    ensures Outside(s, T.cof, m)
    ensures forall v :: v in vs && v < |s.sizes| && ActiveParts(s, T, v) != {} ==>
              Part(v, m[v]) in ActiveParts(s, T, v)
  {
    hide ActiveParts;
    var c := CornerParts(s, T, vs);
    forall v | 0 <= v < |s.sizes|
      ensures c * Mask(s, v) != {}
    {
      if v in vs && ActiveParts(s, T, v) != {} {
        var p :| p in ActiveParts(s, T, v);
        ActivePartFacts(s, T, v, p);
        assert p in c * Mask(s, v);
      } else {
        var p := LivePart(s, T.cof, v);
        assert p in c * Mask(s, v);
      }
    }
    m := PickMinterm(s, c);
  }

  lemma ActivePartFacts(s: Space, T: CubeList, v: nat, p: Part)
    requires v < |s.sizes| && p in ActiveParts(s, T, v)
    ensures p.v == v && p in Full(s) && p !in T.cof
  {
  }

  /** The corner of the unate variables lies in an item only if the item is
      full in all of them. */
  lemma UnateCorner(s: Space, T: CubeList, vs: set<nat>, m: Minterm, it: Item, v: nat)
    requires Outside(s, T.cof, m) && it in T.items && In(m, it.cube)
    requires v in vs && v < |s.sizes| && |ActiveParts(s, T, v)| <= 1
    requires ActiveParts(s, T, v) != {} ==> Part(v, m[v]) in ActiveParts(s, T, v)
    ensures !ActiveIn(s, T.cof, it.cube, v)
  {
    if ActiveIn(s, T.cof, it.cube, v) {
      var p :| p in Mask(s, v) && p !in it.cube + T.cof;
      assert p in ActiveParts(s, T, v);
      if |ActiveParts(s, T, v)| == 1 {
        SingletonCard(ActiveParts(s, T, v), p, Part(v, m[v]));
      }
    }
  }

  /** A cube that is not active in v contains every live part of v. */
  lemma InactiveHolds(s: Space, cof: Cube, c: Cube, v: nat, m: Minterm)
    requires v < |s.sizes| && !ActiveIn(s, cof, c, v) && Outside(s, cof, m)
    ensures Part(v, m[v]) in c
  {
    assert Part(v, m[v]) in Mask(s, v);
  }
}
