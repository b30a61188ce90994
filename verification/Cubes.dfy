/** Multiple-valued cubes, minterms and the distance between cubes.

  A cube is a set of parts.  A part is one value of one variable; the packed
  bit vector of the program holds one bit for every part.  A minterm picks
  one value for every variable, and lies in a cube when all its parts do.
 */
module Cubes {
  import opened Counting

  datatype Part = Part(v: nat, k: nat)

  type Cube = set<Part>

  type Minterm = seq<nat>

  /** The global cube structure: how many values each variable has.  There
      is at least one variable, and the first numBinary are two-valued. */
  datatype SpaceData = Space(sizes: seq<nat>, numBinary: nat)
  {
    predicate Valid() {
      && 0 < |sizes| && numBinary <= |sizes|
      && (forall v :: 0 <= v < |sizes| ==> 0 < sizes[v])
      && (forall v :: 0 <= v < numBinary ==> sizes[v] == 2)
    }
  }

  type Space = s: SpaceData | s.Valid() witness Space([2], 1)

  /** The universe: every part of every variable. */
  function Full(s: Space): (c: Cube)
    ensures forall p :: p in c <==> p.v < |s.sizes| && p.k < s.sizes[p.v]
  {
    set v: nat, k: nat | v < |s.sizes| && k < s.sizes[v] :: Part(v, k)
  }

  /** All parts of variable v. */
  function Mask(s: Space, v: nat): (c: Cube)
    requires v < |s.sizes|
    ensures forall p :: p in c <==> p.v == v && p.k < s.sizes[v]
  {
    set k: nat | k < s.sizes[v] :: Part(v, k)
  }

  ghost predicate IsMinterm(s: Space, m: Minterm) {
    && |m| == |s.sizes|
    && forall v :: 0 <= v < |m| ==> m[v] < s.sizes[v]
  }

  /** The minterm m lies in the cube c. */
  ghost predicate In(m: Minterm, c: Cube) {
    forall v :: 0 <= v < |m| ==> Part(v, m[v]) in c
  }

  /** Every variable keeps at least one part. */
  predicate NonVoid(s: Space, c: Cube) {
    forall v :: 0 <= v < |s.sizes| ==> c * Mask(s, v) != {}
  }

  /** The variables in which a and b have no part in common. */
  function Clashes(s: Space, a: Cube, b: Cube): (vs: set<nat>)
    ensures forall v: nat :: v in vs <==> v < |s.sizes| && a * b * Mask(s, v) == {}
  {
    set v: nat | v < |s.sizes| && a * b * Mask(s, v) == {}
  }

  /** The distance of two cubes: how many variables are empty in their
      intersection. */
  function Distance(s: Space, a: Cube, b: Cube): nat {
    |Clashes(s, a, b)|
  }

  predicate Meets(s: Space, a: Cube, b: Cube) {
    Clashes(s, a, b) == {}
  }

  // ---- choosing minterms

  ghost function PickPart(s: Space, c: Cube, v: nat): (k: nat)
    requires v < |s.sizes| && c * Mask(s, v) != {}
    ensures Part(v, k) in c && k < s.sizes[v]
  {
    var p :| p in c * Mask(s, v);
    p.k
  }

  ghost function PickMinterm(s: Space, c: Cube): (m: Minterm)
    requires NonVoid(s, c)
    ensures IsMinterm(s, m) && In(m, c)
  {
    seq(|s.sizes|, v requires 0 <= v < |s.sizes| => PickPart(s, c, v))
  }

  /** m with the coordinates in vs taken from m'. */
  ghost function Mix(m: Minterm, m': Minterm, vs: set<nat>): (r: Minterm)
    requires |m| == |m'|
    ensures |r| == |m|
    ensures forall v :: 0 <= v < |m| ==> r[v] == if v in vs then m'[v] else m[v]
  {
    seq(|m|, v requires 0 <= v < |m| => if v in vs then m'[v] else m[v])
  }

  lemma MintermMakesNonVoid(s: Space, m: Minterm, c: Cube)
    requires IsMinterm(s, m) && In(m, c)
    ensures NonVoid(s, c)
  {
    forall v | 0 <= v < |s.sizes|
      ensures c * Mask(s, v) != {}
    {
      assert Part(v, m[v]) in c * Mask(s, v);
    }
  }

  /** Two cubes are at distance 0 exactly when some minterm lies in both. */
  lemma MeetsIffCommonMinterm(s: Space, a: Cube, b: Cube)
    ensures Meets(s, a, b) <==> exists m :: IsMinterm(s, m) && In(m, a) && In(m, b)
  {
    if Meets(s, a, b) {
      forall v | 0 <= v < |s.sizes|
        ensures (a * b) * Mask(s, v) != {}
      {
        assert v !in Clashes(s, a, b);
      }
      var m := PickMinterm(s, a * b);
      assert In(m, a) && In(m, b);
    }
    if m :| IsMinterm(s, m) && In(m, a) && In(m, b) {
      assert In(m, a * b);
      MintermMakesNonVoid(s, m, a * b);
    }
  }

  lemma MeetsMonotone(s: Space, a: Cube, b: Cube, a': Cube, b': Cube)
    requires Meets(s, a, b) && a <= a' && b <= b'
    ensures Meets(s, a', b')
  {
    forall v | 0 <= v < |s.sizes|
      ensures v !in Clashes(s, a', b')
    {
      assert v !in Clashes(s, a, b);
      var p := Member(a * b * Mask(s, v));
      assert p in a' * b' * Mask(s, v);
    }
  }

  /** A wider cube is not void either. */
  lemma WiderNonVoid(s: Space, a: Cube, b: Cube)
    requires a <= b && NonVoid(s, a)
    ensures NonVoid(s, b)
  {
    forall v | 0 <= v < |s.sizes|
      ensures b * Mask(s, v) != {}
    {
      assert a * Mask(s, v) != {};
      var p := Member(a * Mask(s, v));
      assert p in b * Mask(s, v);
    }
  }

  /** The consensus of two cubes at distance one: everything in the variables where
      they clash, what they share elsewhere. */
  function Consensus(s: Space, a: Cube, b: Cube): (r: Cube)
    ensures forall p :: p in r <==> if p.v in Clashes(s, a, b) then p in a || p in b else p in a && p in b
  {
    a * b + set p | p in a + b && p.v in Clashes(s, a, b)
  }
}
