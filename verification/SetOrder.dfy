/** The order in which set families are kept: larger sets first, and sets of one
    size by their bits. */
module SetOrder {
  import opened Cubes
  import opened Counting
  import opened Families

  /** A cube with the SIZE field of its header word, which holds the number of parts
      only after somebody has put it there. */
  datatype Sized = Sized(c: FCube, size: nat)

  /** The bit of p comes after the bit of q. */
  predicate Above(p: Part, q: Part) {
    p.v > q.v || (p.v == q.v && p.k > q.k)
  }

  /** As bit vectors a exceeds b: the highest bit in which they differ is in a. */
  predicate Exceeds(a: Cube, b: Cube) {
    exists p | p in a - b :: forall q | q in b - a :: Above(p, q)
  }

  /** The comparison for sorting by decreasing size. */
  function Descend(x: Sized, y: Sized): int {
    if x.size > y.size then -1
    else if x.size < y.size then 1
    else if Exceeds(x.c.cube, y.c.cube) then -1
    else if Exceeds(y.c.cube, x.c.cube) then 1
    else 0
  }

  /** A cube whose header holds its size. */
  function Stamp(c: FCube): Sized {
    Sized(c, |c.cube|)
  }

  predicate Before(x: Sized, y: Sized) {
    Descend(x, y) == -1
  }

  /** Every set comes before all later ones, so none occurs twice. */
  ghost predicate Sorted(S: seq<Sized>) {
    forall i, j :: 0 <= i < j < |S| ==> Before(S[i], S[j])
  }

  /** The family with the sizes put in its headers. */
  function Stamped(F: Cover): (S: seq<Sized>)
    ensures |S| == |F| && forall i :: 0 <= i < |F| ==> S[i] == Stamp(F[i])
  {
    seq(|F|, i requires 0 <= i < |F| => Stamp(F[i]))
  }

  lemma ExceedsTransitive(a: Cube, b: Cube, c: Cube)
    requires Exceeds(a, b) && Exceeds(b, c)
    ensures Exceeds(a, c)
  {
    var p :| p in a - b && forall q :: q in b - a ==> Above(p, q);
    var q :| q in b - c && forall r :: r in c - b ==> Above(q, r);
    var w := if Above(p, q) then p else q;
    assert w in a - c by {
      if Above(p, q) {
        assert p !in c - b;
      } else {
        assert Above(q, p);
        assert q !in b - a;
      }
    }
    forall r | r in c - a
      ensures Above(w, r)
    {
      assert r in b ==> r in b - a;
      assert r !in b ==> r in c - b;
    }
  }

  lemma ExceedsOneWay(a: Cube, b: Cube)
    requires Exceeds(a, b)
    ensures !Exceeds(b, a)
  {
    if Exceeds(b, a) {
      ExceedsTransitive(a, b, a);
    }
  }

  /** The highest of some bits. */
  lemma {:induction false} Highest(c: Cube) returns (p: Part)
    requires c != {}
    ensures p in c && forall q :: q in c && q != p ==> Above(p, q)
    decreases |c|
  {
    p := Member(c);
    if c != {p} {
      var rest := c - {p};
      assert c == rest + {p};
      var first := p;
      var h := Highest(rest);
      if Above(h, first) {
        p := h;
      }
      forall q | q in c && q != p
        ensures Above(p, q)
      {
        assert q == first || q in rest;
      }
    }
  }

  lemma ExceedsTotal(a: Cube, b: Cube)
    requires a != b
    ensures Exceeds(a, b) || Exceeds(b, a)
  {
    var d := (a - b) + (b - a);
    assert d != {} by {
      assert !(a <= b && b <= a);
    }
    var p := Highest(d);
    if p in a {
      assert p in a - b;
    } else {
      assert p in b - a;
    }
  }

  /** The comparison is a strict order on sizes and sets. */
  lemma DescendOrder(x: Sized, y: Sized, z: Sized)
    ensures Before(x, y) && Before(y, z) ==> Before(x, z)
    ensures Before(x, y) ==> !Before(y, x)
    ensures Before(x, y) <==> Descend(y, x) == 1
    ensures Descend(x, y) == 0 <==> x.size == y.size && x.c.cube == y.c.cube
  {
    hide Exceeds;
    var a, b, c := x.c.cube, y.c.cube, z.c.cube;
    if Exceeds(a, b) {
      ExceedsOneWay(a, b);
      if Exceeds(b, c) {
        ExceedsTransitive(a, b, c);
      }
    }
    if Exceeds(b, a) {
      ExceedsOneWay(b, a);
    }
    if a != b {
      ExceedsTotal(a, b);
    } else if Exceeds(a, b) {
      ExceedsOneWay(a, b);
    }
  }
}
