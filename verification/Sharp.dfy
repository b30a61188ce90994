/** The sharp and the disjoint sharp of cubes and covers: what one leaves of another. */
module Sharp {
  import opened Cubes
  import opened Counting
  import opened Families
  import opened SetOrder
  import opened Selections
  import opened Union
  import Containment

  /** Some set of the list holds the minterm. */
  ghost predicate Holds(S: seq<Sized>, m: Minterm) {
    exists j :: 0 <= j < |S| && In(m, S[j].c.cube)
  }

  ghost predicate InFull(s: Space, S: seq<Sized>) {
    forall i :: 0 <= i < |S| ==> S[i].c.cube <= Full(s)
  }

  /** No minterm lies in two sets of the list. */
  ghost predicate PairwiseDisjoint(s: Space, S: seq<Sized>) {
    forall i, j :: 0 <= i < |S| && 0 <= j < |S| && i != j ==> !Meets(s, S[i].c.cube, S[j].c.cube)
  }

  ghost predicate NoneVoid(s: Space, S: seq<Sized>) {
    forall i :: 0 <= i < |S| ==> NonVoid(s, S[i].c.cube)
  }

  /** The list holds exactly the minterms of a outside b. */
  ghost predicate Minus(s: Space, R: seq<Sized>, a: Cube, b: Cube) {
    forall m :: IsMinterm(s, m) ==> (Holds(R, m) <==> In(m, a) && !In(m, b))
  }

  /** Every non-void cube inside a that does not meet b lies in a cube of the list. */
  ghost predicate HoldsAllApart(s: Space, R: seq<Sized>, a: Cube, b: Cube) {
    forall x: Cube :: NonVoid(s, x) && x <= a && !Meets(s, x, b) ==> Inner(x, R)
  }

  /** A new cube; nobody has set the SIZE of its header. */
  method NewCube(c: Cube) returns (x: Sized)
    ensures x.c == Plain(c)
  {
    var size: nat := *;
    x := Sized(Plain(c), size);
  }

  // ---- sharp

  /** The cube a without the parts of b in one variable. */
  ghost predicate SharpPiece(c: Cube, a: Cube, b: Cube, v: nat) {
    forall p :: p in c <==> p in a && (p.v == v ==> p !in b)
  }

  /** The cubes so far are the pieces of the variables before n in which a leaves b. */
  ghost predicate SharpTo(s: Space, R: seq<Sized>, a: Cube, b: Cube, n: nat, vs: seq<nat>) {
    && n <= |s.sizes| && |vs| == |R|
    && (forall j :: 0 <= j < |R| ==> vs[j] < n && SharpPiece(R[j].c.cube, a, b, vs[j]))
    && (forall v: nat :: v < n && (a - b) * Mask(s, v) != {} ==> v in vs)
  }

  /** What b leaves of a, one largest cube for every variable. */
  method SharpCubes(s: Space, x: Sized, b: Cube) returns (R: seq<Sized>)
    requires x.c.cube <= Full(s) && b <= Full(s)
    ensures Minus(s, R, x.c.cube, b) && InFull(s, R) && HoldsAllApart(s, R, x.c.cube, b)
  {
    hide Minus, Full, SharpTo, Holds, InFull, SharpPiece, HoldsAllApart;
    var a := x.c.cube;
    if !Meets(s, a, b) {
      R := [x];
      Untouched(s, x, b);
      UntouchedApart(s, x, b);
      return;
    }
    R := [];
    ghost var vs: seq<nat> := [];
    var d := a - b;
    var v := 0;
    SharpStart(s, a, b);
    while v < |s.sizes|
      invariant 0 <= v <= |s.sizes| && SharpTo(s, R, a, b, v, vs)
    {
      var temp := d * Mask(s, v);
      if temp != {} {
        SharpNew(s, R, a, b, v, vs, temp + (a - Mask(s, v)));
        var piece := NewCube(temp + (a - Mask(s, v)));
        SharpAdd(s, R, a, b, v, vs, piece);
        R, vs := R + [piece], vs + [v];
      } else {
        SharpSkip(s, R, a, b, v, vs);
      }
      v := v + 1;
    }
    SharpMinus(s, R, a, b, vs);
    SharpApart(s, R, a, b, vs);
  }

  lemma UntouchedApart(s: Space, x: Sized, b: Cube)
    ensures HoldsAllApart(s, [x], x.c.cube, b)
  {
    hide NonVoid, Meets;
    forall y: Cube | y <= x.c.cube
      ensures Inner(y, [x])
    {
      assert y <= [x][0].c.cube;
    }
  }

  /** A cube apart from b lies in the piece of a variable in which they clash. */
  lemma SharpApart(s: Space, R: seq<Sized>, a: Cube, b: Cube, vs: seq<nat>)
    requires SharpTo(s, R, a, b, |s.sizes|, vs) && a <= Full(s)
    ensures HoldsAllApart(s, R, a, b)
  {
    hide Mask, SharpPiece, Full;
    forall x: Cube | NonVoid(s, x) && x <= a && !Meets(s, x, b)
      ensures Inner(x, R)
    {
      var v := Member(Clashes(s, x, b));
      var q := Member(x * Mask(s, v));
      assert q !in x * b * Mask(s, v);
      assert q in (a - b) * Mask(s, v);
      var j :| 0 <= j < |vs| && vs[j] == v;
      PieceHolds(s, R[j].c.cube, a, b, v, x);
    }
  }

  lemma PieceHolds(s: Space, c: Cube, a: Cube, b: Cube, v: nat, x: Cube)
    requires SharpPiece(c, a, b, v) && v < |s.sizes| && x <= a <= Full(s) && x * b * Mask(s, v) == {}
    ensures x <= c
  {
    forall p | p in x
      ensures p in c
    {
      assert p in Full(s) && p !in x * b * Mask(s, v);
    }
  }

  lemma Untouched(s: Space, x: Sized, b: Cube)
    requires !Meets(s, x.c.cube, b) && x.c.cube <= Full(s)
    ensures Minus(s, [x], x.c.cube, b) && InFull(s, [x])
  {
    hide Meets, Full, In;
    forall m | IsMinterm(s, m)
      ensures Holds([x], m) <==> In(m, x.c.cube) && !In(m, b)
    {
      MeetsIffCommonMinterm(s, x.c.cube, b);
      if In(m, x.c.cube) {
        assert In(m, [x][0].c.cube);
      }
    }
  }

  lemma SharpStart(s: Space, a: Cube, b: Cube)
    ensures SharpTo(s, [], a, b, 0, [])
  {
  }

  lemma SharpNew(s: Space, R: seq<Sized>, a: Cube, b: Cube, v: nat, vs: seq<nat>, c: Cube)
    requires v < |s.sizes| && a <= Full(s) && c == (a - b) * Mask(s, v) + (a - Mask(s, v))
    ensures SharpPiece(c, a, b, v)
  {
    forall p
      ensures p in c <==> p in a && (p.v == v ==> p !in b)
    {
      if p in a {
        assert p in Full(s);
      }
    }
  }

  lemma SharpAdd(s: Space, R: seq<Sized>, a: Cube, b: Cube, v: nat, vs: seq<nat>, x: Sized)
    requires v < |s.sizes| && SharpTo(s, R, a, b, v, vs) && SharpPiece(x.c.cube, a, b, v)
    ensures SharpTo(s, R + [x], a, b, v + 1, vs + [v])
  {
    hide SharpPiece, Mask;
    forall u: nat | u < v + 1 && (a - b) * Mask(s, u) != {}
      ensures u in vs + [v]
    {
      if u < v {
        assert u in vs;
      } else {
        assert (vs + [v])[|vs|] == u;
      }
    }
  }

  lemma SharpSkip(s: Space, R: seq<Sized>, a: Cube, b: Cube, v: nat, vs: seq<nat>)
    requires v < |s.sizes| && SharpTo(s, R, a, b, v, vs) && (a - b) * Mask(s, v) == {}
    ensures SharpTo(s, R, a, b, v + 1, vs)
  {
    hide SharpPiece, Mask;
  }

  lemma SharpMinus(s: Space, R: seq<Sized>, a: Cube, b: Cube, vs: seq<nat>)
    requires SharpTo(s, R, a, b, |s.sizes|, vs) && a <= Full(s)
    ensures Minus(s, R, a, b) && InFull(s, R)
  {
    hide Full, Mask;
    forall m | IsMinterm(s, m)
      ensures Holds(R, m) <==> In(m, a) && !In(m, b)
    {
      if Holds(R, m) {
        var j :| 0 <= j < |R| && In(m, R[j].c.cube);
        assert Part(vs[j], m[vs[j]]) in R[j].c.cube;
      }
      if In(m, a) && !In(m, b) {
        var v :| 0 <= v < |m| && Part(v, m[v]) !in b;
        LeavesPart(s, a, b, m, v);
        var j :| 0 <= j < |vs| && vs[j] == v;
        assert In(m, R[j].c.cube);
      }
    }
    forall i | 0 <= i < |R|
      ensures R[i].c.cube <= Full(s)
    {
      assert SharpPiece(R[i].c.cube, a, b, vs[i]);
      assert R[i].c.cube <= a;
    }
  }

  lemma LeavesPart(s: Space, a: Cube, b: Cube, m: Minterm, v: nat)
    requires IsMinterm(s, m) && In(m, a) && v < |m| && Part(v, m[v]) !in b
    ensures (a - b) * Mask(s, v) != {}
  {
    assert Part(v, m[v]) in (a - b) * Mask(s, v);
  }

  // ---- disjoint sharp

  /** Outside b in variable v, inside b in the variables before it. */
  ghost predicate DsharpPiece(c: Cube, a: Cube, b: Cube, v: nat) {
    forall p :: p in c <==> p in a && (p.v == v ==> p !in b) && (p.v < v ==> p in b)
  }

  ghost predicate DsharpTo(s: Space, R: seq<Sized>, a: Cube, b: Cube, n: nat, vs: seq<nat>) {
    && n <= |s.sizes| && |vs| == |R|
    && (forall j :: 0 <= j < |R| ==>
        vs[j] < n && (a - b) * Mask(s, vs[j]) != {} && DsharpPiece(R[j].c.cube, a, b, vs[j]))
    && (forall i, j :: 0 <= i < j < |R| ==> vs[i] < vs[j])
    && (forall v: nat :: v < n && (a - b) * Mask(s, v) != {} ==> v in vs)
  }

  /** The mask holds the variables before n in which a leaves b. */
  ghost predicate MaskTo(s: Space, mask: Cube, a: Cube, b: Cube, n: nat) {
    forall p :: p in mask <==> p in Full(s) && p.v < n && (a - b) * Mask(s, p.v) != {}
  }

  /** What the cubes of a sharp promise. */
  ghost predicate Split(s: Space, R: seq<Sized>, a: Cube, b: Cube) {
    && Minus(s, R, a, b) && InFull(s, R) && PairwiseDisjoint(s, R)
    && (NonVoid(s, a) ==> NoneVoid(s, R))
    && (forall j :: 0 <= j < |R| ==> R[j].c.cube <= a)
  }

  /** What b leaves of a, in cubes that do not meet. */
  method Dsharp(s: Space, x: Sized, b: Cube) returns (R: seq<Sized>)
    requires x.c.cube <= Full(s) && b <= Full(s)
    ensures Split(s, R, x.c.cube, b)
  {
    hide Split, Full, Mask, DsharpTo, MaskTo;
    var a := x.c.cube;
    if !Meets(s, a, b) {
      R := [x];
      UntouchedSplit(s, x, b);
      return;
    }
    R := [];
    ghost var vs: seq<nat> := [];
    var diff, and := a - b, a * b;
    var mask: Cube := {};
    var v := 0;
    DsharpStart(s, a, b);
    while v < |s.sizes|
      invariant 0 <= v <= |s.sizes| && DsharpTo(s, R, a, b, v, vs) && MaskTo(s, mask, a, b, v)
    {
      if diff * Mask(s, v) != {} {
        var temp := diff * Mask(s, v);
        temp := temp + and * mask;
        ghost var before := mask;
        mask := mask + Mask(s, v);
        temp := temp + (a - mask);
        DsharpNew(s, a, b, v, before, temp);
        var piece := NewCube(temp);
        DsharpAdd(s, R, a, b, v, vs, piece);
        MaskAdd(s, before, a, b, v);
        R, vs := R + [piece], vs + [v];
      } else {
        DsharpSkip(s, R, a, b, v, vs, mask);
      }
      v := v + 1;
    }
    DsharpSplit(s, R, a, b, vs);
  }

  lemma UntouchedSplit(s: Space, x: Sized, b: Cube)
    requires !Meets(s, x.c.cube, b) && x.c.cube <= Full(s)
    ensures Split(s, [x], x.c.cube, b)
  {
    hide Full, Meets, Minus, InFull, NonVoid;
    Untouched(s, x, b);
  }

  lemma DsharpStart(s: Space, a: Cube, b: Cube)
    ensures DsharpTo(s, [], a, b, 0, []) && MaskTo(s, {}, a, b, 0)
  {
  }

  lemma DsharpNew(s: Space, a: Cube, b: Cube, v: nat, mask: Cube, c: Cube)
    requires v < |s.sizes| && a <= Full(s) && MaskTo(s, mask, a, b, v)
    requires c == (a - b) * Mask(s, v) + (a * b) * mask + (a - (mask + Mask(s, v)))
    ensures DsharpPiece(c, a, b, v)
  {
    forall p
      ensures p in c <==> p in a && (p.v == v ==> p !in b) && (p.v < v ==> p in b)
    {
      if p in a {
        assert p in Full(s);
        if p.v < v && p !in mask {
          InBoth(s, a, b, p);
        }
      }
    }
  }

  lemma InBoth(s: Space, a: Cube, b: Cube, p: Part)
    requires p in Full(s) && p in a && (a - b) * Mask(s, p.v) == {}
    ensures p in b
  {
    assert p !in (a - b) * Mask(s, p.v);
    assert p in Mask(s, p.v);
  }

  lemma MaskAdd(s: Space, mask: Cube, a: Cube, b: Cube, v: nat)
    requires v < |s.sizes| && MaskTo(s, mask, a, b, v) && (a - b) * Mask(s, v) != {}
    ensures MaskTo(s, mask + Mask(s, v), a, b, v + 1)
  {
  }

  lemma DsharpAdd(s: Space, R: seq<Sized>, a: Cube, b: Cube, v: nat, vs: seq<nat>, x: Sized)
    requires v < |s.sizes| && DsharpTo(s, R, a, b, v, vs) && DsharpPiece(x.c.cube, a, b, v)
    requires (a - b) * Mask(s, v) != {}
    ensures DsharpTo(s, R + [x], a, b, v + 1, vs + [v])
  {
    hide DsharpPiece, Mask;
    forall u: nat | u < v + 1 && (a - b) * Mask(s, u) != {}
      ensures u in vs + [v]
    {
      if u < v {
        assert u in vs;
      } else {
        assert (vs + [v])[|vs|] == u;
      }
    }
  }

  lemma DsharpSkip(s: Space, R: seq<Sized>, a: Cube, b: Cube, v: nat, vs: seq<nat>, mask: Cube)
    requires v < |s.sizes| && DsharpTo(s, R, a, b, v, vs) && (a - b) * Mask(s, v) == {} && MaskTo(s, mask, a, b, v)
    ensures DsharpTo(s, R, a, b, v + 1, vs) && MaskTo(s, mask, a, b, v + 1)
  {
    hide DsharpPiece, Mask;
  }

  lemma DsharpSplit(s: Space, R: seq<Sized>, a: Cube, b: Cube, vs: seq<nat>)
    requires DsharpTo(s, R, a, b, |s.sizes|, vs) && a <= Full(s) && Meets(s, a, b)
    ensures Split(s, R, a, b)
  {
    hide Full, Mask, Meets, NonVoid, Minus, DsharpPiece;
    forall m | IsMinterm(s, m)
      ensures Holds(R, m) <==> In(m, a) && !In(m, b)
    {
      DsharpHolds(s, R, a, b, vs, m);
    }
    MinusIntro(s, R, a, b);
    forall i, j | 0 <= i < |R| && 0 <= j < |R| && i != j
      ensures !Meets(s, R[i].c.cube, R[j].c.cube)
    {
      if i < j {
        PiecesApart(s, R[i].c.cube, R[j].c.cube, a, b, vs[i], vs[j]);
      } else {
        PiecesApart(s, R[j].c.cube, R[i].c.cube, a, b, vs[j], vs[i]);
        assert R[i].c.cube * R[j].c.cube == R[j].c.cube * R[i].c.cube;
        MeetsSymmetric(s, R[i].c.cube, R[j].c.cube);
      }
    }
    forall j | 0 <= j < |R|
      ensures R[j].c.cube <= a && NonVoid(s, R[j].c.cube)
    {
      PieceNonVoid(s, R[j].c.cube, a, b, vs[j]);
    }
  }

  lemma MinusIntro(s: Space, R: seq<Sized>, a: Cube, b: Cube)
    requires forall m :: IsMinterm(s, m) ==> (Holds(R, m) <==> In(m, a) && !In(m, b))
    ensures Minus(s, R, a, b)
  {
  }

  lemma MeetsSymmetric(s: Space, a: Cube, b: Cube)
    requires a * b == b * a
    ensures Meets(s, a, b) <==> Meets(s, b, a)
  {
    assert Clashes(s, a, b) == Clashes(s, b, a);
  }

  lemma DsharpHolds(s: Space, R: seq<Sized>, a: Cube, b: Cube, vs: seq<nat>, m: Minterm)
    requires DsharpTo(s, R, a, b, |s.sizes|, vs) && IsMinterm(s, m)
    ensures Holds(R, m) <==> In(m, a) && !In(m, b)
  {
    hide Mask;
    if Holds(R, m) {
      var j :| 0 <= j < |R| && In(m, R[j].c.cube);
      assert Part(vs[j], m[vs[j]]) in R[j].c.cube;
    }
    if In(m, a) && !In(m, b) {
      var v := FirstOutside(m, b);
      LeavesPart(s, a, b, m, v);
      var j :| 0 <= j < |vs| && vs[j] == v;
      assert In(m, R[j].c.cube);
    }
  }

  lemma FirstOutside(m: Minterm, b: Cube) returns (v: nat)
    requires !In(m, b)
    ensures v < |m| && Part(v, m[v]) !in b && forall u :: 0 <= u < v ==> Part(u, m[u]) in b
  {
    v := 0;
    while Part(v, m[v]) in b
      invariant v < |m| && forall u :: 0 <= u < v ==> Part(u, m[u]) in b
      decreases |m| - v
    {
      if v + 1 == |m| {
        assert In(m, b);
      }
      v := v + 1;
    }
  }

  lemma PiecesApart(s: Space, c: Cube, d: Cube, a: Cube, b: Cube, u: nat, v: nat)
    requires DsharpPiece(c, a, b, u) && DsharpPiece(d, a, b, v) && u < v < |s.sizes|
    ensures !Meets(s, c, d)
  {
    assert c * d * Mask(s, u) == {};
    assert u in Clashes(s, c, d);
  }

  lemma PieceNonVoid(s: Space, c: Cube, a: Cube, b: Cube, v: nat)
    requires DsharpPiece(c, a, b, v) && v < |s.sizes| && Meets(s, a, b) && (a - b) * Mask(s, v) != {}
    ensures c <= a && NonVoid(s, c)
  {
    forall u | 0 <= u < |s.sizes|
      ensures c * Mask(s, u) != {}
    {
      assert u !in Clashes(s, a, b);
      var p := Member(if u == v then (a - b) * Mask(s, v) else a * b * Mask(s, u));
      assert p in c * Mask(s, u);
    }
  }

  // ---- covers

  /** R holds what b leaves of the first n sets of T, without overlap, and every set of R
      lies in one of those. */
  ghost predicate CutTo(s: Space, T: seq<Sized>, n: nat, b: Cube, R: seq<Sized>) {
    && n <= |T|
    && (forall m :: IsMinterm(s, m) ==> (Holds(R, m) <==> Holds(T[..n], m) && !In(m, b)))
    && InFull(s, R) && PairwiseDisjoint(s, R) && (NoneVoid(s, T) ==> NoneVoid(s, R))
    && (forall j :: 0 <= j < |R| ==> Inner(R[j].c.cube, T[..n]))
  }

  /** Take b from every set of a disjoint family. */
  method Cb1Dsharp(s: Space, T: seq<Sized>, b: Cube) returns (R: seq<Sized>)
    requires InFull(s, T) && PairwiseDisjoint(s, T) && b <= Full(s)
    ensures CutTo(s, T, |T|, b, R)
  {
    hide InFull, PairwiseDisjoint, Full, CutTo, Split, AllInner;
    R := [];
    CutStart(s, T, b);
    var i := 0;
    while i < |T|
      invariant 0 <= i <= |T| && CutTo(s, T, i, b, R)
    {
      InFullAt(s, T, i);
      var D := Dsharp(s, T[i], b);
      var next := SfUnion(R, D);
      CutNext(s, T, i, b, R, D, next);
      R := next;
      i := i + 1;
    }
  }

  lemma InFullAt(s: Space, T: seq<Sized>, i: nat)
    requires InFull(s, T) && i < |T|
    ensures T[i].c.cube <= Full(s)
  {
  }

  lemma CutStart(s: Space, T: seq<Sized>, b: Cube)
    ensures CutTo(s, T, 0, b, [])
  {
  }

  lemma CutNext(s: Space, T: seq<Sized>, i: nat, b: Cube, R: seq<Sized>, D: seq<Sized>, next: seq<Sized>)
    requires i < |T| && PairwiseDisjoint(s, T) && CutTo(s, T, i, b, R) && Split(s, D, T[i].c.cube, b)
    requires multiset(next) <= multiset(R) + multiset(D) && AllInner(R, next) && AllInner(D, next)
    ensures CutTo(s, T, i + 1, b, next)
  {
    hide InFull, PairwiseDisjoint, NoneVoid, Minus, AllInner, Inner, Full, Meets, Holds, NonVoid, In;
    assert multiset(R + D) == multiset(R) + multiset(D);
    JoinDisjoint(s, T, i, R, D);
    FewerDisjoint(s, R + D, next);
    FewerFacts(s, R, D, next);
    forall m | IsMinterm(s, m)
      ensures Holds(next, m) <==> Holds(T[..i + 1], m) && !In(m, b)
    {
      UnionHolds(R, D, next, m);
      HoldsNext(T, i, m);
      MinusAt(s, D, T[i].c.cube, b, m);
    }
    if NoneVoid(s, T) {
      NoneVoidAt(s, T, i);
    }
    forall j | 0 <= j < |next|
      ensures Inner(next[j].c.cube, T[..i + 1])
    {
      CutInner(T, i, R, D, next, j);
    }
  }

  lemma NoneVoidAt(s: Space, T: seq<Sized>, i: nat)
    requires NoneVoid(s, T) && i < |T|
    ensures NonVoid(s, T[i].c.cube)
  {
  }

  lemma MinusAt(s: Space, R: seq<Sized>, a: Cube, b: Cube, m: Minterm)
    requires Minus(s, R, a, b) && IsMinterm(s, m)
    ensures Holds(R, m) <==> In(m, a) && !In(m, b)
  {
  }

  lemma HoldsNext(T: seq<Sized>, i: nat, m: Minterm)
    requires i < |T|
    ensures Holds(T[..i + 1], m) <==> Holds(T[..i], m) || In(m, T[i].c.cube)
  {
    hide In;
    if Holds(T[..i], m) {
      var j :| 0 <= j < i && In(m, T[..i][j].c.cube);
      assert In(m, T[..i + 1][j].c.cube);
    }
    if In(m, T[i].c.cube) {
      assert In(m, T[..i + 1][i].c.cube);
    }
    if Holds(T[..i + 1], m) {
      var j :| 0 <= j < i + 1 && In(m, T[..i + 1][j].c.cube);
      if j < i {
        assert In(m, T[..i][j].c.cube);
      }
    }
  }

  lemma UnionHolds(R: seq<Sized>, D: seq<Sized>, next: seq<Sized>, m: Minterm)
    requires multiset(next) <= multiset(R) + multiset(D) && AllInner(R, next) && AllInner(D, next)
    ensures Holds(next, m) <==> Holds(R, m) || Holds(D, m)
  {
    hide In;
    if Holds(next, m) {
      var j :| 0 <= j < |next| && In(m, next[j].c.cube);
      assert next[j] in multiset(next);
      if next[j] in multiset(R) {
        assert next[j] in R;
      } else {
        assert next[j] in D;
      }
    }
    if Holds(R, m) {
      var j :| 0 <= j < |R| && In(m, R[j].c.cube);
      InnerHolds(R[j].c.cube, next, m);
    }
    if Holds(D, m) {
      var j :| 0 <= j < |D| && In(m, D[j].c.cube);
      InnerHolds(D[j].c.cube, next, m);
    }
  }

  lemma InnerHolds(c: Cube, S: seq<Sized>, m: Minterm)
    requires Inner(c, S) && In(m, c)
    ensures Holds(S, m)
  {
    var j :| 0 <= j < |S| && c <= S[j].c.cube;
    assert In(m, S[j].c.cube);
  }

  lemma FewerFacts(s: Space, R: seq<Sized>, D: seq<Sized>, next: seq<Sized>)
    requires multiset(next) <= multiset(R) + multiset(D) && InFull(s, R) && InFull(s, D)
    ensures InFull(s, next)
    ensures NoneVoid(s, R) && NoneVoid(s, D) ==> NoneVoid(s, next)
  {
    hide Full, NonVoid;
    forall i | 0 <= i < |next|
      ensures next[i].c.cube <= Full(s) && (NoneVoid(s, R) && NoneVoid(s, D) ==> NonVoid(s, next[i].c.cube))
    {
      assert next[i] in multiset(next);
      assert next[i] in R || next[i] in D;
    }
  }

  /** What is cut from one set meets nothing that is cut from another. */
  lemma JoinDisjoint(s: Space, T: seq<Sized>, i: nat, R: seq<Sized>, D: seq<Sized>)
    requires i < |T| && PairwiseDisjoint(s, T) && PairwiseDisjoint(s, R) && PairwiseDisjoint(s, D)
    requires forall j :: 0 <= j < |R| ==> Inner(R[j].c.cube, T[..i])
    requires forall j :: 0 <= j < |D| ==> D[j].c.cube <= T[i].c.cube
    ensures PairwiseDisjoint(s, R + D)
  {
    hide Meets, Inner;
    forall x, y | 0 <= x < |R| && 0 <= y < |D|
      ensures !Meets(s, R[x].c.cube, D[y].c.cube) && !Meets(s, D[y].c.cube, R[x].c.cube)
    {
      CutsApart(s, T, i, R[x].c.cube, D[y].c.cube);
    }
    DisjointJoin(s, R, D);
  }

  lemma CutsApart(s: Space, T: seq<Sized>, i: nat, c: Cube, d: Cube)
    requires i < |T| && PairwiseDisjoint(s, T) && Inner(c, T[..i]) && d <= T[i].c.cube
    ensures !Meets(s, c, d) && !Meets(s, d, c)
  {
    hide Meets;
    var j :| 0 <= j < i && c <= T[..i][j].c.cube;
    assert !Meets(s, T[j].c.cube, T[i].c.cube) && !Meets(s, T[i].c.cube, T[j].c.cube);
    if Meets(s, c, d) {
      MeetsMonotone(s, c, d, T[j].c.cube, T[i].c.cube);
    }
    if Meets(s, d, c) {
      MeetsMonotone(s, d, c, T[i].c.cube, T[j].c.cube);
    }
  }

  lemma DisjointJoin(s: Space, R: seq<Sized>, D: seq<Sized>)
    requires PairwiseDisjoint(s, R) && PairwiseDisjoint(s, D)
    requires forall x, y :: 0 <= x < |R| && 0 <= y < |D| ==>
      !Meets(s, R[x].c.cube, D[y].c.cube) && !Meets(s, D[y].c.cube, R[x].c.cube)
    ensures PairwiseDisjoint(s, R + D)
  {
    hide Meets;
  }

  lemma FewerDisjoint(s: Space, C: seq<Sized>, next: seq<Sized>)
    requires PairwiseDisjoint(s, C) && multiset(next) <= multiset(C)
    ensures PairwiseDisjoint(s, next)
  {
    hide Meets;
    forall i, j | 0 <= i < |next| && 0 <= j < |next| && i != j
      ensures !Meets(s, next[i].c.cube, next[j].c.cube)
    {
      var i', j' := PlacesIn(C, next, i, j);
    }
  }

  lemma CutInner(T: seq<Sized>, i: nat, R: seq<Sized>, D: seq<Sized>, next: seq<Sized>, j: nat)
    requires i < |T| && j < |next| && multiset(next) <= multiset(R) + multiset(D)
    requires forall k :: 0 <= k < |R| ==> Inner(R[k].c.cube, T[..i])
    requires forall k :: 0 <= k < |D| ==> D[k].c.cube <= T[i].c.cube
    ensures Inner(next[j].c.cube, T[..i + 1])
  {
    assert next[j] in multiset(next);
    if next[j] in multiset(R) {
      assert next[j] in R;
      var k :| 0 <= k < |R| && R[k] == next[j];
      assert Inner(R[k].c.cube, T[..i]);
      var t :| 0 <= t < i && R[k].c.cube <= T[..i][t].c.cube;
      assert next[j].c.cube <= T[..i + 1][t].c.cube;
    } else {
      assert next[j] in D;
      assert next[j].c.cube <= T[..i + 1][i].c.cube;
    }
  }

  /** Y holds exactly what the first n sets of T leave of c, without overlap. */
  ghost predicate LeftOf(s: Space, c: Cube, T: seq<Sized>, n: nat, Y: seq<Sized>) {
    && n <= |T|
    && (forall m :: IsMinterm(s, m) ==> (Holds(Y, m) <==> In(m, c) && !Holds(T[..n], m)))
    && InFull(s, Y) && PairwiseDisjoint(s, Y) && (NonVoid(s, c) ==> NoneVoid(s, Y))
  }

  /** What a cover leaves of a cube, in cubes that do not meet. */
  method CbDsharp(s: Space, x: Sized, T: seq<Sized>) returns (Y: seq<Sized>)
    requires x.c.cube <= Full(s) && InFull(s, T)
    ensures LeftOf(s, x.c.cube, T, |T|, Y)
  {
    hide Full, InFull, LeftOf, CutTo;
    LeftStart(s, x, T);
    if |T| == 0 {
      return [x];
    }
    Y := [x];
    var i := 0;
    while i < |T|
      invariant 0 <= i <= |T| && LeftOf(s, x.c.cube, T, i, Y)
    {
      InFullAt(s, T, i);
      LeftParts(s, x.c.cube, T, i, Y);
      var Y1 := Cb1Dsharp(s, Y, T[i].c.cube);
      LeftNext(s, x.c.cube, T, i, Y, Y1);
      Y := Y1;
      i := i + 1;
    }
  }

  lemma LeftStart(s: Space, x: Sized, T: seq<Sized>)
    requires x.c.cube <= Full(s)
    ensures LeftOf(s, x.c.cube, T, 0, [x])
  {
    hide Full, NonVoid, Meets;
    forall m | IsMinterm(s, m)
      ensures Holds([x], m) <==> In(m, x.c.cube) && !Holds(T[..0], m)
    {
      if In(m, x.c.cube) {
        assert In(m, [x][0].c.cube);
      }
    }
  }

  lemma LeftParts(s: Space, c: Cube, T: seq<Sized>, i: nat, Y: seq<Sized>)
    requires LeftOf(s, c, T, i, Y)
    ensures InFull(s, Y) && PairwiseDisjoint(s, Y)
  {
    hide InFull, PairwiseDisjoint;
  }

  lemma LeftNext(s: Space, c: Cube, T: seq<Sized>, i: nat, Y: seq<Sized>, Y1: seq<Sized>)
    requires i < |T| && LeftOf(s, c, T, i, Y) && CutTo(s, Y, |Y|, T[i].c.cube, Y1)
    ensures LeftOf(s, c, T, i + 1, Y1)
  {
    hide InFull, PairwiseDisjoint, NoneVoid, NonVoid, Holds, In, Inner;
    assert Y[..|Y|] == Y;
    forall m | IsMinterm(s, m)
      ensures Holds(Y1, m) <==> In(m, c) && !Holds(T[..i + 1], m)
    {
      HoldsNext(T, i, m);
    }
  }

  /** R holds exactly the minterms of the first n sets of A, without overlap. */
  ghost predicate DisjointTo(s: Space, A: seq<Sized>, n: nat, R: seq<Sized>) {
    && n <= |A|
    && (forall m :: IsMinterm(s, m) ==> (Holds(R, m) <==> Holds(A[..n], m)))
    && InFull(s, R) && PairwiseDisjoint(s, R) && (NoneVoid(s, A) ==> NoneVoid(s, R))
  }

  /** The same minterms in cubes that do not meet. */
  method MakeDisjoint(s: Space, A: seq<Sized>) returns (R: seq<Sized>)
    requires InFull(s, A)
    ensures forall m :: IsMinterm(s, m) ==> (Holds(R, m) <==> Holds(A, m))
    ensures InFull(s, R) && PairwiseDisjoint(s, R) && (NoneVoid(s, A) ==> NoneVoid(s, R))
  {
    hide Full, InFull, PairwiseDisjoint, NoneVoid, Holds, In, LeftOf, DisjointTo;
    R := [];
    DisjointStart(s, A);
    var i := 0;
    while i < |A|
      invariant 0 <= i <= |A| && DisjointTo(s, A, i, R)
    {
      InFullAt(s, A, i);
      DisjointParts(s, A, i, R);
      var new_ := CbDsharp(s, A[i], R);
      DisjointNext(s, A, i, R, new_);
      R := R + new_;
      i := i + 1;
    }
    DisjointParts(s, A, i, R);
    assert A[..i] == A;
  }

  lemma DisjointStart(s: Space, A: seq<Sized>)
    ensures DisjointTo(s, A, 0, [])
  {
  }

  lemma DisjointParts(s: Space, A: seq<Sized>, n: nat, R: seq<Sized>)
    requires DisjointTo(s, A, n, R)
    ensures InFull(s, R) && PairwiseDisjoint(s, R) && (NoneVoid(s, A) ==> NoneVoid(s, R))
    ensures forall m :: IsMinterm(s, m) ==> (Holds(R, m) <==> Holds(A[..n], m))
  {
    hide InFull, PairwiseDisjoint, NoneVoid, Holds;
  }

  lemma DisjointNext(s: Space, A: seq<Sized>, i: nat, R: seq<Sized>, new_: seq<Sized>)
    requires i < |A| && DisjointTo(s, A, i, R) && LeftOf(s, A[i].c.cube, R, |R|, new_)
    ensures DisjointTo(s, A, i + 1, R + new_)
  {
    hide InFull, PairwiseDisjoint, NoneVoid, NonVoid, Holds, In, Meets;
    assert R[..|R|] == R;
    forall x, y | 0 <= x < |R| && 0 <= y < |new_|
      ensures !Meets(s, R[x].c.cube, new_[y].c.cube) && !Meets(s, new_[y].c.cube, R[x].c.cube)
    {
      LeftApart(s, A[i].c.cube, R, new_, x, y);
    }
    DisjointJoin(s, R, new_);
    assert multiset(R + new_) == multiset(R) + multiset(new_);
    FewerFacts(s, R, new_, R + new_);
    forall m | IsMinterm(s, m)
      ensures Holds(R + new_, m) <==> Holds(A[..i + 1], m)
    {
      HoldsNext(A, i, m);
      HoldsJoin(R, new_, m);
    }
    if NoneVoid(s, A) {
      NoneVoidAt(s, A, i);
    }
  }

  lemma HoldsJoin(R: seq<Sized>, D: seq<Sized>, m: Minterm)
    ensures Holds(R + D, m) <==> Holds(R, m) || Holds(D, m)
  {
    hide In;
    if j :| 0 <= j < |R| && In(m, R[j].c.cube) {
      assert In(m, (R + D)[j].c.cube);
    }
    if j :| 0 <= j < |D| && In(m, D[j].c.cube) {
      assert In(m, (R + D)[|R| + j].c.cube);
    }
  }

  lemma HoldsAt(S: seq<Sized>, j: nat, m: Minterm)
    requires j < |S|
    ensures In(m, S[j].c.cube) ==> Holds(S, m)
  {
  }

  lemma LeftApart(s: Space, c: Cube, R: seq<Sized>, Y: seq<Sized>, x: nat, y: nat)
    requires LeftOf(s, c, R, |R|, Y) && x < |R| && y < |Y|
    ensures !Meets(s, R[x].c.cube, Y[y].c.cube) && !Meets(s, Y[y].c.cube, R[x].c.cube)
  {
    hide In, Meets, NonVoid, InFull, PairwiseDisjoint, Holds;
    var a, b := R[x].c.cube, Y[y].c.cube;
    MeetsIffCommonMinterm(s, a, b);
    MeetsIffCommonMinterm(s, b, a);
    assert R[..|R|] == R;
    forall m | IsMinterm(s, m)
      ensures !(In(m, a) && In(m, b))
    {
      HoldsAt(R, x, m);
      HoldsAt(Y, y, m);
    }
  }

  // ---- intersection of covers, and the sharp against a cover

  /** P holds the common cubes of the pairs before row i, and those of row i before j, and
      no minterms other than common ones. */
  ghost predicate Crossed(s: Space, A: Cover, B: Cover, i: nat, j: nat, P: Cover) {
    && Valid(s, P)
    && (forall m :: IsMinterm(s, m) && Has(P, m) ==> Has(A, m) && Has(B, m))
    && (forall a, b | 0 <= a < |A| && 0 <= b < |B| && (a < i || (a == i && b < j)) ::
          Meets(s, A[a].cube, B[b].cube) ==> Within(A[a].cube * B[b].cube, P))
  }

  /** What two cubes of the lists have in common lies in a cube of R. */
  ghost predicate HoldsProducts(s: Space, A: Cover, B: Cover, R: Cover) {
    forall a, b :: 0 <= a < |A| && 0 <= b < |B| && Meets(s, A[a].cube, B[b].cube) ==> Within(A[a].cube * B[b].cube, R)
  }

  /** The intersection of two covers, with containment after every 500 cubes. */
  method CvIntersect(s: Space, A: Cover, B: Cover) returns (R: Cover)
    requires Valid(s, A) && Valid(s, B)
    ensures Valid(s, R) && Ordered(R) && HoldsProducts(s, A, B, R)
    ensures forall m :: IsMinterm(s, m) ==> (Has(R, m) <==> Has(A, m) && Has(B, m))
  {
    hide Valid, Crossed, Ordered, Has, Meets, Full, HoldsProducts;
    var saved, Tsave, T := false, [], [];
    CrossStart(s, A, B, Tsave + T);
    NothingOrdered();
    var i := 0;
    while i < |A|
      invariant 0 <= i <= |A| && Crossed(s, A, B, i, 0, Tsave + T) && Ordered(Tsave) && (!saved ==> Tsave == [])
    {
      var j := 0;
      while j < |B|
        invariant 0 <= j <= |B| && Crossed(s, A, B, i, j, Tsave + T) && Ordered(Tsave) && (!saved ==> Tsave == [])
      {
        if Meets(s, A[i].cube, B[j].cube) {
          CrossNew(s, A, B, i, j, Tsave + T);
          T := T + [Plain(A[i].cube * B[j].cube)];
          assert Tsave + T == Tsave + T[..|T| - 1] + [Plain(A[i].cube * B[j].cube)];
          if |T| >= 500 {
            Tsave := Save(s, A, B, i, j + 1, saved, Tsave, T);
            saved, T := true, [];
            assert Tsave + T == Tsave;
          }
        } else {
          CrossSkip(s, A, B, i, j, Tsave + T);
        }
        j := j + 1;
      }
      CrossRow(s, A, B, i, Tsave + T);
      i := i + 1;
    }
    R := Save(s, A, B, i, 0, saved, Tsave, T);
    CrossEnd(s, A, B, R);
  }

  /** Take the collected cubes into the result. */
  method Save(s: Space, ghost A: Cover, ghost B: Cover, ghost i: nat, ghost j: nat, saved: bool, Tsave: Cover, T: Cover)
      returns (R: Cover)
    requires Crossed(s, A, B, i, j, Tsave + T) && Ordered(Tsave) && (!saved ==> Tsave == [])
    ensures Crossed(s, A, B, i, j, R) && Ordered(R)
  {
    hide Valid, Crossed, Ordered, Inside, Containment.Antichain, Sorted;
    var C := Containment.SfContain(T);
    ContainedOrdered(C);
    if saved {
      R := CoverUnion(Tsave, C);
    } else {
      R := C;
      NothingInside(C);
    }
    Flushed(Tsave, T, C, R);
    CrossSame(s, A, B, i, j, Tsave + T, R);
  }

  lemma ContainedOrdered(C: Cover)
    requires Containment.Antichain(C) && Sorted(Stamped(C))
    ensures Ordered(C)
  {
  }

  lemma NothingOrdered()
    ensures Ordered([])
  {
  }

  lemma NothingInside(C: Cover)
    ensures Inside([], C) && Inside(C, C)
  {
    forall i | 0 <= i < |C|
      ensures Within(C[i].cube, C)
    {
      assert C[i].cube <= C[i].cube;
    }
  }

  lemma Flushed(Tsave: Cover, T: Cover, C: Cover, R: Cover)
    requires Inside(T, C) && Inside(C, R) && Inside(Tsave, R)
    requires (forall i :: 0 <= i < |C| ==> C[i] in T) && forall i :: 0 <= i < |R| ==> R[i] in Tsave || R[i] in C
    ensures Inside(Tsave + T, R) && forall i :: 0 <= i < |R| ==> R[i] in Tsave + T
  {
    hide Within;
    InsideTrans(T, C, R);
  }

  lemma CrossStart(s: Space, A: Cover, B: Cover, P: Cover)
    requires P == []
    ensures Crossed(s, A, B, 0, 0, P)
  {
  }

  lemma CrossSame(s: Space, A: Cover, B: Cover, i: nat, j: nat, P: Cover, R: Cover)
    requires Crossed(s, A, B, i, j, P) && Inside(P, R) && forall k :: 0 <= k < |R| ==> R[k] in P
    ensures Crossed(s, A, B, i, j, R)
  {
    hide In, Full, Inside, Has, Meets, Within;
    forall c | c in R
      ensures c in P
    {
      var k :| 0 <= k < |R| && R[k] == c;
    }
    SubcoverFacts(s, P, R);
    forall a, b | 0 <= a < |A| && 0 <= b < |B| && Within(A[a].cube * B[b].cube, P)
      ensures Within(A[a].cube * B[b].cube, R)
    {
      WithinInside(A[a].cube * B[b].cube, P, R);
    }
  }

  lemma CrossNew(s: Space, A: Cover, B: Cover, i: nat, j: nat, P: Cover)
    requires i < |A| && j < |B| && Crossed(s, A, B, i, j, P) && Valid(s, A)
    ensures Crossed(s, A, B, i, j + 1, P + [Plain(A[i].cube * B[j].cube)])
  {
    hide Full, Has, Meets, Within;
    var c := A[i].cube * B[j].cube;
    var N := P + [Plain(c)];
    WithinSnoc(P, c);
    ValidAt(s, A, i);
    forall m | IsMinterm(s, m)
      ensures Has(N, m) <==> Has(P, m) || (In(m, A[i].cube) && In(m, B[j].cube))
    {
      SnocHas(P, c, m);
      assert In(m, c) <==> In(m, A[i].cube) && In(m, B[j].cube);
    }
    CubeHas(s, A, i);
    CubeHas(s, B, j);
  }

  lemma WithinSnoc(P: Cover, c: Cube)
    ensures Within(c, P + [Plain(c)]) && forall x: Cube :: Within(x, P) ==> Within(x, P + [Plain(c)])
  {
    var N := P + [Plain(c)];
    assert c <= N[|P|].cube;
    forall x: Cube | Within(x, P)
      ensures Within(x, N)
    {
      var i :| 0 <= i < |P| && x <= P[i].cube;
      assert x <= N[i].cube;
    }
  }

  lemma CubeHas(s: Space, A: Cover, i: nat)
    requires i < |A|
    ensures forall m :: IsMinterm(s, m) && In(m, A[i].cube) ==> Has(A, m)
  {
  }

  lemma SnocHas(P: Cover, c: Cube, m: Minterm)
    ensures Has(P + [Plain(c)], m) <==> Has(P, m) || In(m, c)
  {
    hide In;
    var N := P + [Plain(c)];
    if k :| 0 <= k < |P| && In(m, P[k].cube) {
      assert In(m, N[k].cube);
    }
    if In(m, c) {
      assert In(m, N[|P|].cube);
    }
  }

  lemma CrossSkip(s: Space, A: Cover, B: Cover, i: nat, j: nat, P: Cover)
    requires i < |A| && j < |B| && Crossed(s, A, B, i, j, P) && !Meets(s, A[i].cube, B[j].cube)
    ensures Crossed(s, A, B, i, j + 1, P)
  {
    hide Has, Meets, Valid, Within;
  }

  lemma CrossRow(s: Space, A: Cover, B: Cover, i: nat, P: Cover)
    requires i < |A| && Crossed(s, A, B, i, |B|, P)
    ensures Crossed(s, A, B, i + 1, 0, P)
  {
    hide Has, Meets, Valid, Within;
  }

  lemma CrossEnd(s: Space, A: Cover, B: Cover, P: Cover)
    requires Crossed(s, A, B, |A|, 0, P)
    ensures Valid(s, P) && HoldsProducts(s, A, B, P)
    ensures forall m :: IsMinterm(s, m) ==> (Has(P, m) <==> Has(A, m) && Has(B, m))
  {
    hide Meets, Valid;
    forall m | IsMinterm(s, m) && Has(A, m) && Has(B, m)
      ensures Has(P, m)
    {
      var a :| 0 <= a < |A| && In(m, A[a].cube);
      var b :| 0 <= b < |B| && In(m, B[b].cube);
      MeetsIffCommonMinterm(s, A[a].cube, B[b].cube);
      var k :| 0 <= k < |P| && A[a].cube * B[b].cube <= P[k].cube;
      assert In(m, P[k].cube);
    }
  }

  /** Every non-void cube inside c that meets no cube of T lies in a cube of R. */
  ghost predicate HoldsApart(s: Space, R: Cover, c: Cube, T: Cover) {
    forall x: Cube :: NonVoid(s, x) && x <= c && ApartFrom(s, x, T) ==> Within(x, R)
  }

  ghost predicate ApartFrom(s: Space, x: Cube, T: Cover) {
    forall i :: 0 <= i < |T| ==> !Meets(s, x, T[i].cube)
  }

  /** What the cubes of T from first to last leave of c: half of them at a time. */
  method CbRecurSharp(s: Space, c: FCube, T: Cover, first: nat, last: nat) returns (R: Cover)
    requires c.cube <= Full(s) && Valid(s, T) && first <= last < |T|
    ensures Valid(s, R) && HoldsApart(s, R, c.cube, T[first..last + 1])
    ensures forall m :: IsMinterm(s, m) ==> (Has(R, m) <==> In(m, c.cube) && !Has(T[first..last + 1], m))
    decreases last - first
  {
    hide Full, Valid, Has, In, Minus, InFull, Ordered, HoldsApart, HoldsAllApart, HoldsProducts;
    if first == last {
      ValidAt(s, T, first);
      var S := SharpCubes(s, Stamp(c), T[first].cube);
      R := seq(|S|, i requires 0 <= i < |S| => S[i].c);
      SharpCover(s, c.cube, T, first, S, R);
      SharpCoverApart(s, c.cube, T, first, S, R);
    } else {
      var middle := (first + last) / 2;
      var left := CbRecurSharp(s, c, T, first, middle);
      var right := CbRecurSharp(s, c, T, middle + 1, last);
      R := CvIntersect(s, left, right);
      assert T[first..last + 1] == T[first..middle + 1] + T[middle + 1..last + 1];
      ProductApart(s, c.cube, T[first..middle + 1], T[middle + 1..last + 1], left, right, R);
      forall m | IsMinterm(s, m)
        ensures Has(R, m) <==> In(m, c.cube) && !Has(T[first..last + 1], m)
      {
        JoinedHas(T[first..middle + 1], T[middle + 1..last + 1], m);
      }
    }
  }

  lemma JoinedHas(A: Cover, B: Cover, m: Minterm)
    ensures Has(A + B, m) <==> Has(A, m) || Has(B, m)
  {
    hide In;
    if k :| 0 <= k < |A| && In(m, A[k].cube) {
      assert In(m, (A + B)[k].cube);
    }
    if k :| 0 <= k < |B| && In(m, B[k].cube) {
      assert In(m, (A + B)[|A| + k].cube);
    }
  }

  lemma SharpCover(s: Space, a: Cube, T: Cover, i: nat, S: seq<Sized>, R: Cover)
    requires i < |T| && Minus(s, S, a, T[i].cube) && InFull(s, S)
    requires |R| == |S| && forall k :: 0 <= k < |S| ==> R[k] == S[k].c
    ensures Valid(s, R) && forall m :: IsMinterm(s, m) ==> (Has(R, m) <==> In(m, a) && !Has(T[i..i + 1], m))
  {
    hide Full, In, Minus;
    forall m | IsMinterm(s, m)
      ensures Has(R, m) <==> In(m, a) && !Has(T[i..i + 1], m)
    {
      MinusAt(s, S, a, T[i].cube, m);
      OneHas(T, i, m);
      if Holds(S, m) {
        var k :| 0 <= k < |S| && In(m, S[k].c.cube);
        assert In(m, R[k].cube);
      }
    }
  }

  lemma SharpCoverApart(s: Space, a: Cube, T: Cover, i: nat, S: seq<Sized>, R: Cover)
    requires i < |T| && HoldsAllApart(s, S, a, T[i].cube)
    requires |R| == |S| && forall k :: 0 <= k < |S| ==> R[k] == S[k].c
    ensures HoldsApart(s, R, a, T[i..i + 1])
  {
    hide Meets, NonVoid;
    forall x: Cube | NonVoid(s, x) && x <= a && ApartFrom(s, x, T[i..i + 1])
      ensures Within(x, R)
    {
      assert T[i..i + 1][0] == T[i];
      var k :| 0 <= k < |S| && x <= S[k].c.cube;
      assert x <= R[k].cube;
    }
  }

  /** A cube apart from both halves lies in a common part of their results. */
  lemma ProductApart(s: Space, c: Cube, T1: Cover, T2: Cover, left: Cover, right: Cover, R: Cover)
    requires HoldsApart(s, left, c, T1) && HoldsApart(s, right, c, T2) && HoldsProducts(s, left, right, R)
    ensures HoldsApart(s, R, c, T1 + T2)
  {
    hide Meets, NonVoid;
    forall x: Cube | NonVoid(s, x) && x <= c && ApartFrom(s, x, T1 + T2)
      ensures Within(x, R)
    {
      ApartBoth(s, x, T1, T2);
      var i :| 0 <= i < |left| && x <= left[i].cube;
      var j :| 0 <= j < |right| && x <= right[j].cube;
      MeetsInside(s, x, left[i].cube, right[j].cube);
      var k :| 0 <= k < |R| && left[i].cube * right[j].cube <= R[k].cube;
      assert x <= R[k].cube;
    }
  }

  lemma ApartBoth(s: Space, x: Cube, T1: Cover, T2: Cover)
    requires ApartFrom(s, x, T1 + T2)
    ensures ApartFrom(s, x, T1) && ApartFrom(s, x, T2)
  {
    hide Meets;
    forall i | 0 <= i < |T1|
      ensures !Meets(s, x, T1[i].cube)
    {
      assert (T1 + T2)[i] == T1[i];
    }
    forall i | 0 <= i < |T2|
      ensures !Meets(s, x, T2[i].cube)
    {
      assert (T1 + T2)[|T1| + i] == T2[i];
    }
  }

  lemma MeetsInside(s: Space, x: Cube, a: Cube, b: Cube)
    requires NonVoid(s, x) && x <= a && x <= b
    ensures Meets(s, a, b)
  {
    forall v | 0 <= v < |s.sizes|
      ensures a * b * Mask(s, v) != {}
    {
      var p := Member(x * Mask(s, v));
      assert p in a * b * Mask(s, v);
    }
  }

  lemma OneHas(T: Cover, i: nat, m: Minterm)
    requires i < |T|
    ensures Has(T[i..i + 1], m) <==> In(m, T[i].cube)
  {
    hide In;
    assert T[i..i + 1] == [T[i]];
    if In(m, T[i].cube) {
      assert In(m, T[i..i + 1][0].cube);
    }
  }

  /** What a cover leaves of a cube. */
  method CbSharp(s: Space, c: FCube, T: Cover) returns (R: Cover)
    requires c.cube <= Full(s) && Valid(s, T)
    ensures Valid(s, R) && HoldsApart(s, R, c.cube, T)
    ensures forall m :: IsMinterm(s, m) ==> (Has(R, m) <==> In(m, c.cube) && !Has(T, m))
  {
    hide Full, NonVoid;
    if |T| == 0 {
      R := [c];
      assert forall x: Cube :: x <= c.cube ==> x <= R[0].cube;
      forall m | IsMinterm(s, m)
        ensures Has(R, m) <==> In(m, c.cube)
      {
        if In(m, c.cube) {
          assert In(m, R[0].cube);
        }
      }
    } else {
      R := CbRecurSharp(s, c, T, 0, |T| - 1);
      assert T[0..|T|] == T;
    }
  }
}
