/** Unravelling: replace a set by the sets that keep a single part in each
    multiple-valued variable, and choose a small set of parts that meets a family
    of sets. */
module Unravel {
  import opened Cubes
  import opened Counting
  import Cores
  import Covering
  import SparseMatrix
  import Mincov
  import Stars

  /** How many parts of variable v the set holds. */
  function Ways(s: Space, c: Cube, v: nat): nat
    requires v < |s.sizes|
  {
    |c * Mask(s, v)|
  }

  /** The variable is unravelled: it comes at or after start and has a choice. */
  predicate Chosen(s: Space, c: Cube, start: nat, v: nat)
    requires v < |s.sizes|
  {
    start <= v && Ways(s, c, v) > 1
  }

  /** How many sets c unravels into, looking at the variables below v. */
  function Expansion(s: Space, c: Cube, start: nat, v: nat): (n: nat)
    requires v <= |s.sizes|
    ensures 1 <= n
  {
    if v == 0 then 1
    else if Chosen(s, c, start, v - 1) then Grow(Expansion(s, c, start, v - 1), Ways(s, c, v - 1))
    else Expansion(s, c, start, v - 1)
  }

  /** How many sets the sets of a family unravel into altogether. */
  function Expansions(s: Space, B: seq<Cube>, start: nat): (n: nat)
    ensures |B| <= n
  {
    if B == [] then 0 else Expansions(s, B[..|B| - 1], start) + Expansion(s, B[|B| - 1], start, |s.sizes|)
  }

  lemma ExpansionsStep(s: Space, B: seq<Cube>, start: nat, i: nat)
    requires i < |B|
    ensures Expansions(s, B[..i + 1], start) == Expansions(s, B[..i], start) + Expansion(s, B[i], start, |s.sizes|)
  {
    hide Expansion;
    assert B[..i + 1][..i] == B[..i];
  }

  lemma {:induction false} ExpansionsMono(s: Space, B: seq<Cube>, start: nat, i: nat)
    requires i <= |B|
    ensures Expansions(s, B[..i], start) <= Expansions(s, B, start)
  {
    hide Expansion;
    if i == |B| {
      assert B[..i] == B;
    } else {
      ExpansionsMono(s, B[..|B| - 1], start, i);
      assert B[..|B| - 1][..i] == B[..i];
    }
  }

  function Grow(n: nat, ways: nat): (r: nat)
    ensures 1 <= n && 1 <= ways ==> 1 <= r
    ensures 1 <= ways ==> n <= r
  {
    if n == 0 then 0 else Grow(n - 1, ways) + ways
  }

  /** r keeps one part of each unravelled variable below v, none of the others
      above, and everything of the variables that are not unravelled. */
  ghost predicate Thread(s: Space, c: Cube, start: nat, v: nat, r: Cube)
    requires v <= |s.sizes|
  {
    && r <= c
    && (forall u :: 0 <= u < |s.sizes| && !Chosen(s, c, start, u) ==> r * Mask(s, u) == c * Mask(s, u))
    && (forall u :: 0 <= u < v && Chosen(s, c, start, u) ==> |r * Mask(s, u)| == 1)
    && (forall u :: v <= u < |s.sizes| && Chosen(s, c, start, u) ==> r * Mask(s, u) == {})
  }

  /** The picked parts offer a choice for each unravelled variable below v. */
  ghost predicate Offers(s: Space, c: Cube, start: nat, v: nat, pick: Cube)
    requires v <= |s.sizes|
  {
    forall u :: 0 <= u < v && Chosen(s, c, start, u) ==> c * pick * Mask(s, u) != {}
  }

  /** In the unravelled variables below v, r only has picked parts. */
  ghost predicate Picks(s: Space, c: Cube, start: nat, v: nat, pick: Cube, r: Cube)
    requires v <= |s.sizes|
  {
    forall u :: 0 <= u < v && Chosen(s, c, start, u) ==> r * Mask(s, u) <= pick
  }

  /** The list holds threads only, and follows every pick. */
  ghost predicate Unravelled(s: Space, c: Cube, start: nat, v: nat, L: seq<Cube>)
    requires v <= |s.sizes|
  {
    && (forall i :: 0 <= i < |L| ==> Thread(s, c, start, v, L[i]))
    && (forall pick :: Offers(s, c, start, v, pick) ==> exists i :: 0 <= i < |L| && Picks(s, c, start, v, pick, L[i]))
  }

  /** The parts of the variables that are not unravelled. */
  function Base(s: Space, c: Cube, start: nat): (b: Cube)
    ensures forall p :: p in b <==> p in c && p.v < |s.sizes| && p.k < s.sizes[p.v] && !Chosen(s, c, start, p.v)
  {
    set p | p in c && p.v < |s.sizes| && p.k < s.sizes[p.v] && !Chosen(s, c, start, p.v)
  }

  lemma BaseThread(s: Space, c: Cube, start: nat)
    requires c <= Full(s)
    ensures Unravelled(s, c, start, 0, [Base(s, c, start)])
  {
    hide Full, Chosen;
    var b := Base(s, c, start);
    forall u | 0 <= u < |s.sizes| && !Chosen(s, c, start, u)
      ensures b * Mask(s, u) == c * Mask(s, u)
    {
    }
    assert Thread(s, c, start, 0, b);
    forall pick
      ensures Picks(s, c, start, 0, pick, [b][0])
    {
    }
  }

  /** Unravel one set (cb_unravel). */
  method UnravelCube(s: Space, c: Cube, start: nat) returns (L: seq<Cube>)
    requires c <= Full(s)
    ensures Unravelled(s, c, start, |s.sizes|, L)
    ensures |L| == Expansion(s, c, start, |s.sizes|)
  {
    hide Unravelled, Full, Chosen, Expansion, Base;
    ExpansionStart(s, c, start);
    L := [Base(s, c, start)];
    BaseThread(s, c, start);
    var v := 0;
    while v < |s.sizes|
      invariant 0 <= v <= |s.sizes|
      invariant Unravelled(s, c, start, v, L)
      invariant |L| == Expansion(s, c, start, v)
    {
      ExpansionStep(s, c, start, v);
      if Chosen(s, c, start, v) {
        L := Spread(s, c, start, v, L);
      } else {
        SkipVariable(s, c, start, v, L);
      }
      v := v + 1;
    }
  }

  lemma ExpansionStart(s: Space, c: Cube, start: nat)
    ensures Expansion(s, c, start, 0) == 1
  {
  }

  lemma ExpansionStep(s: Space, c: Cube, start: nat, v: nat)
    requires v < |s.sizes|
    ensures Expansion(s, c, start, v + 1)
         == if Chosen(s, c, start, v) then Grow(Expansion(s, c, start, v), Ways(s, c, v)) else Expansion(s, c, start, v)
  {
    hide Chosen;
  }

  lemma SkipVariable(s: Space, c: Cube, start: nat, v: nat, L: seq<Cube>)
    requires v < |s.sizes| && !Chosen(s, c, start, v) && Unravelled(s, c, start, v, L)
    ensures Unravelled(s, c, start, v + 1, L)
  {
    hide Chosen, Mask;
    forall i | 0 <= i < |L|
      ensures Thread(s, c, start, v + 1, L[i])
    {
      assert Thread(s, c, start, v, L[i]);
    }
    var w := v + 1;
    forall pick | Offers(s, c, start, w, pick)
      ensures exists i :: 0 <= i < |L| && Picks(s, c, start, w, pick, L[i])
    {
      assert Offers(s, c, start, v, pick);
      var i :| 0 <= i < |L| && Picks(s, c, start, v, pick, L[i]);
      assert Picks(s, c, start, w, pick, L[i]);
    }
  }

  /** The list holds b extended by each part of variable v in c below k. */
  ghost predicate Extended(c: Cube, v: nat, k: nat, b: Cube, L: seq<Cube>) {
    forall q: nat :: q < k && Part(v, q) in c ==> b + {Part(v, q)} in L
  }

  /** Give every set of the list each of the parts of variable v in turn. */
  method Spread(s: Space, c: Cube, start: nat, v: nat, L: seq<Cube>) returns (N: seq<Cube>)
    requires v < |s.sizes| && c <= Full(s) && Chosen(s, c, start, v)
    requires Unravelled(s, c, start, v, L)
    ensures Unravelled(s, c, start, v + 1, N)
    ensures |N| == Grow(|L|, Ways(s, c, v))
  {
    hide Unravelled, Full, Chosen, Mask;
    N := [];
    var i := 0;
    while i < |L|
      invariant 0 <= i <= |L|
      invariant |N| == Grow(i, Ways(s, c, v))
      invariant forall r :: r in N ==> exists j, q :: 0 <= j < |L| && Part(v, q) in c && r == L[j] + {Part(v, q)}
      invariant forall j :: 0 <= j < i ==> Extended(c, v, s.sizes[v], L[j], N)
    {
      var M := Spread1(s, c, v, L[i]);
      ExtendAll(c, v, s.sizes[v], L, i, N, M);
      N := N + M;
      i := i + 1;
    }
    SpreadUnravels(s, c, start, v, L, N);
  }

  lemma ExtendAll(c: Cube, v: nat, k: nat, L: seq<Cube>, i: nat, N: seq<Cube>, M: seq<Cube>)
    requires i < |L| && Extended(c, v, k, L[i], M)
    requires forall j :: 0 <= j < i ==> Extended(c, v, k, L[j], N)
    ensures forall j :: 0 <= j <= i ==> Extended(c, v, k, L[j], N + M)
  {
  }

  /** One set extended by each of the parts of variable v in c. */
  method Spread1(s: Space, c: Cube, v: nat, b: Cube) returns (M: seq<Cube>)
    requires v < |s.sizes|
    ensures |M| == Ways(s, c, v)
    ensures forall r :: r in M ==> exists q :: Part(v, q) in c && r == b + {Part(v, q)}
    ensures Extended(c, v, s.sizes[v], b, M)
  {
    M := [];
    ghost var done: Cube := {};
    var k := 0;
    while k < s.sizes[v]
      invariant 0 <= k <= s.sizes[v]
      invariant forall p :: p in done <==> p in c && p.v == v && p.k < k
      invariant |M| == |done|
      invariant forall r :: r in M ==> exists q :: Part(v, q) in c && r == b + {Part(v, q)}
      invariant Extended(c, v, k, b, M)
    {
      if Part(v, k) in c {
        M := M + [b + {Part(v, k)}];
        done := done + {Part(v, k)};
      }
      k := k + 1;
    }
    assert done == c * Mask(s, v);
  }

  lemma SpreadUnravels(s: Space, c: Cube, start: nat, v: nat, L: seq<Cube>, N: seq<Cube>)
    requires v < |s.sizes| && c <= Full(s) && Chosen(s, c, start, v)
    requires Unravelled(s, c, start, v, L)
    requires forall r :: r in N ==> exists j, q :: 0 <= j < |L| && Part(v, q) in c && r == L[j] + {Part(v, q)}
    requires forall j :: 0 <= j < |L| ==> Extended(c, v, s.sizes[v], L[j], N)
    ensures Unravelled(s, c, start, v + 1, N)
  {
    hide Full, Chosen, Mask, Thread, Picks, Offers;
    forall i | 0 <= i < |N|
      ensures Thread(s, c, start, v + 1, N[i])
    {
      assert N[i] in N;
      var j, q :| 0 <= j < |L| && Part(v, q) in c && N[i] == L[j] + {Part(v, q)};
      ThreadExtends(s, c, start, v, L[j], q);
    }
    var w := v + 1;
    forall pick | Offers(s, c, start, w, pick)
      ensures exists i :: 0 <= i < |N| && Picks(s, c, start, w, pick, N[i])
    {
      var p := OfferedPart(s, c, start, v, pick);
      var j :| 0 <= j < |L| && Picks(s, c, start, v, pick, L[j]);
      assert Extended(c, v, s.sizes[v], L[j], N);
      var r := L[j] + {p};
      assert r in N by { assert p == Part(v, p.k); }
      var i :| 0 <= i < |N| && N[i] == r;
      assert Thread(s, c, start, v, L[j]);
      PicksExtends(s, c, start, v, pick, L[j], p.k);
    }
  }

  lemma OfferedPart(s: Space, c: Cube, start: nat, v: nat, pick: Cube) returns (p: Part)
    requires v < |s.sizes| && Chosen(s, c, start, v) && Offers(s, c, start, v + 1, pick)
    ensures Offers(s, c, start, v, pick)
    ensures p in c && p in pick && p.v == v && p.k < s.sizes[v]
  {
    hide Chosen;
    assert c * pick * Mask(s, v) != {};
    p := Member(c * pick * Mask(s, v));
  }

  lemma ThreadExtends(s: Space, c: Cube, start: nat, v: nat, b: Cube, q: nat)
    requires v < |s.sizes| && c <= Full(s) && Chosen(s, c, start, v)
    requires Thread(s, c, start, v, b) && Part(v, q) in c
    ensures Thread(s, c, start, v + 1, b + {Part(v, q)})
  {
    hide Chosen;
    var r := b + {Part(v, q)};
    forall u | 0 <= u < |s.sizes| && u != v
      ensures r * Mask(s, u) == b * Mask(s, u)
    {
    }
    assert b * Mask(s, v) == {};
    assert r * Mask(s, v) == {Part(v, q)};
  }

  lemma PicksExtends(s: Space, c: Cube, start: nat, v: nat, pick: Cube, b: Cube, q: nat)
    requires v < |s.sizes| && Chosen(s, c, start, v) && Thread(s, c, start, v, b)
    requires Picks(s, c, start, v, pick, b) && Part(v, q) in pick
    ensures Picks(s, c, start, v + 1, pick, b + {Part(v, q)})
  {
    hide Chosen;
    var r := b + {Part(v, q)};
    forall u | 0 <= u < v + 1 && Chosen(s, c, start, u)
      ensures r * Mask(s, u) <= pick
    {
      if u == v {
        assert b * Mask(s, v) == {};
        assert r * Mask(s, v) <= {Part(v, q)};
      } else {
        assert r * Mask(s, u) == b * Mask(s, u);
      }
    }
  }

  /** Unravelling keeps the minterms of a cube. */
  lemma UnravelMeaning(s: Space, c: Cube, start: nat, L: seq<Cube>, m: Minterm)
    requires c <= Full(s) && IsMinterm(s, m) && Unravelled(s, c, start, |s.sizes|, L)
    ensures In(m, c) <==> exists i :: 0 <= i < |L| && In(m, L[i])
  {
    hide In, Full, Chosen;
    if In(m, c) {
      var i := ThreadOf(s, c, start, L, m);
    }
    if i :| 0 <= i < |L| && In(m, L[i]) {
      assert Thread(s, c, start, |s.sizes|, L[i]);
      InWider(m, L[i], c);
    }
  }

  lemma InWider(m: Minterm, a: Cube, b: Cube)
    requires In(m, a) && a <= b
    ensures In(m, b)
  {
  }

  lemma InAt(m: Minterm, c: Cube, v: nat)
    requires In(m, c) && v < |m|
    ensures Part(v, m[v]) in c
  {
  }

  lemma ThreadOf(s: Space, c: Cube, start: nat, L: seq<Cube>, m: Minterm) returns (i: nat)
    requires IsMinterm(s, m) && Unravelled(s, c, start, |s.sizes|, L) && In(m, c)
    ensures i < |L| && In(m, L[i])
  {
    hide Chosen, Thread, Picks, In;
    var n := |s.sizes|;
    var pick := set v | v in Range(n) :: Part(v, m[v]);
    forall u | 0 <= u < n && Chosen(s, c, start, u)
      ensures c * pick * Mask(s, u) != {}
    {
      assert Part(u, m[u]) in c * pick * Mask(s, u) by { InAt(m, c, u); }
    }
    assert Offers(s, c, start, n, pick);
    i :| 0 <= i < |L| && Picks(s, c, start, n, pick, L[i]);
    assert Thread(s, c, start, n, L[i]);
    ThreadMinterm(s, c, start, L[i], pick, m);
  }

  lemma ThreadMinterm(s: Space, c: Cube, start: nat, r: Cube, pick: Cube, m: Minterm)
    requires IsMinterm(s, m) && In(m, c) && Thread(s, c, start, |s.sizes|, r)
    requires Picks(s, c, start, |s.sizes|, pick, r)
    requires forall p :: p in pick ==> p.v < |m| && p.k == m[p.v]
    ensures In(m, r)
  {
    hide Chosen;
    forall v | 0 <= v < |m|
      ensures Part(v, m[v]) in r
    {
      assert Part(v, m[v]) in c * Mask(s, v);
      if Chosen(s, c, start, v) {
        assert |r * Mask(s, v)| == 1;
        var p := Member(r * Mask(s, v));
        assert p in pick;
        assert p == Part(v, m[v]);
      } else {
        assert r * Mask(s, v) == c * Mask(s, v);
      }
    }
  }

  /** Every set of B is unravelled into sets of N, and N holds nothing else. */
  ghost predicate AllUnravelled(s: Space, B: seq<Cube>, start: nat, N: seq<Cube>) {
    && (forall i :: 0 <= i < |B| ==> HasThreads(s, B[i], start, N))
    && (forall r :: r in N ==> exists i :: 0 <= i < |B| && Thread(s, B[i], start, |s.sizes|, r))
  }

  ghost predicate HasThreads(s: Space, c: Cube, start: nat, N: seq<Cube>) {
    exists L :: Unravelled(s, c, start, |s.sizes|, L) && forall i :: 0 <= i < |L| ==> L[i] in N
  }

  /** Unravel every set of the family from variable start on. */
  method UnravelSets(s: Space, B: seq<Cube>, start: nat) returns (N: seq<Cube>)
    requires forall i :: 0 <= i < |B| ==> B[i] <= Full(s)
    ensures AllUnravelled(s, B, start, N)
    ensures |N| == Expansions(s, B, start)
  {
    hide Full, Unravelled, Thread, Expansion, Expansions, AllUnravelled;
    N := [];
    NoneUnravelled(s, start);
    var i := 0;
    while i < |B|
      invariant 0 <= i <= |B|
      invariant AllUnravelled(s, B[..i], start, N)
      invariant |N| == Expansions(s, B[..i], start)
    {
      var L := UnravelCube(s, B[i], start);
      UnravelledMore(s, B, i, start, L, N);
      ExpansionsStep(s, B, start, i);
      N := N + L;
      i := i + 1;
    }
    assert B[..i] == B;
  }

  lemma NoneUnravelled(s: Space, start: nat)
    ensures AllUnravelled(s, [], start, []) && Expansions(s, [], start) == 0
  {
  }

  lemma UnravelledMore(s: Space, B: seq<Cube>, i: nat, start: nat, L: seq<Cube>, N: seq<Cube>)
    requires i < |B| && AllUnravelled(s, B[..i], start, N) && Unravelled(s, B[i], start, |s.sizes|, L)
    ensures AllUnravelled(s, B[..i + 1], start, N + L)
  {
    hide Thread, Picks, Offers, Unravelled, HasThreads;
    var A := B[..i];
    var A' := B[..i + 1];
    forall j | 0 <= j < |A'|
      ensures HasThreads(s, A'[j], start, N + L)
    {
      if j < i {
        assert HasThreads(s, A[j], start, N);
        ThreadsMore(s, A[j], start, N, L);
      } else {
        NewThreads(s, A'[j], start, N, L);
      }
    }
    forall r | r in N + L
      ensures exists j :: 0 <= j < |A'| && Thread(s, A'[j], start, |s.sizes|, r)
    {
      if r in N {
        var j :| 0 <= j < |A| && Thread(s, A[j], start, |s.sizes|, r);
        assert Thread(s, A'[j], start, |s.sizes|, r);
      } else {
        var k :| 0 <= k < |L| && L[k] == r;
        ThreadAt(s, A'[i], start, L, k);
      }
    }
  }

  lemma ThreadAt(s: Space, c: Cube, start: nat, L: seq<Cube>, k: nat)
    requires Unravelled(s, c, start, |s.sizes|, L) && k < |L|
    ensures Thread(s, c, start, |s.sizes|, L[k])
  {
  }

  lemma ThreadsMore(s: Space, c: Cube, start: nat, N: seq<Cube>, L: seq<Cube>)
    requires HasThreads(s, c, start, N)
    ensures HasThreads(s, c, start, N + L)
  {
    hide Unravelled;
    var L0 :| Unravelled(s, c, start, |s.sizes|, L0) && forall i :: 0 <= i < |L0| ==> L0[i] in N;
    assert forall i :: 0 <= i < |L0| ==> L0[i] in N + L;
  }

  lemma NewThreads(s: Space, c: Cube, start: nat, N: seq<Cube>, L: seq<Cube>)
    requires Unravelled(s, c, start, |s.sizes|, L)
    ensures HasThreads(s, c, start, N + L)
  {
    hide Unravelled;
    assert forall i :: 0 <= i < |L| ==> L[i] in N + L;
  }

  lemma {:induction false} GrowIsProduct(n: nat, ways: nat)
    ensures Grow(n, ways) == n * ways
  {
    if n > 0 {
      GrowIsProduct(n - 1, ways);
      assert n * ways == (n - 1) * ways + ways;
    }
  }

  lemma {:induction false} ExpansionMono(s: Space, c: Cube, start: nat, u: nat, v: nat)
    requires u <= v <= |s.sizes|
    ensures Expansion(s, c, start, u) <= Expansion(s, c, start, v)
  {
    if u < v {
      ExpansionMono(s, c, start, u, v - 1);
    }
  }

  /** Whether unravelling a set gives more than limit sets; the count stops as
      soon as it does. */
  method ExpansionOver(s: Space, c: Cube, start: nat, limit: nat) returns (over: bool, expansion: nat)
    requires c <= Full(s)
    ensures over <==> Expansion(s, c, start, |s.sizes|) > limit
    ensures !over ==> expansion == Expansion(s, c, start, |s.sizes|)
  {
    hide Full, Expansion, Mask;
    expansion := 1;
    ExpansionStart(s, c, start);
    var v := 0;
    while v < |s.sizes|
      invariant 0 <= v <= |s.sizes|
      invariant expansion == Expansion(s, c, start, v)
    {
      ExpansionStep(s, c, start, v);
      if Chosen(s, c, start, v) {
        GrowIsProduct(expansion, Ways(s, c, v));
        expansion := expansion * Ways(s, c, v);
        if expansion > limit {
          ExpansionMono(s, c, start, v + 1, |s.sizes|);
          return true, expansion;
        }
      }
      v := v + 1;
    }
    over := expansion > limit;
  }

  // ---- a small set of parts that meets every set of a family

  /** The position of a part in the bit vector. */
  function BitOf(s: Space, p: Part): nat
    requires p.v < |s.sizes|
  {
    FirstPart(s, p.v) + p.k
  }

  function FirstPart(s: Space, v: nat): nat
    requires v <= |s.sizes|
  {
    if v == 0 then 0 else FirstPart(s, v - 1) + s.sizes[v - 1]
  }

  lemma {:induction false} FirstPartMono(s: Space, u: nat, v: nat)
    requires u <= v <= |s.sizes|
    ensures FirstPart(s, u) <= FirstPart(s, v)
  {
    if u < v {
      FirstPartMono(s, u, v - 1);
    }
  }

  lemma BitInside(s: Space, p: Part)
    requires p in Full(s)
    ensures BitOf(s, p) < FirstPart(s, |s.sizes|)
  {
    FirstPartMono(s, p.v + 1, |s.sizes|);
  }

  /** Different parts have different positions. */
  lemma BitInjective(s: Space, p: Part, q: Part)
    requires p in Full(s) && q in Full(s) && BitOf(s, p) == BitOf(s, q)
    ensures p == q
  {
    if p.v < q.v {
      FirstPartMono(s, p.v + 1, q.v);
    } else if q.v < p.v {
      FirstPartMono(s, q.v + 1, p.v);
    }
  }

  lemma {:induction false} BitsCard(s: Space, c: Cube)
    requires c <= Full(s)
    ensures |Bits(s, c)| == |c|
  {
    hide Full, BitOf;
    if c == {} {
      assert Bits(s, c) == {};
    } else {
      var p := Member(c);
      BitsCard(s, c - {p});
      BitsLess(s, c, p);
      assert Bits(s, c) == Bits(s, c - {p}) + {BitOf(s, p)};
    }
  }

  lemma BitsLess(s: Space, c: Cube, p: Part)
    requires c <= Full(s) && p in c
    ensures p.v < |s.sizes| && BitOf(s, p) !in Bits(s, c - {p})
  {
    hide BitOf;
    if q :| q in c - {p} && q.v < |s.sizes| && BitOf(s, q) == BitOf(s, p) {
      BitInjective(s, q, p);
    }
  }

  function Bits(s: Space, c: Cube): (r: set<nat>)
    requires c <= Full(s)
    ensures forall b :: b in r <==> exists p :: p in c && p.v < |s.sizes| && b == BitOf(s, p)
  {
    set p | p in c && p.v < |s.sizes| :: BitOf(s, p)
  }

  /** The set meets every set of the family that is not empty. */
  ghost predicate HitsSets(B: seq<Cube>, x: Cube) {
    forall i :: 0 <= i < |B| && B[i] != {} ==> B[i] * x != {}
  }

  /** The covering matrix of the family: a row for every set that is not empty. */
  ghost predicate RowsOf(s: Space, B: seq<Cube>, n: nat, rows: Covering.Rows)
    requires n <= |B| && forall i :: 0 <= i < |B| ==> B[i] <= Full(s)
  {
    && (forall j: nat :: j in rows <==> j < n && B[j] != {})
    && (forall j: nat :: j in rows ==> rows[j] == Bits(s, B[j]))
  }

  /** The part is in some set of the family. */
  ghost predicate InSome(B: seq<Cube>, p: Part) {
    exists i :: 0 <= i < |B| && p in B[i]
  }

  /** A set of parts, each in some set of B and at most one for every set of B, that
      meets every set of B that is not empty (do_sm_minimum_cover).  It is not always
      the smallest, but it is if the family is made of stars, paths and cycles. */
  method SmMinimumCover(s: Space, B: seq<Cube>) returns (cover: Cube)
    requires forall i :: 0 <= i < |B| ==> B[i] <= Full(s)
    ensures cover <= Full(s) && |cover| <= |B| && HitsSets(B, cover)
    ensures forall p :: p in cover ==> InSome(B, p)
    ensures forall rows :: RowsOf(s, B, |B|, rows) && Cores.EasyCore(rows) ==>
      forall c :: c <= Full(s) && HitsSets(B, c) ==> |cover| <= |c|
  {
    hide Full, Covering.Hits, Covering.Cols, Covering.ValidRows, BitOf, Cores.EasyCore, Mincov.IsMinimum, RowsOf, Bits,
      PartsAt, Cores.CoreOf, Stars.Centred, HitsSets, InSome;
    var rows: Covering.Rows := map[];
    var n := FirstPart(s, |s.sizes|);
    NoRows(s, B, n);
    var i := 0;
    while i < |B|
      invariant 0 <= i <= |B|
      invariant Covering.ValidRows(rows, n) && RowsOf(s, B, i, rows) && |rows| <= i
    {
      RowAdded(s, B, rows, n, i);
      if B[i] != {} {
        rows := rows[i := Bits(s, B[i])];
      }
      i := i + 1;
    }
    RowsBelow(s, B, |B|, rows);
    var M := new SparseMatrix.Matrix(rows, |B|, n);
    var sparse := Mincov.MinimumCover(M, Covering.Unit, true);
    cover := PartsAt(s, sparse);
    PartsFacts(s, B, rows, n, sparse, cover);
  }

  lemma RowsBelow(s: Space, B: seq<Cube>, n: nat, rows: Covering.Rows)
    requires n <= |B| && (forall i :: 0 <= i < |B| ==> B[i] <= Full(s)) && RowsOf(s, B, n, rows)
    ensures forall j :: j in rows ==> j < n
    ensures forall rows' :: RowsOf(s, B, n, rows') ==> rows' == rows
  {
    hide Full, Bits;
  }

  /** What a cover of the matrix says about the parts it stands for. */
  lemma PartsFacts(s: Space, B: seq<Cube>, rows: Covering.Rows, n: nat, sparse: set<nat>, cover: Cube)
    requires (forall i :: 0 <= i < |B| ==> B[i] <= Full(s)) && RowsOf(s, B, |B|, rows) && |rows| <= |B|
    requires n == FirstPart(s, |s.sizes|) && Covering.ValidRows(rows, n)
    requires Covering.Hits(rows, sparse) && sparse <= Covering.Cols(rows) && |sparse| <= |rows|
    requires Cores.EasyCore(rows) ==> Mincov.IsMinimum(Covering.Unit, n, rows, sparse)
    requires cover == PartsAt(s, sparse)
    ensures cover <= Full(s) && |cover| <= |B| && HitsSets(B, cover)
    ensures forall p :: p in cover ==> InSome(B, p)
    ensures forall rows' :: RowsOf(s, B, |B|, rows') && Cores.EasyCore(rows') ==>
      forall c :: c <= Full(s) && HitsSets(B, c) ==> |cover| <= |c|
  {
    hide Full, Covering.Hits, Covering.Cols, Covering.ValidRows, BitOf, Cores.EasyCore, Mincov.IsMinimum, RowsOf, Bits,
      InSome, FirstPart;
    PartsCard(s, sparse, cover);
    RowsBelow(s, B, |B|, rows);
    forall p | p in cover
      ensures InSome(B, p)
    {
      PartInSome(s, B, rows, sparse, cover, p);
    }
    if Cores.EasyCore(rows) {
      forall c | c <= Full(s) && HitsSets(B, c)
        ensures |cover| <= |c|
      {
        LeastParts(s, B, rows, n, sparse, cover, c);
      }
    }
    forall j | 0 <= j < |B| && B[j] != {}
      ensures B[j] * cover != {}
    {
      RowThere(s, B, rows, j);
      HitsPart(s, B[j], rows, j, sparse, cover);
    }
  }

  lemma RowThere(s: Space, B: seq<Cube>, rows: Covering.Rows, j: nat)
    requires (forall i :: 0 <= i < |B| ==> B[i] <= Full(s)) && RowsOf(s, B, |B|, rows) && j < |B| && B[j] != {}
    ensures j in rows && rows[j] == Bits(s, B[j])
  {
    hide Full, Bits;
  }

  lemma PartInSome(s: Space, B: seq<Cube>, rows: Covering.Rows, sparse: set<nat>, cover: Cube, p: Part)
    requires (forall i :: 0 <= i < |B| ==> B[i] <= Full(s)) && RowsOf(s, B, |B|, rows)
    requires sparse <= Covering.Cols(rows) && cover == PartsAt(s, sparse) && p in cover
    ensures InSome(B, p)
  {
    hide BitOf;
    var j :| j in rows && BitOf(s, p) in rows[j];
    var q :| q in B[j] && q.v < |s.sizes| && BitOf(s, q) == BitOf(s, p);
    BitInjective(s, p, q);
  }

  /** A least set of positions stands for a least set of parts. */
  lemma LeastParts(s: Space, B: seq<Cube>, rows: Covering.Rows, n: nat, sparse: set<nat>, cover: Cube, c: Cube)
    requires (forall i :: 0 <= i < |B| ==> B[i] <= Full(s)) && RowsOf(s, B, |B|, rows)
    requires n == FirstPart(s, |s.sizes|) && Covering.ValidRows(rows, n)
    requires Mincov.IsMinimum(Covering.Unit, n, rows, sparse) && cover == PartsAt(s, sparse)
    requires c <= Full(s) && HitsSets(B, c)
    ensures |cover| <= |c|
  {
    hide Full, BitOf, Bits, PartsAt, Covering.Cost, RowsOf, Covering.Hits, Covering.Cols, HitsSets, FirstPart;
    PartsCard(s, sparse, cover);
    BitsHit(s, B, rows, c);
    BitsCard(s, c);
    Mincov.BelowCols(rows, n);
    BitsBelow(s, c, n);
    Stars.CostCard(sparse, n);
    Stars.CostCard(Bits(s, c), n);
  }

  lemma BitsHit(s: Space, B: seq<Cube>, rows: Covering.Rows, c: Cube)
    requires (forall i :: 0 <= i < |B| ==> B[i] <= Full(s)) && RowsOf(s, B, |B|, rows)
    requires c <= Full(s) && HitsSets(B, c)
    ensures Covering.Hits(rows, Bits(s, c))
  {
    hide Full, BitOf, Bits;
    forall j | j in rows
      ensures Covering.Intersects(rows[j], Bits(s, c))
    {
      var p := Member(B[j] * c);
      BitThere(s, B[j], p);
      BitThere(s, c, p);
      assert BitOf(s, p) in rows[j] * Bits(s, c);
    }
  }

  lemma BitThere(s: Space, c: Cube, p: Part)
    requires c <= Full(s) && p in c
    ensures p.v < |s.sizes| && BitOf(s, p) in Bits(s, c)
  {
    hide BitOf;
  }

  lemma BitsBelow(s: Space, c: Cube, n: nat)
    requires c <= Full(s) && n == FirstPart(s, |s.sizes|)
    ensures forall b :: b in Bits(s, c) ==> b < n
  {
    hide BitOf;
    forall p | p in c
      ensures p.v < |s.sizes| && BitOf(s, p) < n
    {
      BitInside(s, p);
    }
  }

  /** The parts whose positions are listed. */
  function PartsAt(s: Space, bits: set<nat>): (c: Cube)
    ensures forall p :: p in c <==> p in Full(s) && BitOf(s, p) in bits
  {
    set p | p in Full(s) && BitOf(s, p) in bits
  }

  lemma PartsCard(s: Space, bits: set<nat>, c: Cube)
    requires c == PartsAt(s, bits)
    ensures |c| <= |bits|
  {
    hide Full, BitOf;
    BitsCard(s, c);
    SubsetCard(Bits(s, c), bits);
  }

  lemma NoRows(s: Space, B: seq<Cube>, n: nat)
    requires forall i :: 0 <= i < |B| ==> B[i] <= Full(s)
    ensures Covering.ValidRows(map[], n) && RowsOf(s, B, 0, map[])
  {
  }

  lemma RowAdded(s: Space, B: seq<Cube>, rows: Covering.Rows, n: nat, i: nat)
    requires (forall k :: 0 <= k < |B| ==> B[k] <= Full(s)) && i < |B| && RowsOf(s, B, i, rows)
    requires Covering.ValidRows(rows, n) && n == FirstPart(s, |s.sizes|)
    ensures B[i] == {} ==> RowsOf(s, B, i + 1, rows)
    ensures B[i] != {} ==>
      Covering.ValidRows(rows[i := Bits(s, B[i])], n) && RowsOf(s, B, i + 1, rows[i := Bits(s, B[i])])
  {
    hide BitOf, Full, Bits;
    if B[i] != {} {
      var p := Member(B[i]);
      BitThere(s, B[i], p);
      BitsBelow(s, B[i], n);
    }
  }

  lemma HitsPart(s: Space, c: Cube, rows: Covering.Rows, i: nat, sparse: set<nat>, cover: Cube)
    requires c <= Full(s) && i in rows && rows[i] == Bits(s, c) && Covering.Hits(rows, sparse)
    requires cover == PartsAt(s, sparse)
    ensures c * cover != {}
  {
    hide Full, BitOf;
    assert Covering.Intersects(rows[i], sparse);
    var b := Member(rows[i] * sparse);
    var p :| p in c && p.v < |s.sizes| && b == BitOf(s, p);
    assert p in c * cover;
  }
}
