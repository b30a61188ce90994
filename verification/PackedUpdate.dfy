/** Word-parallel operations that write cubes: forced lowering, consensus, and the setup
    of the masks. */
module PackedUpdate {
  import opened Cubes
  import opened Words
  import opened Packed

  // ---- changing one word

  /** The parts whose bits are in word w and in m. */
  ghost function WordParts(s: Space, w: nat, m: bv32): (c: Cube)
    ensures forall p :: p in c <==> IsPart(s, p) && WordOf(Pos(s, p)) == w && Bit(m, Pos(s, p) % 32)
  {
    set p | p in Full(s) && WordOf(Pos(s, p)) == w && Bit(m, Pos(s, p) % 32)
  }

  lemma OrWord(s: Space, x: Packing, w: nat, m: bv32)
    requires |x| == NumWords(s) && w < |x|
    ensures Unpacked(s, x[w := Or(x[w], m)]) == Unpacked(s, x) + WordParts(s, w, m)
  {
    hide Bit, Or, Pos;
    var x' := x[w := Or(x[w], m)];
    forall p | IsPart(s, p)
      ensures Has(s, x', p) <==> Has(s, x, p) || p in WordParts(s, w, m)
    {
      if WordOf(Pos(s, p)) == w {
        BitOr(x[w], m, Pos(s, p) % 32);
      }
    }
  }

  lemma SetWord(s: Space, x: Packing, w: nat, m: bv32)
    requires |x| == NumWords(s) && w < |x| && x[w] == 0
    ensures Unpacked(s, x[w := m]) == Unpacked(s, x) + WordParts(s, w, m)
  {
    hide Bit, Pos;
    var x' := x[w := m];
    forall p | IsPart(s, p)
      ensures Has(s, x', p) <==> Has(s, x, p) || p in WordParts(s, w, m)
    {
      if WordOf(Pos(s, p)) == w {
        NoBit(Pos(s, p) % 32);
      }
    }
  }

  // ---- binary variables

  /** Where a part is: in a pair of word w, below the multiple-valued ones or not. */
  lemma PairPlace(s: Space, p: Part, w: nat) returns (j: nat, i: nat)
    requires IsPart(s, p) && WordOf(Pos(s, p)) == w
    ensures j < 16 && i < 2 && w >= 1 && Pos(s, p) % 32 == 2 * j + i
    ensures p.v < s.numBinary <==> 16 * (w - 1) + j < s.numBinary
    ensures p.v < s.numBinary ==> p.v == 16 * (w - 1) + j && p.k == i
  {
    hide Pos;
    PairPos(s, p);
    j, i := PairNumber(Pos(s, p), w);
  }

  lemma PairPos(s: Space, p: Part)
    requires IsPart(s, p)
    ensures if p.v < s.numBinary then p.k < 2 && Pos(s, p) == 2 * p.v + p.k else Pos(s, p) >= 2 * s.numBinary
  {
    if p.v < s.numBinary {
      FirstBinary(s, p.v);
    } else {
      FirstBinary(s, s.numBinary);
      FirstGrows(s, s.numBinary, p.v);
    }
  }

  lemma PairNumber(e: nat, w: nat) returns (j: nat, i: nat)
    requires WordOf(e) == w
    ensures j < 16 && i < 2 && w >= 1 && e % 32 == 2 * j + i && e == 2 * (16 * (w - 1) + j) + i
  {
    j, i := e % 32 / 2, e % 32 % 2;
  }

  /** Both bits of the marked pairs: the parts of the clashing variables of word w. */
  lemma MarkedPart(s: Space, a: Packing, b: Packing, w: nat, y: bv32, p: Part)
    requires |a| == |b| == NumWords(s) && Marks(s, a, b, w, y) && OnlyLower(y)
    requires IsPart(s, p) && WordOf(Pos(s, p)) == w
    ensures Bit(Pairs(y), Pos(s, p) % 32) <==> p.v in ClashWord(s, a, b, w)
  {
    hide Bit, Pairs, OnlyLower, Clashes, Unpacked, Pos;
    var j, i := PairPlace(s, p, w);
    assert MarksAt(s, a, b, w, y, j);
    PairsBits(y, j);
  }

  lemma MaskLower(s: Space, w: nat, m: bv32)
    requires PairMask(s, w, m)
    ensures OnlyLower(m)
  {
    hide Bit, And;
    var x := And(m, DISJOINT);
    forall k | 0 <= k < 32
      ensures Bit(x, k) <==> Bit(m, k)
    {
      BitAnd(m, DISJOINT, k);
      assert PairMaskAt(s, w, m, k / 2);
      DisjointBit(k / 2);
      assert k == 2 * (k / 2) || k == 2 * (k / 2) + 1;
    }
    SameBits(x, m);
    AndLower(m);
  }

  lemma AndLower(m: bv32)
    requires And(m, DISJOINT) == m
    ensures OnlyLower(m)
  {
  }

  /** The parts of a in the given variables. */
  ghost function PartsOf(a: Cube, vs: set<nat>): (c: Cube)
    ensures forall p :: p in c <==> p in a && p.v in vs
  {
    set p | p in a && p.v in vs
  }

  lemma LoweredWord(s: Space, a: Packing, b: Packing, w: nat, y: bv32)
    requires |a| == |b| == NumWords(s) && 1 <= w < |a| && Marks(s, a, b, w, y) && OnlyLower(y)
    ensures WordParts(s, w, And(Pairs(y), a[w])) == PartsOf(Unpacked(s, a), ClashWord(s, a, b, w))
  {
    hide Bit, And, Pairs, OnlyLower, Marks, Clashes, Pos;
    forall p | IsPart(s, p)
      ensures p in WordParts(s, w, And(Pairs(y), a[w])) <==> p in Unpacked(s, a) && p.v in ClashWord(s, a, b, w)
    {
      if WordOf(Pos(s, p)) == w {
        BitAnd(Pairs(y), a[w], Pos(s, p) % 32);
        MarkedPart(s, a, b, w, y, p);
      } else if p.v < s.numBinary {
        BinaryWord(s, p);
      }
    }
  }

  lemma BinaryWord(s: Space, p: Part)
    requires IsPart(s, p) && p.v < s.numBinary
    ensures WordOf(Pos(s, p)) == p.v / 16 + 1
  {
    FirstBinary(s, p.v);
  }

  // ---- forced lowering

  /** Lower the clashing variables of one binary word. */
  method LowerWord(s: Space, x: array<bv32>, a: array<bv32>, b: array<bv32>, w: nat, m: bv32)
    requires x.Length == a.Length == b.Length == NumWords(s) && x != a && x != b && 1 <= w < x.Length
    requires PairMask(s, w, m)
    modifies x
    ensures Unpacked(s, x[..]) == old(Unpacked(s, x[..])) + PartsOf(Unpacked(s, a[..]), ClashWord(s, a[..], b[..], w))
    ensures x[0] == old(x[0])
  {
    hide And, Or, Bit, Pairs, Empty, PairMask, Marks, Unpacked, ClashWord, OnlyLower;
    ghost var X, A, B := x[..], a[..], b[..];
    var y := Empty(And(a[w], b[w]), m);
    WordMarks(s, A, B, w, m);
    MarksCount(s, A, B, w, y);
    MaskLower(s, w, m);
    EmptyLower(And(a[w], b[w]), m);
    if y != 0 {
      LoweredWord(s, A, B, w, y);
      OrWord(s, X, w, And(Pairs(y), A[w]));
      x[w] := Or(x[w], And(Pairs(y), a[w]));
      assert x[..] == X[w := Or(X[w], And(Pairs(y), A[w]))];
    } else {
      ZeroBits(y);
    }
  }

  /** The parts of variable v in the words before w. */
  ghost function VarBefore(s: Space, a: Cube, v: nat, w: nat): (c: Cube)
    ensures forall p :: p in c <==> p in a && p.v == v && IsPart(s, p) && WordOf(Pos(s, p)) < w
  {
    set p | p in a && p.v == v && IsPart(s, p) && WordOf(Pos(s, p)) < w
  }

  lemma VarWord(s: Space, a: Packing, v: nat, m: Packing, w: nat)
    requires |a| == |m| == NumWords(s) && v < |s.sizes| && VarMask(s, v, m) && 1 <= w < |a|
    ensures VarBefore(s, Unpacked(s, a), v, w) + WordParts(s, w, And(a[w], m[w]))
        == VarBefore(s, Unpacked(s, a), v, w + 1)
  {
    hide Bit, And, Pos;
    forall p | IsPart(s, p) && WordOf(Pos(s, p)) == w
      ensures p in WordParts(s, w, And(a[w], m[w])) <==> p in Unpacked(s, a) && p.v == v
    {
      BitAnd(a[w], m[w], Pos(s, p) % 32);
      MaskBit(s, v, m, p);
    }
  }

  lemma MaskBit(s: Space, v: nat, m: Packing, p: Part)
    requires v < |s.sizes| && VarMask(s, v, m) && IsPart(s, p)
    ensures 1 <= WordOf(Pos(s, p)) < |m| && (Bit(m[WordOf(Pos(s, p))], Pos(s, p) % 32) <==> p.v == v)
  {
    hide Bit, Pos;
    PosUnique(s, p, v);
    assert InVar(s, v, WordOf(Pos(s, p)), Pos(s, p) % 32) <==> p.v == v;
  }

  lemma VarEnds(s: Space, c: Struct, a: Cube, v: nat)
    requires Setup(s, c) && v < |s.sizes| && a <= Full(s)
    ensures |c.firstWord| == |c.lastWord| == |s.sizes|
    ensures VarBefore(s, a, v, c.firstWord[v]) == {}
    ensures VarBefore(s, a, v, c.lastWord[v] + 1) == PartsOf(a, {v})
  {
    hide Bit, Setup, Pos;
    VarAt(s, c, v);
    forall p | p in a && p.v == v
      ensures IsPart(s, p) && c.firstWord[v] <= WordOf(Pos(s, p)) <= c.lastWord[v]
    {
      assert p in Full(s);
      PartWord(s, c.varMask[v], p);
    }
  }

  lemma UnpackedFull(s: Space, a: Packing)
    requires |a| == NumWords(s)
    ensures Unpacked(s, a) <= Full(s)
  {
    hide Has;
  }

  /** Lower all parts of a multiple-valued variable. */
  method LowerVar(s: Space, c: Struct, x: array<bv32>, a: array<bv32>, v: nat)
    requires Setup(s, c) && x.Length == a.Length == NumWords(s) && x != a && v < |s.sizes|
    modifies x
    ensures Unpacked(s, x[..]) == old(Unpacked(s, x[..])) + PartsOf(Unpacked(s, a[..]), {v})
    ensures x[0] == old(x[0])
  {
    hide And, Or, Bit, Unpacked, Setup, VarMask;
    ghost var X, A := x[..], a[..];
    VarAt(s, c, v);
    UnpackedFull(s, A);
    VarEnds(s, c, Unpacked(s, A), v);
    var mask, last := c.varMask[v], c.lastWord[v];
    var w := c.firstWord[v];
    while w <= last
      invariant c.firstWord[v] <= w <= last + 1 && x[0] == X[0]
      invariant Unpacked(s, x[..]) == Unpacked(s, X) + VarBefore(s, Unpacked(s, A), v, w)
    {
      ghost var was := x[..];
      VarWord(s, A, v, mask, w);
      OrWord(s, was, w, And(A[w], mask[w]));
      x[w] := Or(x[w], And(a[w], mask[w]));
      assert x[..] == was[w := Or(was[w], And(A[w], mask[w]))];
      w := w + 1;
    }
  }

  lemma PartsJoin(a: Cube, vs: set<nat>, us: set<nat>)
    ensures PartsOf(a, vs + us) == PartsOf(a, vs) + PartsOf(a, us)
  {
  }

  lemma PartsNone(a: Cube)
    ensures PartsOf(a, {}) == {}
  {
  }

  /** The parts of a in the clashing variables that are binary or before v. */
  ghost function Lowered(s: Space, c: Struct, a: Packing, b: Packing, v: nat): Cube
    requires |a| == |b| == NumWords(s)
  {
    PartsOf(Unpacked(s, a), Found(s, a, b, c.inword, Last(c), v))
  }

  /** The binary words of forced lowering. */
  method ForceLowerBinary(s: Space, c: Struct, x: array<bv32>, a: array<bv32>, b: array<bv32>)
    requires Setup(s, c) && x.Length == a.Length == b.Length == NumWords(s) && x != a && x != b
    modifies x
    ensures Unpacked(s, x[..]) == old(Unpacked(s, x[..]))
                                + Lowered(s, c, a[..], b[..], s.numBinary)
    ensures x[0] == old(x[0])
  {
    hide NumWords, And, Or, Bit, Unpacked, Setup, PairMask, Clashes, Found, ClashWord, PartsOf;
    ghost var X, A, B := x[..], a[..], b[..];
    PartsNone(Unpacked(s, A));
    SetupWord(s, c);
    NoneFound(s, A, B);
    var last := c.inword;
    if last != -1 {
      InwordBound(s, c);
      FoundFirst(s, A, B, last);
      LowerWord(s, x, a, b, last, c.inmask);
      var w := 1;
      while w < last
        invariant 1 <= w <= last && x[0] == X[0]
        invariant Unpacked(s, x[..]) == Unpacked(s, X) + PartsOf(Unpacked(s, A), Found(s, A, B, last, w, s.numBinary))
      {
        FullWord(s, c, w);
        FoundNext(s, A, B, last, w);
        PartsJoin(Unpacked(s, A), Found(s, A, B, last, w, s.numBinary), ClashWord(s, A, B, w));
        LowerWord(s, x, a, b, w, DISJOINT);
        w := w + 1;
      }
    }
  }

  lemma LoweredNext(s: Space, c: Struct, a: Packing, b: Packing, v: nat)
    requires |a| == |b| == NumWords(s) && s.numBinary <= v < |s.sizes|
    ensures Lowered(s, c, a, b, v + 1)
         == Lowered(s, c, a, b, v)
             + (if v in Clashes(s, Unpacked(s, a), Unpacked(s, b)) then PartsOf(Unpacked(s, a), {v}) else {})
  {
    hide Unpacked, Clashes, Found;
    FoundVar(s, a, b, c.inword, Last(c), v);
  }

  lemma LoweredAll(s: Space, c: Struct, a: Packing, b: Packing)
    requires Setup(s, c) && |a| == |b| == NumWords(s)
    ensures Lowered(s, c, a, b, |s.sizes|) == PartsOf(Unpacked(s, a), Clashes(s, Unpacked(s, a), Unpacked(s, b)))
  {
    hide Unpacked, Clashes, Setup;
    SetupWord(s, c);
    FoundAll(s, a, b, c.inword, Last(c));
  }

  /** Add to x all parts of a in the variables in which a does not intersect b. */
  method ForceLower(s: Space, c: Struct, x: array<bv32>, a: array<bv32>, b: array<bv32>)
    requires Setup(s, c) && x.Length == a.Length == b.Length == NumWords(s) && x != a && x != b
    modifies x
    ensures Unpacked(s, x[..]) == old(Unpacked(s, x[..]))
                                + PartsOf(Unpacked(s, a[..]), Clashes(s, Unpacked(s, a[..]), Unpacked(s, b[..])))
    ensures x[0] == old(x[0])
  {
    hide Unpacked, Setup, Clashes, Lowered, PartsOf, NumWords;
    ghost var X, A, B := x[..], a[..], b[..];
    SetupWord(s, c);
    ForceLowerBinary(s, c, x, a, b);
    var v := s.numBinary;
    while v < |s.sizes|
      invariant s.numBinary <= v <= |s.sizes| && x[0] == X[0]
      invariant Unpacked(s, x[..]) == Unpacked(s, X) + Lowered(s, c, A, B, v)
    {
      LoweredNext(s, c, A, B, v);
      LowerEmpty(s, c, x, a, b, v);
      v := v + 1;
    }
    LoweredAll(s, c, A, B);
  }

  /** Lower a multiple-valued variable if it is empty in the intersection. */
  method LowerEmpty(s: Space, c: Struct, x: array<bv32>, a: array<bv32>, b: array<bv32>, v: nat)
    requires Setup(s, c) && x.Length == a.Length == b.Length == NumWords(s) && x != a && x != b && v < |s.sizes|
    modifies x
    ensures Unpacked(s, x[..]) == old(Unpacked(s, x[..]))
                                + (if v in Clashes(s, Unpacked(s, a[..]), Unpacked(s, b[..]))
                                    then PartsOf(Unpacked(s, a[..]), {v}) else {})
    ensures x[0] == old(x[0])
  {
    hide Unpacked, Setup, Clashes, PartsOf;
    var empty := NullVar(s, c, a, b, v);
    if empty {
      LowerVar(s, c, x, a, v);
    }
  }

  // ---- consensus

  /** What the consensus writes to a binary word: the consensus in the binary variables
      and the common parts of the others. */
  ghost function WordConsensus(s: Space, a: Cube, b: Cube, w: nat): (c: Cube)
    ensures forall p :: p in c <==>
      IsPart(s, p) && WordOf(Pos(s, p)) == w && if p.v < s.numBinary then p in Consensus(s, a, b) else p in a * b
  {
    set p | p in Full(s) && WordOf(Pos(s, p)) == w && if p.v < s.numBinary then p in Consensus(s, a, b) else p in a * b
  }

  lemma ConsensusWord(s: Space, a: Packing, b: Packing, w: nat, y: bv32)
    requires |a| == |b| == NumWords(s) && 1 <= w < |a| && Marks(s, a, b, w, y) && OnlyLower(y)
    ensures WordParts(s, w, And(a[w], b[w])) + WordParts(s, w, And(Pairs(y), Or(a[w], b[w])))
         == WordConsensus(s, Unpacked(s, a), Unpacked(s, b), w)
  {
    hide Bit, And, Or, Pairs, OnlyLower, Marks, Clashes, Pos, Consensus;
    forall p | IsPart(s, p) && WordOf(Pos(s, p)) == w
      ensures p in WordParts(s, w, And(a[w], b[w])) + WordParts(s, w, And(Pairs(y), Or(a[w], b[w])))
         <==> p in WordConsensus(s, Unpacked(s, a), Unpacked(s, b), w)
    {
      BitAnd(a[w], b[w], Pos(s, p) % 32);
      BitAnd(Pairs(y), Or(a[w], b[w]), Pos(s, p) % 32);
      BitOr(a[w], b[w], Pos(s, p) % 32);
      MarkedPart(s, a, b, w, y, p);
      if p.v < s.numBinary {
        BinaryWord(s, p);
        ConsensusPart(s, Unpacked(s, a), Unpacked(s, b), p);
      }
    }
  }

  /** A part of the consensus: common, or of one cube in a clashing variable. */
  lemma ConsensusPart(s: Space, a: Cube, b: Cube, p: Part)
    requires IsPart(s, p)
    ensures p in Consensus(s, a, b) <==> p in a * b || (p.v in Clashes(s, a, b) && p in a + b)
  {
    if p in a * b && p.v in Clashes(s, a, b) {
      InMask(s, p);
    }
  }

  /** The consensus in one binary word, which is still clear. */
  method ConsensusInWord(s: Space, r: array<bv32>, a: array<bv32>, b: array<bv32>, w: nat, m: bv32)
    requires r.Length == a.Length == b.Length == NumWords(s) && r != a && r != b && 1 <= w < r.Length
    requires PairMask(s, w, m)
    requires r[w] == 0
    modifies r
    ensures Unpacked(s, r[..]) == old(Unpacked(s, r[..])) + WordConsensus(s, Unpacked(s, a[..]), Unpacked(s, b[..]), w)
    ensures forall u :: 0 <= u < r.Length && u != w ==> r[u] == old(r[u])
  {
    hide And, Or, Bit, Pairs, Empty, PairMask, Marks, Unpacked, ClashWord, OnlyLower, WordParts, WordConsensus;
    ghost var R, A, B := r[..], a[..], b[..];
    var x := And(a[w], b[w]);
    var y := Empty(x, m);
    WordMarks(s, A, B, w, m);
    MaskLower(s, w, m);
    EmptyLower(x, m);
    ConsensusWord(s, A, B, w, y);
    SetWord(s, R, w, x);
    r[w] := x;
    ghost var R' := r[..];
    assert R' == R[w := x];
    if y != 0 {
      OrWord(s, R', w, And(Pairs(y), Or(A[w], B[w])));
      r[w] := Or(r[w], And(Pairs(y), Or(a[w], b[w])));
      assert r[..] == R'[w := Or(R'[w], And(Pairs(y), Or(A[w], B[w])))];
    } else {
      NoPairs(s, w, y, Or(A[w], B[w]));
    }
  }

  lemma NoPairs(s: Space, w: nat, y: bv32, x: bv32)
    requires y == 0
    ensures WordParts(s, w, And(Pairs(y), x)) == {}
  {
    hide Bit, Pos;
    NothingSet(x);
    forall p | IsPart(s, p)
      ensures !Bit(And(Pairs(y), x), Pos(s, p) % 32)
    {
      NoBit(Pos(s, p) % 32);
    }
  }

  lemma NothingSet(x: bv32)
    ensures And(Pairs(0), x) == 0
  {
  }

  lemma TwoAnd(s: Space, a: Packing, b: Packing, v: nat, m: Packing, w: nat)
    requires |a| == |b| == |m| == NumWords(s) && v < |s.sizes| && VarMask(s, v, m) && 1 <= w < |a|
    ensures VarBefore(s, Unpacked(s, a) * Unpacked(s, b), v, w) + WordParts(s, w, And(And(a[w], b[w]), m[w]))
         == VarBefore(s, Unpacked(s, a) * Unpacked(s, b), v, w + 1)
    ensures And(And(a[w], b[w]), m[w]) == 0 ==> WordParts(s, w, And(And(a[w], b[w]), m[w])) == {}
  {
    hide Bit, And, Pos;
    var y := And(And(a[w], b[w]), m[w]);
    forall p | IsPart(s, p) && WordOf(Pos(s, p)) == w
      ensures p in WordParts(s, w, y) <==> p in Unpacked(s, a) * Unpacked(s, b) && p.v == v
      ensures y == 0 ==> p !in WordParts(s, w, y)
    {
      ThreeBits(a[w], b[w], m[w], Pos(s, p) % 32);
      MaskBit(s, v, m, p);
      NoBit(Pos(s, p) % 32);
    }
  }

  lemma MaskedOr(s: Space, a: Packing, b: Packing, v: nat, m: Packing, w: nat)
    requires |a| == |b| == |m| == NumWords(s) && v < |s.sizes| && VarMask(s, v, m) && 1 <= w < |a|
    ensures VarBefore(s, Unpacked(s, a) + Unpacked(s, b), v, w) + WordParts(s, w, And(m[w], Or(a[w], b[w])))
         == VarBefore(s, Unpacked(s, a) + Unpacked(s, b), v, w + 1)
  {
    hide Bit, And, Or, Pos;
    forall p | IsPart(s, p) && WordOf(Pos(s, p)) == w
      ensures p in WordParts(s, w, And(m[w], Or(a[w], b[w]))) <==> p in Unpacked(s, a) + Unpacked(s, b) && p.v == v
    {
      BitAnd(m[w], Or(a[w], b[w]), Pos(s, p) % 32);
      BitOr(a[w], b[w], Pos(s, p) % 32);
      MaskBit(s, v, m, p);
    }
  }

  /** Add the common parts of a variable in one word, and tell whether there are none. */
  method AddCommonWord(s: Space, r: array<bv32>, a: array<bv32>, b: array<bv32>, v: nat, mask: Packing, w: nat)
      returns (none: bool)
    requires r.Length == a.Length == b.Length == |mask| == NumWords(s) && r != a && r != b
    requires v < |s.sizes| && VarMask(s, v, mask) && 1 <= w < r.Length
    modifies r
    ensures Unpacked(s, r[..]) + VarBefore(s, Unpacked(s, a[..]) * Unpacked(s, b[..]), v, w)
         == old(Unpacked(s, r[..])) + VarBefore(s, Unpacked(s, a[..]) * Unpacked(s, b[..]), v, w + 1)
    ensures old(Unpacked(s, r[..])) <= Unpacked(s, r[..]) && r[0] == old(r[0])
    ensures none ==> NullWord(a[..], b[..], mask, w)
    ensures !none ==> v !in Clashes(s, Unpacked(s, a[..]), Unpacked(s, b[..]))
  {
    hide And, Or, Bit, Unpacked, VarMask, WordParts, VarBefore, Clashes, NullWord;
    ghost var R, A, B := r[..], a[..], b[..];
    var x := And(And(a[w], b[w]), mask[w]);
    WordNull(A, B, mask, w);
    TwoAnd(s, A, B, v, mask, w);
    none := x == 0;
    if !none {
      VarShared(s, v, A, B, mask, w);
      OrWord(s, R, w, x);
      r[w] := Or(r[w], x);
      assert r[..] == R[w := Or(R[w], x)];
    }
  }

  /** Add the common parts in a variable, and tell whether there are none. */
  method AddCommon(s: Space, c: Struct, r: array<bv32>, a: array<bv32>, b: array<bv32>, v: nat) returns (empty: bool)
    requires Setup(s, c) && r.Length == a.Length == b.Length == NumWords(s) && r != a && r != b && v < |s.sizes|
    modifies r
    ensures Unpacked(s, r[..]) == old(Unpacked(s, r[..])) + PartsOf(Unpacked(s, a[..]) * Unpacked(s, b[..]), {v})
    ensures r[0] == old(r[0])
    ensures empty <==> v in Clashes(s, Unpacked(s, a[..]), Unpacked(s, b[..]))
  {
    hide NumWords, And, Or, Bit, Unpacked, Setup, VarMask, WordParts, VarBefore, PartsOf, Clashes, NullWord, NullUpTo,
      Added;
    ghost var R, A, B := r[..], a[..], b[..];
    ghost var UA, UB := Unpacked(s, A), Unpacked(s, B);
    VarAt(s, c, v);
    UnpackedFull(s, A);
    VarEnds(s, c, UA * UB, v);
    var mask, last := c.varMask[v], c.lastWord[v];
    empty := true;
    var w := c.firstWord[v];
    NullMore(A, B, mask, w, w);
    NoneAdded(Unpacked(s, R));
    while w <= last
      invariant c.firstWord[v] <= w <= last + 1 && r[0] == R[0]
      invariant Added(Unpacked(s, R), VarBefore(s, UA * UB, v, w), Unpacked(s, r[..]))
      invariant empty ==> NullUpTo(A, B, mask, c.firstWord[v], w)
      invariant !empty ==> v !in Clashes(s, UA, UB)
    {
      ghost var U := Unpacked(s, r[..]);
      var none := AddCommonWord(s, r, a, b, v, mask, w);
      BeforeGrows(s, UA * UB, v, w);
      AddStep(U, Unpacked(s, r[..]), Unpacked(s, R), VarBefore(s, UA * UB, v, w), VarBefore(s, UA * UB, v, w + 1));
      NullMore(A, B, mask, c.firstWord[v], w);
      empty := empty && none;
      w := w + 1;
    }
    AddedAll(Unpacked(s, R), PartsOf(UA * UB, {v}), Unpacked(s, r[..]));
    if empty {
      NullAll(s, v, A, B, mask, c.firstWord[v], last);
    }
  }

  /** The words from first on before w hold no common part. */
  ghost predicate NullUpTo(a: Packing, b: Packing, m: Packing, first: nat, w: nat) {
    |a| == |b| == |m| && w <= |a| && forall x :: first <= x < w ==> NullWord(a, b, m, x)
  }

  lemma NullMore(a: Packing, b: Packing, m: Packing, first: nat, w: nat)
    requires |a| == |b| == |m| && w < |a|
    ensures NullUpTo(a, b, m, first, w) && NullWord(a, b, m, w) ==> NullUpTo(a, b, m, first, w + 1)
    ensures first == w ==> NullUpTo(a, b, m, first, w)
  {
    hide NullWord;
  }

  lemma NullAll(s: Space, v: nat, a: Packing, b: Packing, m: Packing, first: nat, last: nat)
    requires v < |s.sizes| && |a| == |b| == |m| == NumWords(s) && VarMask(s, v, m)
    requires first == WordOf(First(s, v)) && last == WordOf(First(s, v) + s.sizes[v] - 1) < NumWords(s)
    requires NullUpTo(a, b, m, first, last + 1)
    ensures v in Clashes(s, Unpacked(s, a), Unpacked(s, b))
  {
    hide NullWord, VarMask, Clashes, Unpacked, WordOf, First, NumWords;
    VarNull(s, v, a, b, m, first, last);
  }

  lemma BeforeGrows(s: Space, a: Cube, v: nat, w: nat)
    ensures VarBefore(s, a, v, w) <= VarBefore(s, a, v, w + 1)
  {
    hide Pos;
  }

  /** U' has what U had and V besides. */
  ghost predicate Added(U: Cube, V: Cube, U': Cube) {
    U' == U + V
  }

  lemma NoneAdded(U: Cube)
    ensures Added(U, {}, U)
  {
  }

  lemma AddedAll(U: Cube, V: Cube, U': Cube)
    requires Added(U, V, U')
    ensures U' == U + V
  {
  }

  lemma AddStep(U: Cube, U': Cube, R: Cube, V: Cube, V': Cube)
    requires Added(R, V, U) && U' + V == U + V' && U <= U' && V <= V'
    ensures Added(R, V', U')
  {
    assert U' == U' + V;
  }

  /** The consensus in one multiple-valued variable. */
  method ConsensusVar(s: Space, c: Struct, r: array<bv32>, a: array<bv32>, b: array<bv32>, v: nat)
    requires Setup(s, c) && r.Length == a.Length == b.Length == NumWords(s) && r != a && r != b && v < |s.sizes|
    modifies r
    ensures Unpacked(s, r[..]) == old(Unpacked(s, r[..]))
        + PartsOf(Consensus(s, Unpacked(s, a[..]), Unpacked(s, b[..])), {v})
    ensures r[0] == old(r[0])
  {
    hide Unpacked, Setup, PartsOf, Consensus, Clashes;
    UnpackedFull(s, a[..]);
    UnpackedFull(s, b[..]);
    ConsensusParts(s, Unpacked(s, a[..]), Unpacked(s, b[..]), v);
    var empty := AddCommon(s, c, r, a, b, v);
    if empty {
      AddUnion(s, c, r, a, b, v);
    }
  }

  /** Add the parts of both cubes in a variable. */
  method AddUnion(s: Space, c: Struct, r: array<bv32>, a: array<bv32>, b: array<bv32>, v: nat)
    requires Setup(s, c) && r.Length == a.Length == b.Length == NumWords(s) && r != a && r != b && v < |s.sizes|
    modifies r
    ensures Unpacked(s, r[..]) == old(Unpacked(s, r[..])) + PartsOf(Unpacked(s, a[..]) + Unpacked(s, b[..]), {v})
    ensures r[0] == old(r[0])
  {
    hide And, Or, Bit, Unpacked, Setup, VarMask, WordParts, VarBefore, PartsOf;
    ghost var R, A, B := r[..], a[..], b[..];
    ghost var U := Unpacked(s, A) + Unpacked(s, B);
    VarAt(s, c, v);
    UnpackedFull(s, A);
    UnpackedFull(s, B);
    VarEnds(s, c, U, v);
    var mask, last := c.varMask[v], c.lastWord[v];
    var w := c.firstWord[v];
    while w <= last
      invariant c.firstWord[v] <= w <= last + 1 && r[0] == R[0]
      invariant Unpacked(s, r[..]) == Unpacked(s, R) + VarBefore(s, U, v, w)
    {
      ghost var was := r[..];
      MaskedOr(s, A, B, v, mask, w);
      OrWord(s, was, w, And(mask[w], Or(A[w], B[w])));
      r[w] := Or(r[w], And(mask[w], Or(a[w], b[w])));
      assert r[..] == was[w := Or(was[w], And(mask[w], Or(A[w], B[w])))];
      w := w + 1;
    }
  }

  /** The consensus in one variable. */
  lemma ConsensusParts(s: Space, a: Cube, b: Cube, v: nat)
    requires v < |s.sizes| && a <= Full(s) && b <= Full(s)
    ensures PartsOf(Consensus(s, a, b), {v})
         == PartsOf(a * b, {v}) + (if v in Clashes(s, a, b) then PartsOf(a + b, {v}) else {})
  {
    hide Consensus, Clashes;
    forall p | p in a + b
      ensures p in Consensus(s, a, b) <==> p in a * b || (p.v in Clashes(s, a, b) && p in a + b)
    {
      assert p in Full(s);
      ConsensusPart(s, a, b, p);
    }
    ConsensusIn(s, a, b);
  }

  lemma ConsensusIn(s: Space, a: Cube, b: Cube)
    ensures Consensus(s, a, b) <= a + b
  {
  }

  /** What the consensus has written: the binary words before w, the partial one and the
      variables before v. */
  ghost function Written(s: Space, a: Cube, b: Cube, inword: int, w: nat, v: nat): (c: Cube)
    ensures forall p :: p in c <==> IsPart(s, p) && InWritten(s, a, b, inword, w, v, p)
  {
    set p | p in Full(s) && InWritten(s, a, b, inword, w, v, p)
  }

  ghost predicate InWritten(s: Space, a: Cube, b: Cube, inword: int, w: nat, v: nat, p: Part)
    requires IsPart(s, p)
  {
    if p.v < s.numBinary then (p.v / 16 + 1 == inword || p.v / 16 + 1 < w) && p in Consensus(s, a, b)
    else (p.v < v && p in Consensus(s, a, b)) || (WordOf(Pos(s, p)) == inword && p in a * b)
  }

  lemma WrittenFirst(s: Space, a: Cube, b: Cube, inword: int)
    requires s.numBinary > 0 && inword == WordOf(2 * s.numBinary - 1)
    ensures Written(s, a, b, inword, 1, s.numBinary) == WordConsensus(s, a, b, inword)
  {
    hide Consensus, Pos;
    forall p | IsPart(s, p) && p.v < s.numBinary
      ensures WordOf(Pos(s, p)) == p.v / 16 + 1
    {
      BinaryWord(s, p);
    }
  }

  lemma WrittenNext(s: Space, a: Cube, b: Cube, inword: int, w: nat)
    requires s.numBinary > 0 && inword == WordOf(2 * s.numBinary - 1) && 1 <= w < inword
    ensures Written(s, a, b, inword, w + 1, s.numBinary) == Written(s, a, b, inword, w, s.numBinary)
        + WordConsensus(s, a, b, w)
  {
    hide Consensus, Pos;
    forall p | IsPart(s, p)
      ensures if p.v < s.numBinary then WordOf(Pos(s, p)) == p.v / 16 + 1 else WordOf(Pos(s, p)) > w
    {
      if p.v < s.numBinary {
        BinaryWord(s, p);
      } else {
        OtherWord(s, p);
      }
    }
  }

  lemma OtherWord(s: Space, p: Part)
    requires IsPart(s, p) && p.v >= s.numBinary
    ensures Pos(s, p) >= 2 * s.numBinary
  {
    FirstBinary(s, s.numBinary);
    FirstGrows(s, s.numBinary, p.v);
  }

  lemma WrittenVar(s: Space, a: Cube, b: Cube, inword: int, w: nat, v: nat)
    requires s.numBinary <= v < |s.sizes| && a <= Full(s) && b <= Full(s)
    ensures Written(s, a, b, inword, w, v + 1) == Written(s, a, b, inword, w, v) + PartsOf(Consensus(s, a, b), {v})
  {
    hide Consensus, Pos;
    ConsensusIn(s, a, b);
    forall p | p in a + b
      ensures IsPart(s, p)
    {
      assert p in Full(s);
    }
  }

  lemma WrittenNothing(s: Space, a: Cube, b: Cube)
    requires s.numBinary == 0
    ensures Written(s, a, b, -1, 1, 0) == {}
  {
  }

  lemma WrittenAll(s: Space, a: Cube, b: Cube, inword: int, w: nat)
    requires a <= Full(s) && b <= Full(s) && w >= inword && (s.numBinary > 0 ==> inword == WordOf(2 * s.numBinary - 1))
    ensures Written(s, a, b, inword, w, |s.sizes|) == Consensus(s, a, b)
  {
    hide Pos, Consensus, Clashes, InWritten;
    ConsensusIn(s, a, b);
    forall p | p in a + b
      ensures IsPart(s, p)
    {
      assert p in Full(s);
    }
    forall p | IsPart(s, p)
      ensures InWritten(s, a, b, inword, w, |s.sizes|, p) <==> p in Consensus(s, a, b)
    {
      WrittenPart(s, a, b, inword, w, p);
    }
  }

  lemma WrittenPart(s: Space, a: Cube, b: Cube, inword: int, w: nat, p: Part)
    requires a <= Full(s) && b <= Full(s) && w >= inword && (s.numBinary > 0 ==> inword == WordOf(2 * s.numBinary - 1))
    requires IsPart(s, p)
    ensures InWritten(s, a, b, inword, w, |s.sizes|, p) <==> p in Consensus(s, a, b)
  {
    hide Pos, Consensus, Clashes, Full;
    if p.v < s.numBinary {
      BinaryBelow(s, p.v);
    } else if p in a * b {
      CommonConsensus(s, a, b, p);
    }
  }

  lemma BinaryBelow(s: Space, v: nat)
    requires v < s.numBinary
    ensures v / 16 + 1 <= WordOf(2 * s.numBinary - 1)
  {
  }

  lemma CommonConsensus(s: Space, a: Cube, b: Cube, p: Part)
    requires p in a && p in b
    ensures p in Consensus(s, a, b)
  {
  }

  lemma ClearNothing(s: Space, x: Packing)
    requires |x| == NumWords(s) && forall w :: 1 <= w < |x| ==> x[w] == 0
    ensures Unpacked(s, x) == {}
  {
    hide Bit, Pos;
    forall p | IsPart(s, p)
      ensures !Has(s, x, p)
    {
      NoBit(Pos(s, p) % 32);
    }
  }

  /** The consensus of a and b; it is the one of the cubes, whatever their distance. */
  method PackedConsensus(s: Space, c: Struct, r: array<bv32>, a: array<bv32>, b: array<bv32>)
    requires Setup(s, c) && r.Length == a.Length == b.Length == NumWords(s) && r != a && r != b
    modifies r
    ensures Unpacked(s, r[..]) == Consensus(s, Unpacked(s, a[..]), Unpacked(s, b[..]))
  {
    hide NumWords, And, Or, Bit, Unpacked, Setup, PairMask, Written, WordConsensus, PartsOf, Consensus;
    ghost var A, B := a[..], b[..];
    ghost var UA, UB := Unpacked(s, A), Unpacked(s, B);
    SetupWord(s, c);
    UnpackedFull(s, A);
    UnpackedFull(s, B);
    var last := c.inword;
    var w := r.Length - 1;
    while w > 0
      invariant 0 <= w < r.Length && forall u :: w < u < r.Length ==> r[u] == 0
    {
      r[w] := 0;
      w := w - 1;
    }
    ClearNothing(s, r[..]);
    if last != -1 {
      InwordBound(s, c);
      WrittenFirst(s, UA, UB, last);
      ConsensusInWord(s, r, a, b, last, c.inmask);
      w := 1;
      while w < last
        invariant 1 <= w <= last && Unpacked(s, r[..]) == Written(s, UA, UB, last, w, s.numBinary)
        invariant forall u :: w <= u < r.Length && u != last ==> r[u] == 0
      {
        FullWord(s, c, w);
        WrittenNext(s, UA, UB, last, w);
        ConsensusInWord(s, r, a, b, w, DISJOINT);
        w := w + 1;
      }
    } else {
      WrittenNothing(s, UA, UB);
    }
    var v := s.numBinary;
    while v < |s.sizes|
      invariant s.numBinary <= v <= |s.sizes| && Unpacked(s, r[..]) == Written(s, UA, UB, last, Last(c), v)
    {
      WrittenVar(s, UA, UB, last, Last(c), v);
      ConsensusVar(s, c, r, a, b, v);
      v := v + 1;
    }
    WrittenAll(s, UA, UB, last, Last(c));
  }

  // ---- the setup

  /** Set one bit. */
  lemma InsertBit(x: bv32, j: nat, k: nat)
    requires j < 32 && k < 32
    ensures Bit(Or(x, Probe(j)), k) <==> Bit(x, k) || k == j
  {
    hide Probe, Or, Hit;
    BitOr(x, Probe(j), k);
    ProbesDiffer(j, k);
  }

  /** The positions from lo to before hi are set, and no others. */
  ghost predicate Range(m: Packing, lo: nat, hi: nat) {
    forall w, k :: 1 <= w < |m| && 0 <= k < 32 ==> (Bit(m[w], k) <==> lo <= 32 * (w - 1) + k < hi)
  }

  lemma RangeNext(m: Packing, lo: nat, hi: nat, m': Packing)
    requires Range(m, lo, hi) && lo <= hi && WordOf(hi) < |m|
    requires m' == m[WordOf(hi) := Or(m[WordOf(hi)], Probe(hi % 32))]
    ensures Range(m', lo, hi + 1)
  {
    hide Bit, Or, Probe;
    forall w, k | 1 <= w < |m'| && 0 <= k < 32
      ensures Bit(m'[w], k) <==> lo <= 32 * (w - 1) + k < hi + 1
    {
      if w == WordOf(hi) {
        InsertBit(m[w], hi % 32, k);
      }
    }
  }

  /** The mask with the positions from lo to before hi. */
  method RangeMask(n: nat, lo: nat, hi: nat) returns (mask: Packing)
    requires n > 0 && lo <= hi && (lo < hi ==> WordOf(hi - 1) < n)
    ensures |mask| == n && Range(mask, lo, hi)
  {
    hide Bit, Or, Probe, Range;
    var p := new bv32[n](i => 0);
    RangeEmpty(p[..], lo);
    var i := lo;
    while i < hi
      invariant lo <= i <= hi && Range(p[..], lo, i)
    {
      ghost var was := p[..];
      p[WordOf(i)] := Or(p[WordOf(i)], Probe(i % 32));
      RangeNext(was, lo, i, p[..]);
      i := i + 1;
    }
    mask := p[..];
  }

  lemma RangeEmpty(m: Packing, lo: nat)
    requires forall w :: 0 <= w < |m| ==> m[w] == 0
    ensures Range(m, lo, lo)
  {
    hide Bit;
    forall w, k | 1 <= w < |m| && 0 <= k < 32
      ensures !Bit(m[w], k)
    {
      NoBit(k);
    }
  }

  /** The variables before v are laid out, with their masks; the binary mask has the parts
      of the binary ones among them. */
  ghost predicate LaidOut(s: Space, c: Struct, v: nat) {
    && v <= |s.sizes| && |c.firstWord| == |c.lastWord| == |c.varMask| == v
    && forall u :: 0 <= u < v ==> LaidOutVar(s, c, u)
  }

  ghost predicate LaidOutVar(s: Space, c: Struct, u: nat)
    requires u < |s.sizes| && u < |c.firstWord| == |c.lastWord| == |c.varMask|
  {
    && c.firstWord[u] == WordOf(First(s, u)) && c.lastWord[u] == WordOf(First(s, u) + s.sizes[u] - 1)
    && |c.varMask[u]| == NumWords(s) && Range(c.varMask[u], First(s, u), First(s, u + 1))
  }

  /** Lay out the variables one behind the other. */
  method LayOut(s: Space) returns (c: Struct)
    ensures LaidOut(s, c, |s.sizes|) && c.inword == -1
  {
    hide Bit, Range;
    var n := NumWords(s);
    c := Struct([], [], [], -1, 0);
    var size, v := 0, 0;
    while v < |s.sizes|
      invariant 0 <= v <= |s.sizes| && size == First(s, v) && LaidOut(s, c, v) && c.inword == -1
    {
      FirstGrows(s, v + 1, |s.sizes|);
      var mask := RangeMask(n, size, size + s.sizes[v]);
      ghost var was := c;
      c := Struct(c.firstWord + [WordOf(size)], c.lastWord + [WordOf(size + s.sizes[v] - 1)], c.varMask + [mask], -1,
          0);
      LaidOutNext(s, was, v, c);
      size := size + s.sizes[v];
      v := v + 1;
    }
  }

  /** Set up the layout and the masks. */
  method CubeSetup(s: Space) returns (c: Struct)
    ensures Setup(s, c)
  {
    hide Bit, Range, Setup, LaidOut, PairMask, And;
    c := LayOut(s);
    if s.numBinary > 0 {
      BinaryFits(s);
      LaidOutAt(s, c, s.numBinary - 1);
      var binary := RangeMask(NumWords(s), 0, 2 * s.numBinary);
      var inword := c.lastWord[s.numBinary - 1];
      InmaskPairs(s, binary, inword);
      ghost var was := c;
      c := c.(inword := inword, inmask := And(binary[inword], DISJOINT));
      LaidOutSame(s, was, c);
    }
    SetupDone(s, c);
  }

  lemma LaidOutAt(s: Space, c: Struct, u: nat)
    requires LaidOut(s, c, |s.sizes|) && u < |s.sizes|
    ensures |c.firstWord| == |c.lastWord| == |c.varMask| == |s.sizes| && LaidOutVar(s, c, u)
  {
  }

  lemma LaidOutSame(s: Space, was: Struct, c: Struct)
    requires LaidOut(s, was, |s.sizes|) && c.firstWord == was.firstWord && c.lastWord == was.lastWord
    requires c.varMask == was.varMask
    ensures LaidOut(s, c, |s.sizes|)
  {
    hide Range;
    forall u | 0 <= u < |s.sizes|
      ensures LaidOutVar(s, c, u)
    {
      assert LaidOutVar(s, was, u);
    }
  }

  lemma LaidOutNext(s: Space, was: Struct, v: nat, c: Struct)
    requires v < |s.sizes| && LaidOut(s, was, v) && |c.firstWord| == |c.lastWord| == |c.varMask| == v + 1
    requires was.firstWord == c.firstWord[..v] && was.lastWord == c.lastWord[..v] && was.varMask == c.varMask[..v]
    requires LaidOutVar(s, c, v)
    ensures LaidOut(s, c, v + 1)
  {
    hide Range;
    forall u | 0 <= u < v + 1
      ensures LaidOutVar(s, c, u)
    {
      if u < v {
        assert LaidOutVar(s, was, u);
      }
    }
  }

  lemma BinaryFits(s: Space)
    requires s.numBinary > 0
    ensures s.numBinary <= |s.sizes| && WordOf(2 * s.numBinary - 1) < NumWords(s)
    ensures First(s, s.numBinary - 1) + s.sizes[s.numBinary - 1] == 2 * s.numBinary
  {
    FirstBinary(s, s.numBinary);
    FirstGrows(s, s.numBinary, |s.sizes|);
  }

  lemma InmaskPairs(s: Space, binary: Packing, w: nat)
    requires s.numBinary > 0 && w == WordOf(2 * s.numBinary - 1) < |binary| && Range(binary, 0, 2 * s.numBinary)
    ensures PairMask(s, w, And(binary[w], DISJOINT))
  {
    hide Bit, And;
    var m := And(binary[w], DISJOINT);
    forall j | 0 <= j < 16
      ensures PairMaskAt(s, w, m, j)
    {
      BitAnd(binary[w], DISJOINT, 2 * j);
      BitAnd(binary[w], DISJOINT, 2 * j + 1);
      DisjointBit(j);
    }
  }

  lemma SetupDone(s: Space, c: Struct)
    requires LaidOut(s, c, |s.sizes|)
    requires if s.numBinary == 0 then c.inword == -1
             else c.inword == WordOf(2 * s.numBinary - 1) && PairMask(s, c.inword, c.inmask)
    ensures Setup(s, c)
  {
    hide PairMask, Bit;
    forall v | 0 <= v < |s.sizes|
      ensures VarSetup(s, c, v)
    {
      assert LaidOutVar(s, c, v);
      MaskFromRange(s, v, c.varMask[v]);
    }
  }

  lemma MaskFromRange(s: Space, v: nat, m: Packing)
    requires v < |s.sizes| && |m| == NumWords(s) && Range(m, First(s, v), First(s, v + 1))
    ensures VarMask(s, v, m)
  {
    hide Bit;
  }
}
