/** Machine words of 32 bits and their single bits.  Bits 2j and 2j + 1 make a pair. */
module Words {

  /** The word with only the lower bit of the j-th pair set. */
  function PairProbe(j: nat): bv32
    requires j < 16
  {
    var j3, a: bv32 := if j < 8 then j else j - 8, if j < 8 then 1 else 0x10000;
    var j2, b := if j3 < 4 then j3 else j3 - 4, if j3 < 4 then a else a << 8;
    var j1, c := if j2 < 2 then j2 else j2 - 2, if j2 < 2 then b else b << 4;
    if j1 < 1 then c else c << 2
  }

  /** The word with only bit k set. */
  function Probe(k: nat): bv32
    requires k < 32
  {
    if k % 2 == 0 then PairProbe(k / 2) else PairProbe(k / 2) << 1
  }

  /** The words have a common bit. */
  predicate Hit(w: bv32, p: bv32) {
    w & p != 0
  }

  predicate Bit(w: bv32, k: nat)
    requires k < 32
  {
    Hit(w, Probe(k))
  }

  /** The lower bits of all pairs. */
  const DISJOINT: bv32 := 0x55555555

  predicate OneHot(p: bv32) {
    p != 0 && p & (p - 1) == 0
  }

  lemma PairOneHot(j: nat)
    requires j < 16
    ensures OneHot(PairProbe(j)) && OneHot(PairProbe(j) << 1) && PairProbe(j) & DISJOINT == PairProbe(j)
    ensures (PairProbe(j) << 1) & DISJOINT == 0
  {
  }

  lemma ProbeOneHot(k: nat)
    requires k < 32
    ensures OneHot(Probe(k))
  {
    hide PairProbe, OneHot;
    PairOneHot(k / 2);
  }

  function And(x: bv32, y: bv32): bv32 {
    x & y
  }

  function Or(x: bv32, y: bv32): bv32 {
    x | y
  }

  lemma BitAnd(x: bv32, y: bv32, k: nat)
    requires k < 32
    ensures Bit(And(x, y), k) <==> Bit(x, k) && Bit(y, k)
  {
    hide Probe, Hit, OneHot, And;
    ProbeOneHot(k);
    OneHotAnd(x, y, Probe(k));
  }

  lemma OneHotAnd(x: bv32, y: bv32, p: bv32)
    requires OneHot(p)
    ensures Hit(And(x, y), p) <==> Hit(x, p) && Hit(y, p)
  {
    WholeOrNone(x, p);
    WholeOrNone(y, p);
    AndParts(x, y, p);
  }

  lemma WholeOrNone(x: bv32, p: bv32)
    requires OneHot(p)
    ensures x & p == 0 || x & p == p
  {
  }

  lemma AndParts(x: bv32, y: bv32, p: bv32)
    ensures (x & y) & p == (x & p) & (y & p)
  {
  }

  lemma BitOr(x: bv32, y: bv32, k: nat)
    requires k < 32
    ensures Bit(Or(x, y), k) <==> Bit(x, k) || Bit(y, k)
  {
    hide Probe, Hit, Or;
    HitOr(x, y, Probe(k));
  }

  lemma HitOr(x: bv32, y: bv32, p: bv32)
    ensures Hit(Or(x, y), p) <==> Hit(x, p) || Hit(y, p)
  {
    hide Hit;
    HitIs(x, p);
    HitIs(y, p);
    HitIs(x | y, p);
    OrZero(x, y, p);
  }

  lemma HitIs(x: bv32, p: bv32)
    ensures Hit(x, p) <==> !(x & p == 0)
  {
  }

  lemma OrZero(x: bv32, y: bv32, p: bv32)
    ensures (x | y) & p == 0 <==> x & p == 0 && y & p == 0
  {
    Distribute(x, y, p);
    OrNone(x & p, y & p);
  }

  lemma Distribute(x: bv32, y: bv32, p: bv32)
    ensures (x | y) & p == (x & p) | (y & p)
  {
  }

  lemma OrNone(x: bv32, y: bv32)
    ensures x | y == 0 <==> x == 0 && y == 0
  {
  }

  lemma NoBit(k: nat)
    requires k < 32
    ensures !Bit(0, k)
  {
    hide Probe;
  }

  /** The lower bits of the pairs that are empty in x, among those of the mask. */
  function Empty(x: bv32, m: bv32): bv32 {
    !(x | (x >> 1)) & m
  }

  lemma EmptyBits(x: bv32, m: bv32, j: nat)
    requires j < 16
    ensures Bit(Empty(x, m), 2 * j) <==> Bit(m, 2 * j) && !Bit(x, 2 * j) && !Bit(x, 2 * j + 1)
    ensures Bit(Empty(x, m), 2 * j + 1) ==> Bit(m, 2 * j + 1)
  {
    hide PairProbe, Hit, OneHot, Empty;
    PairOneHot(j);
    EmptyProbe(x, m, PairProbe(j));
  }

  lemma EmptyProbe(x: bv32, m: bv32, p: bv32)
    requires OneHot(p) && OneHot(p << 1)
    ensures Hit(Empty(x, m), p) <==> Hit(m, p) && !Hit(x, p) && !Hit(x, p << 1)
    ensures Hit(Empty(x, m), p << 1) ==> Hit(m, p << 1)
  {
    var u := x | (x >> 1);
    WholeOrNone(m, p);
    WholeOrNone(u, p);
    EmptyParts(u, m, p);
    UnionHit(x, p);
    NotWider(!u, m, p << 1);
  }

  lemma EmptyParts(u: bv32, m: bv32, p: bv32)
    requires (m & p == 0 || m & p == p) && (u & p == 0 || u & p == p) && p != 0
    ensures ((!u) & m) & p != 0 <==> m & p != 0 && u & p == 0
  {
    assert ((!u) & m) & p == (m & p) & !(u & p);
  }

  lemma UnionHit(x: bv32, p: bv32)
    ensures Hit(x | (x >> 1), p) <==> Hit(x, p) || Hit(x, p << 1)
  {
    hide Hit;
    HitOr(x, x >> 1, p);
    ShiftHit(x, p);
  }

  lemma ShiftHit(x: bv32, p: bv32)
    ensures Hit(x >> 1, p) <==> Hit(x, p << 1)
  {
  }

  lemma NotWider(u: bv32, m: bv32, p: bv32)
    ensures (u & m) & p != 0 ==> m & p != 0
  {
  }

  /** Both bits of the pairs whose lower bit is set. */
  function Pairs(x: bv32): bv32 {
    x | (x << 1)
  }

  lemma PairsBits(x: bv32, j: nat)
    requires j < 16 && OnlyLower(x)
    ensures Bit(Pairs(x), 2 * j) <==> Bit(x, 2 * j)
    ensures Bit(Pairs(x), 2 * j + 1) <==> Bit(x, 2 * j)
  {
    hide PairProbe, Hit, OneHot, Pairs, OnlyLower;
    PairOneHot(j);
    PairsProbe(x, PairProbe(j));
  }

  predicate OnlyLower(x: bv32) {
    x & DISJOINT == x
  }

  lemma PairsProbe(x: bv32, p: bv32)
    requires OnlyLower(x) && p & DISJOINT == p && (p << 1) & DISJOINT == 0 && OneHot(p << 1)
    ensures Hit(Pairs(x), p) <==> Hit(x, p)
    ensures Hit(Pairs(x), p << 1) <==> Hit(x, p)
  {
  }

  lemma EmptyLower(x: bv32, m: bv32)
    requires OnlyLower(m)
    ensures OnlyLower(Empty(x, m))
  {
  }

  /** DISJOINT has the lower bits. */
  lemma DisjointBit(j: nat)
    requires j < 16
    ensures Bit(DISJOINT, 2 * j) && !Bit(DISJOINT, 2 * j + 1)
  {
    hide PairProbe, Hit, OneHot;
    PairOneHot(j);
    DisjointProbe(PairProbe(j));
  }

  lemma DisjointProbe(p: bv32)
    requires OneHot(p) && p & DISJOINT == p && (p << 1) & DISJOINT == 0
    ensures Hit(DISJOINT, p) && !Hit(DISJOINT, p << 1)
  {
  }

  /** A word is zero when it has no bit. */
  lemma AllBits(w: bv32)
    requires forall k :: 0 <= k < 32 ==> !Bit(w, k)
    ensures w == 0
  {
    assert !Bit(w, 0); assert !Bit(w, 1); assert !Bit(w, 2); assert !Bit(w, 3); assert !Bit(w, 4); assert !Bit(w, 5);
    assert !Bit(w, 6); assert !Bit(w, 7);
    assert !Bit(w, 8); assert !Bit(w, 9); assert !Bit(w, 10); assert !Bit(w, 11); assert !Bit(w, 12);
    assert !Bit(w, 13); assert !Bit(w, 14); assert !Bit(w, 15);
    assert !Bit(w, 16); assert !Bit(w, 17); assert !Bit(w, 18); assert !Bit(w, 19); assert !Bit(w, 20);
    assert !Bit(w, 21); assert !Bit(w, 22); assert !Bit(w, 23);
    assert !Bit(w, 24); assert !Bit(w, 25); assert !Bit(w, 26); assert !Bit(w, 27); assert !Bit(w, 28);
    assert !Bit(w, 29); assert !Bit(w, 30); assert !Bit(w, 31);
    NoBits(w);
  }

  lemma NoBits(w: bv32)
    requires w & 0x1 == 0 && w & 0x2 == 0 && w & 0x4 == 0 && w & 0x8 == 0 && w & 0x10 == 0 && w & 0x20 == 0
    requires w & 0x40 == 0 && w & 0x80 == 0
      && w & 0x100 == 0 && w & 0x200 == 0 && w & 0x400 == 0 && w & 0x800 == 0 && w & 0x1000 == 0 && w & 0x2000 == 0
      && w & 0x4000 == 0 && w & 0x8000 == 0
      && w & 0x10000 == 0 && w & 0x20000 == 0 && w & 0x40000 == 0 && w & 0x80000 == 0 && w & 0x100000 == 0
      && w & 0x200000 == 0 && w & 0x400000 == 0 && w & 0x800000 == 0
      && w & 0x1000000 == 0 && w & 0x2000000 == 0 && w & 0x4000000 == 0 && w & 0x8000000 == 0 && w & 0x10000000 == 0
      && w & 0x20000000 == 0 && w & 0x40000000 == 0 && w & 0x80000000 == 0
    ensures w == 0
  {
  }

  /** Words with the same bits are equal. */
  lemma SameBits(x: bv32, y: bv32)
    requires forall k :: 0 <= k < 32 ==> (Bit(x, k) <==> Bit(y, k))
    ensures x == y
  {
    hide Probe, Hit;
    var z := x ^ y;
    forall k | 0 <= k < 32
      ensures !Bit(z, k)
    {
      BitXor(x, y, k);
    }
    AllBits(z);
    XorZero(x, y);
  }

  lemma BitXor(x: bv32, y: bv32, k: nat)
    requires k < 32
    ensures Bit(x ^ y, k) <==> Bit(x, k) != Bit(y, k)
  {
    hide Probe, Hit, OneHot;
    ProbeOneHot(k);
    OneHotXor(x, y, Probe(k));
  }

  lemma OneHotXor(x: bv32, y: bv32, p: bv32)
    requires OneHot(p)
    ensures Hit(x ^ y, p) <==> Hit(x, p) != Hit(y, p)
  {
  }

  lemma XorZero(x: bv32, y: bv32)
    requires x ^ y == 0
    ensures x == y
  {
  }

  /** Different bits have different words. */
  lemma ProbesDiffer(k: nat, k': nat)
    requires k < 32 && k' < 32
    ensures Hit(Probe(k), Probe(k')) <==> k == k'
  {
    hide PairProbe;
    PairOneHot(k / 2);
    PairOneHot(k' / 2);
    if k / 2 != k' / 2 {
      if k < k' {
        PairsDiffer(k / 2, k' / 2);
      } else {
        PairsDiffer(k' / 2, k / 2);
      }
    }
  }

  lemma PairsDiffer(i: nat, j: nat)
    requires i < j < 16
    ensures PairProbe(i) & PairProbe(j) == 0 && (PairProbe(i) << 1) & PairProbe(j) == 0
    ensures PairProbe(i) & (PairProbe(j) << 1) == 0 && (PairProbe(i) << 1) & (PairProbe(j) << 1) == 0
  {
  }
}
