/** Cubes packed into machine words, and the word-parallel operations on them. */
module Packed {
  import opened Cubes
  import opened Counting
  import opened Words

  // ---- the layout

  /** The parts of all variables follow each other; the first part of variable v. */
  function First(s: Space, v: nat): (e: nat)
    requires v <= |s.sizes|
  {
    if v == 0 then 0 else First(s, v - 1) + s.sizes[v - 1]
  }

  function WordOf(e: nat): nat {
    e / 32 + 1
  }

  /** Word 0 is the header. */
  function NumWords(s: Space): (n: nat)
    ensures n >= 2
  {
    FirstGrows(s, 0, |s.sizes|);
    WordOf(First(s, |s.sizes|) - 1) + 1
  }

  lemma {:induction false} FirstGrows(s: Space, u: nat, v: nat)
    requires u <= v <= |s.sizes|
    ensures First(s, u) + (v - u) <= First(s, v)
    decreases v - u
  {
    if u < v {
      FirstGrows(s, u, v - 1);
    }
  }

  lemma {:induction false} FirstBinary(s: Space, v: nat)
    requires v <= s.numBinary
    ensures v <= |s.sizes| && First(s, v) == 2 * v
  {
    if v > 0 {
      FirstBinary(s, v - 1);
    }
  }

  predicate IsPart(s: Space, p: Part) {
    p.v < |s.sizes| && p.k < s.sizes[p.v]
  }

  function Pos(s: Space, p: Part): (e: nat)
    requires IsPart(s, p)
    ensures WordOf(e) < NumWords(s)
  {
    FirstGrows(s, p.v + 1, |s.sizes|);
    First(s, p.v) + p.k
  }

  /** The part at every position of a variable's range is one of its parts. */
  lemma PosUnique(s: Space, p: Part, v: nat)
    requires IsPart(s, p) && v < |s.sizes|
    ensures First(s, v) <= Pos(s, p) < First(s, v + 1) <==> p.v == v
  {
    if p.v < v {
      FirstGrows(s, p.v + 1, v);
    } else if v < p.v {
      FirstGrows(s, v + 1, p.v);
    }
  }

  type Packing = seq<bv32>

  predicate Has(s: Space, a: Packing, p: Part)
    requires IsPart(s, p) && |a| == NumWords(s)
  {
    Bit(a[WordOf(Pos(s, p))], Pos(s, p) % 32)
  }

  /** The cube that is packed in the words. */
  function Unpacked(s: Space, a: Packing): (c: Cube)
    requires |a| == NumWords(s)
    ensures forall p :: p in c <==> IsPart(s, p) && Has(s, a, p)
  {
    set p | p in Full(s) && Has(s, a, p)
  }

  // ---- the masks

  datatype Struct = Struct(firstWord: seq<nat>, lastWord: seq<nat>, varMask: seq<Packing>, inword: int, inmask: bv32)

  /** The mask selects the lower bits of the binary variables in word w. */
  ghost predicate PairMask(s: Space, w: nat, m: bv32) {
    forall j :: 0 <= j < 16 ==> PairMaskAt(s, w, m, j)
  }

  ghost predicate PairMaskAt(s: Space, w: nat, m: bv32, j: nat)
    requires j < 16
  {
    !Bit(m, 2 * j + 1) && (Bit(m, 2 * j) <==> 16 * (w - 1) + j < s.numBinary)
  }

  /** The mask has exactly the bits of variable v. */
  ghost predicate VarMask(s: Space, v: nat, m: Packing)
    requires v < |s.sizes|
  {
    |m| == NumWords(s) && forall w, k :: 1 <= w < |m| && 0 <= k < 32 ==> (Bit(m[w], k) <==> InVar(s, v, w, k))
  }

  ghost predicate InVar(s: Space, v: nat, w: nat, k: nat)
    requires v < |s.sizes| && w > 0
  {
    First(s, v) <= 32 * (w - 1) + k < First(s, v + 1)
  }

  /** What the setup of the cube structure provides. */
  ghost predicate Setup(s: Space, c: Struct) {
    && |c.firstWord| == |c.lastWord| == |c.varMask| == |s.sizes|
    && (forall v :: 0 <= v < |s.sizes| ==> VarSetup(s, c, v))
    && (if s.numBinary == 0 then c.inword == -1
        else c.inword == WordOf(2 * s.numBinary - 1) && PairMask(s, c.inword, c.inmask))
  }

  ghost predicate VarSetup(s: Space, c: Struct, v: nat)
    requires v < |s.sizes| && |c.firstWord| == |c.lastWord| == |c.varMask| == |s.sizes|
  {
    && c.firstWord[v] == WordOf(First(s, v))
    && c.lastWord[v] == WordOf(First(s, v) + s.sizes[v] - 1)
    && VarMask(s, v, c.varMask[v])
  }

  // ---- binary variables, word by word

  /** The parts of the binary variable v are the j-th pair of word w. */
  lemma BinaryAt(s: Space, v: nat)
    requires v < s.numBinary
    ensures v < |s.sizes| && s.sizes[v] == 2 && Pos(s, Part(v, 0)) == 2 * v && Pos(s, Part(v, 1)) == 2 * v + 1
  {
    FirstBinary(s, v);
  }

  /** The pair of a binary variable is empty in a and b exactly if they clash in it. */
  lemma ClashBinary(s: Space, a: Packing, b: Packing, w: nat, j: nat)
    requires |a| == |b| == NumWords(s) && 1 <= w < |a| && j < 16 && 16 * (w - 1) + j < s.numBinary
    ensures 16 * (w - 1) + j in Clashes(s, Unpacked(s, a), Unpacked(s, b))
       <==> !Bit(And(a[w], b[w]), 2 * j) && !Bit(And(a[w], b[w]), 2 * j + 1)
  {
    hide Bit, And, Unpacked, Clashes;
    var v := 16 * (w - 1) + j;
    BinaryAt(s, v);
    BitAnd(a[w], b[w], 2 * j);
    BitAnd(a[w], b[w], 2 * j + 1);
    BinaryPart(s, a, w, j);
    BinaryPart(s, b, w, j);
    ClashPair(s, Unpacked(s, a), Unpacked(s, b), v);
  }

  lemma BinaryPart(s: Space, a: Packing, w: nat, j: nat)
    requires |a| == NumWords(s) && 1 <= w < |a| && j < 16 && 16 * (w - 1) + j < s.numBinary
    ensures Part(16 * (w - 1) + j, 0) in Unpacked(s, a) <==> Bit(a[w], 2 * j)
    ensures Part(16 * (w - 1) + j, 1) in Unpacked(s, a) <==> Bit(a[w], 2 * j + 1)
  {
    hide Bit, Pos;
    var v := 16 * (w - 1) + j;
    BinaryAt(s, v);
    assert WordOf(2 * v) == w == WordOf(2 * v + 1);
    assert 2 * v % 32 == 2 * j && (2 * v + 1) % 32 == 2 * j + 1;
  }

  lemma ClashPair(s: Space, a: Cube, b: Cube, v: nat)
    requires v < |s.sizes| && s.sizes[v] == 2
    ensures v in Clashes(s, a, b) <==> !(Part(v, 0) in a && Part(v, 0) in b) && !(Part(v, 1) in a && Part(v, 1) in b)
  {
    if a * b * Mask(s, v) != {} {
      var p := Member(a * b * Mask(s, v));
      assert p.k == 0 || p.k == 1;
    } else {
      assert Part(v, 0) !in a * b * Mask(s, v) && Part(v, 1) !in a * b * Mask(s, v);
      assert Part(v, 0) in Mask(s, v) && Part(v, 1) in Mask(s, v);
    }
  }

  /** y marks the binary variables of word w in which a and b clash. */
  ghost predicate Marks(s: Space, a: Packing, b: Packing, w: nat, y: bv32)
    requires |a| == |b| == NumWords(s)
  {
    forall j :: 0 <= j < 16 ==> MarksAt(s, a, b, w, y, j)
  }

  ghost predicate MarksAt(s: Space, a: Packing, b: Packing, w: nat, y: bv32, j: nat)
    requires |a| == |b| == NumWords(s) && j < 16
  {
    && !Bit(y, 2 * j + 1)
    && (Bit(y, 2 * j) <==>
        0 <= 16 * (w - 1) + j < s.numBinary && 16 * (w - 1) + j in Clashes(s, Unpacked(s, a), Unpacked(s, b)))
  }

  lemma WordMarks(s: Space, a: Packing, b: Packing, w: nat, m: bv32)
    requires |a| == |b| == NumWords(s) && 1 <= w < |a| && PairMask(s, w, m)
    ensures Marks(s, a, b, w, Empty(And(a[w], b[w]), m))
  {
    hide Bit, And, Empty, Clashes, Unpacked;
    var x := And(a[w], b[w]);
    var y := Empty(x, m);
    forall j | 0 <= j < 16
      ensures MarksAt(s, a, b, w, y, j)
    {
      assert PairMaskAt(s, w, m, j);
      EmptyBits(x, m, j);
      if 16 * (w - 1) + j < s.numBinary {
        ClashBinary(s, a, b, w, j);
      }
    }
  }

  /** All words before the last one of the binary part are full. */
  lemma FullWord(s: Space, c: Struct, w: nat)
    requires Setup(s, c) && 1 <= w < c.inword
    ensures PairMask(s, w, DISJOINT)
  {
    hide Bit, VarSetup;
    forall j | 0 <= j < 16
      ensures PairMaskAt(s, w, DISJOINT, j)
    {
      DisjointBit(j);
    }
  }

  lemma InwordBound(s: Space, c: Struct)
    requires Setup(s, c) && s.numBinary > 0
    ensures 1 <= c.inword < NumWords(s) && PairMask(s, c.inword, c.inmask)
  {
    hide VarSetup, PairMask;
    FirstBinary(s, s.numBinary);
    FirstGrows(s, s.numBinary, |s.sizes|);
  }

  /** The binary variables of word w in which a and b clash. */
  ghost function ClashWord(s: Space, a: Packing, b: Packing, w: nat): (vs: set<nat>)
    requires |a| == |b| == NumWords(s)
  {
    set v | v in Clashes(s, Unpacked(s, a), Unpacked(s, b)) && v < s.numBinary && v / 16 + 1 == w
  }

  function Bits(y: bv32): (ks: set<nat>)
    ensures forall k: nat :: k in ks <==> k < 32 && Bit(y, k)
  {
    set k: nat | k < 32 && Bit(y, k)
  }

  function CountOnes(y: bv32): nat {
    |Bits(y)|
  }

  /** As many bits are marked as variables clash. */
  lemma MarksCount(s: Space, a: Packing, b: Packing, w: nat, y: bv32)
    requires |a| == |b| == NumWords(s) && w >= 1 && Marks(s, a, b, w, y)
    ensures CountOnes(y) == |ClashWord(s, a, b, w)| && (y == 0 <==> ClashWord(s, a, b, w) == {})
  {
    hide Bit, Clashes, Unpacked;
    var S, T := Bits(y), ClashWord(s, a, b, w);
    var off := 16 * (w - 1);
    forall k | k in S
      ensures k % 2 == 0
    {
      assert k % 2 != 0 ==> k == 2 * (k / 2) + 1;
      assert MarksAt(s, a, b, w, y, k / 2);
    }
    forall v: nat
      ensures v in T <==> v >= off && 2 * (v - off) in S
    {
      if off <= v < off + 16 {
        assert MarksAt(s, a, b, w, y, v - off);
      }
    }
    PairCount(S, T, off);
    ZeroBits(y);
  }

  lemma ZeroBits(y: bv32)
    ensures y == 0 <==> CountOnes(y) == 0
  {
    hide Bit;
    if y == 0 {
      forall k: nat | k < 32
        ensures !Bit(y, k)
      {
        NoBit(k);
      }
      assert Bits(y) == {};
    } else if Bits(y) == {} {
      forall k | 0 <= k < 32
        ensures !Bit(y, k)
      {
        assert k !in Bits(y);
      }
      AllBits(y);
    }
  }

  lemma {:induction false} PairCount(S: set<nat>, T: set<nat>, off: nat)
    requires forall k :: k in S ==> k % 2 == 0
    requires forall v: nat :: v in T <==> v >= off && 2 * (v - off) in S
    ensures |S| == |T|
    decreases |S|
  {
    if S == {} {
      assert T == {};
    } else {
      var k := Member(S);
      var v := off + k / 2;
      assert v in T;
      PairCount(S - {k}, T - {v}, off);
    }
  }

  // ---- multiple-valued variables

  /** Word w holds no common part of a and b in the variable. */
  ghost predicate NullWord(a: Packing, b: Packing, m: Packing, w: nat)
    requires |a| == |b| == |m| && w < |a|
  {
    And(And(a[w], b[w]), m[w]) == 0
  }

  lemma WordNull(a: Packing, b: Packing, m: Packing, w: nat)
    requires |a| == |b| == |m| && w < |a|
    ensures And(And(a[w], b[w]), m[w]) == 0 <==> NullWord(a, b, m, w)
  {
  }

  /** The variable is empty in the intersection of a and b. */
  method NullVar(s: Space, c: Struct, a: array<bv32>, b: array<bv32>, v: nat) returns (empty: bool)
    requires Setup(s, c) && a.Length == b.Length == NumWords(s) && v < |s.sizes|
    ensures empty <==> v in Clashes(s, Unpacked(s, a[..]), Unpacked(s, b[..]))
  {
    hide And, Bit, VarMask, Clashes, Unpacked, Setup, NullWord;
    VarAt(s, c, v);
    ghost var A, B := a[..], b[..];
    var mask, last := c.varMask[v], c.lastWord[v];
    var w := c.firstWord[v];
    while w <= last
      invariant c.firstWord[v] <= w <= last + 1
      invariant forall x :: c.firstWord[v] <= x < w ==> NullWord(A, B, mask, x)
    {
      var x := And(And(a[w], b[w]), mask[w]);
      WordNull(A, B, mask, w);
      if x != 0 {
        VarShared(s, v, A, B, mask, w);
        return false;
      }
      w := w + 1;
    }
    VarNull(s, v, A, B, mask, c.firstWord[v], last);
    empty := true;
  }

  lemma VarAt(s: Space, c: Struct, v: nat)
    requires Setup(s, c) && v < |s.sizes|
    ensures |c.firstWord| == |c.lastWord| == |c.varMask| == |s.sizes| && VarMask(s, v, c.varMask[v])
    ensures |c.varMask[v]| == NumWords(s)
    ensures c.firstWord[v] == WordOf(First(s, v)) && c.lastWord[v] == WordOf(First(s, v) + s.sizes[v] - 1)
    ensures 1 <= c.firstWord[v] <= c.lastWord[v] < NumWords(s)
  {
    assert VarSetup(s, c, v);
    FirstGrows(s, v + 1, |s.sizes|);
  }

  lemma ThreeBits(x: bv32, y: bv32, m: bv32, k: nat)
    requires k < 32
    ensures Bit(And(And(x, y), m), k) <==> Bit(x, k) && Bit(y, k) && Bit(m, k)
  {
    hide Bit, And;
    BitAnd(And(x, y), m, k);
    BitAnd(x, y, k);
  }

  lemma SomeBit(y: bv32) returns (k: nat)
    requires y != 0
    ensures k < 32 && Bit(y, k)
  {
    hide Bit;
    ZeroBits(y);
    assert Bits(y) != {};
    k := Member(Bits(y));
  }

  /** The part at bit k of word w, where the mask of the variable has it. */
  lemma PartAt(s: Space, v: nat, m: Packing, w: nat, k: nat) returns (p: Part)
    requires v < |s.sizes| && VarMask(s, v, m) && 1 <= w < |m| && k < 32 && Bit(m[w], k)
    ensures IsPart(s, p) && p.v == v && Pos(s, p) == 32 * (w - 1) + k
  {
    hide Bit;
    assert InVar(s, v, w, k);
    p := Part(v, 32 * (w - 1) + k - First(s, v));
  }

  /** Where the parts of a variable are. */
  lemma PartWord(s: Space, m: Packing, p: Part)
    requires IsPart(s, p) && VarMask(s, p.v, m)
    ensures WordOf(First(s, p.v)) <= WordOf(Pos(s, p)) <= WordOf(First(s, p.v) + s.sizes[p.v] - 1)
    ensures 1 <= WordOf(Pos(s, p)) < |m| && Bit(m[WordOf(Pos(s, p))], Pos(s, p) % 32)
  {
    hide Bit;
    assert InVar(s, p.v, WordOf(Pos(s, p)), Pos(s, p) % 32);
  }

  lemma VarShared(s: Space, v: nat, a: Packing, b: Packing, m: Packing, w: nat)
    requires v < |s.sizes| && |a| == |b| == |m| == NumWords(s) && VarMask(s, v, m) && 1 <= w < |a|
    requires !NullWord(a, b, m, w)
    ensures v !in Clashes(s, Unpacked(s, a), Unpacked(s, b))
  {
    hide Bit, VarMask, And, Pos;
    var k := SomeBit(And(And(a[w], b[w]), m[w]));
    ThreeBits(a[w], b[w], m[w], k);
    var p := PartAt(s, v, m, w, k);
    assert Has(s, a, p) && Has(s, b, p);
    InMask(s, p);
    assert p in Unpacked(s, a) * Unpacked(s, b) * Mask(s, v);
  }

  lemma InMask(s: Space, p: Part)
    requires IsPart(s, p)
    ensures p in Mask(s, p.v)
  {
  }

  lemma VarNull(s: Space, v: nat, a: Packing, b: Packing, m: Packing, first: nat, last: nat)
    requires v < |s.sizes| && |a| == |b| == NumWords(s) && VarMask(s, v, m)
    requires first == WordOf(First(s, v)) && last == WordOf(First(s, v) + s.sizes[v] - 1) < NumWords(s) == |m|
    requires forall x :: first <= x <= last ==> NullWord(a, b, m, x)
    ensures v in Clashes(s, Unpacked(s, a), Unpacked(s, b))
  {
    hide Bit, VarMask, And, Pos, NullWord, Clashes, Unpacked, WordOf;
    if v !in Clashes(s, Unpacked(s, a), Unpacked(s, b)) {
      var p := SharedPart(s, v, a, b);
      PartWord(s, m, p);
      NullPart(a, b, m, WordOf(Pos(s, p)), Pos(s, p) % 32);
    }
  }

  lemma SharedPart(s: Space, v: nat, a: Packing, b: Packing) returns (p: Part)
    requires v < |s.sizes| && |a| == |b| == NumWords(s) && v !in Clashes(s, Unpacked(s, a), Unpacked(s, b))
    ensures IsPart(s, p) && p.v == v && Has(s, a, p) && Has(s, b, p)
  {
    hide Bit, Pos;
    p := Member(Unpacked(s, a) * Unpacked(s, b) * Mask(s, v));
  }

  lemma NullPart(a: Packing, b: Packing, m: Packing, w: nat, k: nat)
    requires |a| == |b| == |m| && w < |a| && k < 32 && NullWord(a, b, m, w)
    ensures !(Bit(a[w], k) && Bit(b[w], k) && Bit(m[w], k))
  {
    hide Bit, And;
    ThreeBits(a[w], b[w], m[w], k);
    NoBit(k);
  }

  // ---- distances

  /** The variables found to clash when the partial word, the words before w and the
      multiple-valued variables before v have been looked at. */
  ghost function Found(s: Space, a: Packing, b: Packing, inword: int, w: nat, v: nat): (vs: set<nat>)
    requires |a| == |b| == NumWords(s)
  {
    set u | u in Clashes(s, Unpacked(s, a), Unpacked(s, b))
      && (if u < s.numBinary then u / 16 + 1 == inword || u / 16 + 1 < w else u < v)
  }

  lemma FoundFirst(s: Space, a: Packing, b: Packing, inword: int)
    requires |a| == |b| == NumWords(s) && inword >= 1
    ensures Found(s, a, b, inword, 1, s.numBinary) == ClashWord(s, a, b, inword)
  {
    hide Clashes, Unpacked;
  }

  lemma FoundNext(s: Space, a: Packing, b: Packing, inword: int, w: nat)
    requires |a| == |b| == NumWords(s) && 1 <= w < inword
    ensures Found(s, a, b, inword, w + 1, s.numBinary) == Found(s, a, b, inword, w, s.numBinary) + ClashWord(s, a, b, w)
    ensures |Found(s, a, b, inword, w + 1, s.numBinary)| == |Found(s, a, b, inword, w, s.numBinary)|
        + |ClashWord(s, a, b, w)|
  {
    hide Clashes, Unpacked;
    assert Found(s, a, b, inword, w, s.numBinary) * ClashWord(s, a, b, w) == {};
    assert Found(s, a, b, inword, w + 1, s.numBinary) == Found(s, a, b, inword, w, s.numBinary) + ClashWord(s, a, b, w);
  }

  lemma FoundVar(s: Space, a: Packing, b: Packing, inword: int, w: nat, v: nat)
    requires |a| == |b| == NumWords(s) && s.numBinary <= v < |s.sizes|
    ensures Found(s, a, b, inword, w, v + 1)
         == Found(s, a, b, inword, w, v) + (if v in Clashes(s, Unpacked(s, a), Unpacked(s, b)) then {v} else {})
    ensures v !in Found(s, a, b, inword, w, v)
  {
    hide Clashes, Unpacked;
  }

  lemma FoundAll(s: Space, a: Packing, b: Packing, inword: int, w: nat)
    requires |a| == |b| == NumWords(s) && w >= inword && (s.numBinary > 0 ==> inword == WordOf(2 * s.numBinary - 1))
    ensures Found(s, a, b, inword, w, |s.sizes|) == Clashes(s, Unpacked(s, a), Unpacked(s, b))
  {
    hide Unpacked;
  }

  lemma FoundMore(s: Space, a: Packing, b: Packing, inword: int, w: nat, v: nat, w': nat, v': nat)
    requires |a| == |b| == NumWords(s) && w <= w' && v <= v'
    ensures |Found(s, a, b, inword, w, v)| <= |Found(s, a, b, inword, w', v')|
  {
    hide Unpacked, Clashes;
    SubsetCard(Found(s, a, b, inword, w, v), Found(s, a, b, inword, w', v'));
  }

  /** Where the scan of the binary words ends. */
  function Last(c: Struct): nat {
    if c.inword >= 1 then c.inword else 1
  }

  /** How many binary variables, and how many variables before v, clash. */
  ghost function NumFound(s: Space, c: Struct, a: Packing, b: Packing, v: nat): nat
    requires |a| == |b| == NumWords(s)
  {
    |Found(s, a, b, c.inword, Last(c), v)|
  }

  lemma AllFound(s: Space, c: Struct, a: Packing, b: Packing)
    requires Setup(s, c) && |a| == |b| == NumWords(s)
    ensures NumFound(s, c, a, b, |s.sizes|) == Distance(s, Unpacked(s, a), Unpacked(s, b))
  {
    hide Unpacked, Clashes, Setup;
    SetupWord(s, c);
    FoundAll(s, a, b, c.inword, Last(c));
  }

  lemma NextVar(s: Space, c: Struct, a: Packing, b: Packing, v: nat)
    requires |a| == |b| == NumWords(s) && s.numBinary <= v < |s.sizes|
    ensures NumFound(s, c, a, b, v + 1) == NumFound(s, c, a, b, v)
        + (if v in Clashes(s, Unpacked(s, a), Unpacked(s, b)) then 1 else 0)
    ensures NumFound(s, c, a, b, v + 1) <= NumFound(s, c, a, b, |s.sizes|)
  {
    hide Unpacked, Clashes, Found;
    FoundVar(s, a, b, c.inword, Last(c), v);
    FoundMore(s, a, b, c.inword, Last(c), v + 1, Last(c), |s.sizes|);
  }

  /** Whether no variable is empty in the intersection. */
  method Cdist0(s: Space, c: Struct, a: array<bv32>, b: array<bv32>) returns (meets: bool)
    requires Setup(s, c) && a.Length == b.Length == NumWords(s)
    ensures meets <==> Meets(s, Unpacked(s, a[..]), Unpacked(s, b[..]))
  {
    hide Setup, Unpacked, Clashes, NumFound;
    ghost var A, B := a[..], b[..];
    AllFound(s, c, A, B);
    SetupWord(s, c);
    meets := Cdist0Binary(s, c, a, b);
    var v := s.numBinary;
    while meets && v < |s.sizes|
      invariant s.numBinary <= v <= |s.sizes|
      invariant if meets then NumFound(s, c, A, B, v) == 0 else Distance(s, Unpacked(s, A), Unpacked(s, B)) > 0
      decreases |s.sizes| - v
    {
      NextVar(s, c, A, B, v);
      var empty := NullVar(s, c, a, b, v);
      meets := !empty;
      v := v + 1;
    }
  }

  method Cdist0Binary(s: Space, c: Struct, a: array<bv32>, b: array<bv32>) returns (meets: bool)
    requires Setup(s, c) && a.Length == b.Length == NumWords(s)
    ensures if meets then NumFound(s, c, a[..], b[..], s.numBinary) == 0
        else Distance(s, Unpacked(s, a[..]), Unpacked(s, b[..])) > 0
  {
    hide And, Bit, Setup, Unpacked, Clashes, Found, CountOnes, Empty, Marks;
    ghost var A, B := a[..], b[..];
    AllFound(s, c, A, B);
    SetupWord(s, c);
    NoneFound(s, A, B);
    var last := c.inword;
    if last == -1 {
      return true;
    }
    var x := And(a[last], b[last]);
    FirstWord(s, c, A, B);
    FoundMore(s, A, B, last, 1, s.numBinary, last, |s.sizes|);
    if Empty(x, c.inmask) != 0 {
      return false;
    }
    var w := 1;
    while w < last
      invariant 1 <= w <= last && |Found(s, A, B, last, w, s.numBinary)| == 0
    {
      x := And(a[w], b[w]);
      NextWord(s, c, A, B, w);
      FoundMore(s, A, B, last, w + 1, s.numBinary, last, |s.sizes|);
      if Empty(x, DISJOINT) != 0 {
        return false;
      }
      w := w + 1;
    }
    meets := true;
  }

  /** At most two. */
  function Two(n: nat): nat {
    if n > 1 then 2 else n
  }

  /** The number of variables that are empty in the intersection, or 2 if there are more. */
  method Cdist01(s: Space, c: Struct, a: array<bv32>, b: array<bv32>) returns (dist: nat)
    requires Setup(s, c) && a.Length == b.Length == NumWords(s)
    ensures dist == Two(Distance(s, Unpacked(s, a[..]), Unpacked(s, b[..])))
  {
    hide Setup, Unpacked, Distance, NumFound;
    ghost var A, B := a[..], b[..];
    AllFound(s, c, A, B);
    SetupWord(s, c);
    dist := Cdist01Binary(s, c, a, b);
    var v := s.numBinary;
    while dist < 2 && v < |s.sizes|
      invariant s.numBinary <= v <= |s.sizes|
      invariant if dist < 2 then NumFound(s, c, A, B, v) == dist
                else dist == 2 && Distance(s, Unpacked(s, A), Unpacked(s, B)) > 1
      decreases |s.sizes| - v
    {
      NextVar(s, c, A, B, v);
      var empty := NullVar(s, c, a, b, v);
      if empty {
        dist := dist + 1;
      }
      v := v + 1;
    }
  }

  method Cdist01Binary(s: Space, c: Struct, a: array<bv32>, b: array<bv32>) returns (dist: nat)
    requires Setup(s, c) && a.Length == b.Length == NumWords(s)
    ensures if dist < 2 then NumFound(s, c, a[..], b[..], s.numBinary) == dist
            else dist == 2 && Distance(s, Unpacked(s, a[..]), Unpacked(s, b[..])) > 1
  {
    hide And, Bit, Setup, Unpacked, Distance, Found, CountOnes, Empty, Marks;
    ghost var A, B := a[..], b[..];
    AllFound(s, c, A, B);
    SetupWord(s, c);
    NoneFound(s, A, B);
    var last := c.inword;
    if last == -1 {
      return 0;
    }
    var x := And(a[last], b[last]);
    var y := Empty(x, c.inmask);
    FirstWord(s, c, A, B);
    FoundMore(s, A, B, last, 1, s.numBinary, last, |s.sizes|);
    dist := 0;
    if y != 0 {
      dist := CountOnes(y);
      if dist > 1 {
        return 2;
      }
    }
    var w := 1;
    while w < last
      invariant 1 <= w <= last && dist == |Found(s, A, B, last, w, s.numBinary)| <= 1
    {
      x := And(a[w], b[w]);
      y := Empty(x, DISJOINT);
      NextWord(s, c, A, B, w);
      FoundMore(s, A, B, last, w + 1, s.numBinary, last, |s.sizes|);
      if y != 0 {
        if dist == 1 {
          return 2;
        }
        dist := dist + CountOnes(y);
        if dist > 1 {
          return 2;
        }
      }
      w := w + 1;
    }
  }

  /** The number of variables that are empty in the intersection. */
  method Cdist(s: Space, c: Struct, a: array<bv32>, b: array<bv32>) returns (dist: nat)
    requires Setup(s, c) && a.Length == b.Length == NumWords(s)
    ensures dist == Distance(s, Unpacked(s, a[..]), Unpacked(s, b[..]))
  {
    hide And, Bit, Setup, Unpacked, Distance, Found, CountOnes, Empty, Marks;
    ghost var A, B := a[..], b[..];
    AllFound(s, c, A, B);
    SetupWord(s, c);
    NoneFound(s, A, B);
    dist := 0;
    var last := c.inword;
    if last != -1 {
      var x := And(a[last], b[last]);
      var y := Empty(x, c.inmask);
      FirstWord(s, c, A, B);
      if y != 0 {
        dist := CountOnes(y);
      }
      var w := 1;
      while w < last
        invariant 1 <= w <= last && dist == |Found(s, A, B, last, w, s.numBinary)|
      {
        x := And(a[w], b[w]);
        y := Empty(x, DISJOINT);
        NextWord(s, c, A, B, w);
        if y != 0 {
          dist := dist + CountOnes(y);
        }
        w := w + 1;
      }
    }
    var v := s.numBinary;
    while v < |s.sizes|
      invariant s.numBinary <= v <= |s.sizes| && dist == NumFound(s, c, A, B, v)
    {
      NextVar(s, c, A, B, v);
      var empty := NullVar(s, c, a, b, v);
      if empty {
        dist := dist + 1;
      }
      v := v + 1;
    }
  }

  lemma SetupWord(s: Space, c: Struct)
    requires Setup(s, c)
    ensures if s.numBinary == 0 then c.inword == -1
            else 1 <= c.inword < NumWords(s) && c.inword == WordOf(2 * s.numBinary - 1)
    ensures s.numBinary <= |s.sizes|
  {
    hide VarSetup, PairMask;
    if s.numBinary > 0 {
      InwordBound(s, c);
    }
  }

  lemma NoneFound(s: Space, a: Packing, b: Packing)
    requires |a| == |b| == NumWords(s)
    ensures s.numBinary == 0 ==> Found(s, a, b, -1, 1, 0) == {}
  {
  }

  lemma FirstWord(s: Space, c: Struct, a: Packing, b: Packing)
    requires Setup(s, c) && s.numBinary > 0 && |a| == |b| == NumWords(s)
    ensures 1 <= c.inword < |a| && Marks(s, a, b, c.inword, Empty(And(a[c.inword], b[c.inword]), c.inmask))
    ensures var y := Empty(And(a[c.inword], b[c.inword]), c.inmask);
            CountOnes(y) == |Found(s, a, b, c.inword, 1, s.numBinary)| && (y == 0 <==> CountOnes(y) == 0)
  {
    hide Bit, Setup, PairMask, Marks, Empty, And;
    InwordBound(s, c);
    WordMarks(s, a, b, c.inword, c.inmask);
    MarksCount(s, a, b, c.inword, Empty(And(a[c.inword], b[c.inword]), c.inmask));
    FoundFirst(s, a, b, c.inword);
  }

  lemma NextWord(s: Space, c: Struct, a: Packing, b: Packing, w: nat)
    requires Setup(s, c) && 1 <= w < c.inword < |a| && |a| == |b| == NumWords(s)
    ensures Marks(s, a, b, w, Empty(And(a[w], b[w]), DISJOINT))
    ensures var y := Empty(And(a[w], b[w]), DISJOINT);
            |Found(s, a, b, c.inword, w + 1, s.numBinary)| == |Found(s, a, b, c.inword, w, s.numBinary)| + CountOnes(y)
            && (y == 0 <==> CountOnes(y) == 0)
  {
    hide Bit, Setup, PairMask, Marks, Empty, And;
    FullWord(s, c, w);
    WordMarks(s, a, b, w, DISJOINT);
    MarksCount(s, a, b, w, Empty(And(a[w], b[w]), DISJOINT));
    FoundNext(s, a, b, c.inword, w);
  }
}
