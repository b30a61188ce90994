/** The enumeration of all faces of one dimension of the boolean cube, by counting and by
    stepping through the combinations of free positions. */
module Faces {

  // ---- codes of faces

  /** A face code has a 0 or 1 at the fixed positions and an x at the free ones. */
  predicate IsCode(c: string) {
    forall i :: 0 <= i < |c| ==> c[i] == '0' || c[i] == '1' || c[i] == 'x'
  }

  function Mask(c: string): (b: seq<bool>)
    ensures |b| == |c| && forall i :: 0 <= i < |c| ==> (b[i] <==> c[i] == 'x')
  {
    seq(|c|, i requires 0 <= i < |c| => c[i] == 'x')
  }

  function Trues(b: seq<bool>): (n: nat)
    ensures n <= |b|
  {
    if b == [] then 0 else (if b[0] then 1 else 0) + Trues(b[1..])
  }

  lemma {:induction false} TruesAppend(a: seq<bool>, b: seq<bool>)
    ensures Trues(a + b) == Trues(a) + Trues(b)
  {
    if a == [] {
      assert a + b == b;
    } else {
      assert (a + b)[1..] == a[1..] + b;
      TruesAppend(a[1..], b);
    }
  }

  lemma TruesNext(b: seq<bool>, j: nat)
    requires j < |b|
    ensures Trues(b[..j + 1]) == Trues(b[..j]) + (if b[j] then 1 else 0)
  {
    assert b[..j + 1] == b[..j] + [b[j]];
    TruesAppend(b[..j], [b[j]]);
  }

  /** How many fixed positions are before j. */
  function Place(b: seq<bool>, j: nat): (p: nat)
    requires j <= |b|
  {
    j - Trues(b[..j])
  }

  lemma PlaceNext(b: seq<bool>, j: nat)
    requires j < |b|
    ensures Place(b, j + 1) == Place(b, j) + (if b[j] then 0 else 1)
  {
    TruesNext(b, j);
  }

  lemma {:induction false} PlaceGrows(b: seq<bool>, i: nat, j: nat)
    requires i <= j <= |b|
    ensures Place(b, i) <= Place(b, j) && (i < j && !b[i] ==> Place(b, i) < Place(b, j))
    decreases j - i
  {
    if i < j {
      PlaceNext(b, i);
      PlaceGrows(b, i + 1, j);
    }
  }

  /** Every number of fixed positions that has been passed was met at one of them. */
  lemma {:induction false} PlaceMet(b: seq<bool>, j: nat, q: nat) returns (i: nat)
    requires j <= |b| && q < Place(b, j)
    ensures i < j && !b[i] && Place(b, i) == q
  {
    PlaceNext(b, j - 1);
    if q < Place(b, j - 1) {
      i := PlaceMet(b, j - 1, q);
    } else {
      i := j - 1;
    }
  }

  /** The values at the fixed positions. */
  function Digits(c: string): (d: seq<bool>)
    ensures |d| == |c| - Trues(Mask(c))
  {
    if c == "" then []
    else
      var i := |c| - 1;
      MaskFront(c);
      Digits(c[..i]) + (if c[i] == 'x' then [] else [c[i] == '1'])
  }

  lemma MaskFront(c: string)
    requires c != ""
    ensures Mask(c)[..|c| - 1] == Mask(c[..|c| - 1])
    ensures Trues(Mask(c)) == Trues(Mask(c[..|c| - 1])) + (if c[|c| - 1] == 'x' then 1 else 0)
  {
    var n := |c| - 1;
    assert Mask(c)[..n] == Mask(c[..n]);
    assert Mask(c)[..n + 1] == Mask(c);
    TruesNext(Mask(c), n);
  }

  /** The j-th position, if fixed, holds the digit of its place. */
  lemma {:induction false} DigitAt(c: string, j: nat)
    requires j < |c| && c[j] != 'x'
    ensures Place(Mask(c), j) < |Digits(c)| && Digits(c)[Place(Mask(c), j)] == (c[j] == '1')
  {
    hide Trues;
    var n := |c| - 1;
    MaskFront(c);
    assert Mask(c)[..j] == Mask(c[..n])[..j];
    if j < n {
      DigitAt(c[..n], j);
    }
  }

  function Bit(d: bool): char {
    if d then '1' else '0'
  }

  /** The code has its fixed positions filled with the digits, in order, up to the q-th. */
  ghost predicate Partly(c: string, b: seq<bool>, d: seq<bool>, q: nat) {
    && |c| == |b| && |d| == |b| - Trues(b) && q <= |d|
    && forall j :: 0 <= j < |c| ==> FilledAt(c, b, d, q, j)
  }

  ghost predicate FilledAt(c: string, b: seq<bool>, d: seq<bool>, q: nat, j: nat)
    requires j < |c| == |b|
  {
    if b[j] then c[j] == 'x'
    else if Place(b, j) < q && Place(b, j) < |d| then c[j] == Bit(d[Place(b, j)])
    else c[j] == 'a'
  }

  /** Filled to the end, the code has exactly these digits and free positions. */
  lemma {:induction false} FilledCode(c: string, b: seq<bool>, d: seq<bool>)
    requires Partly(c, b, d, |d|)
    ensures IsCode(c) && Mask(c) == b && Digits(c) == d
  {
    assert b[..|b|] == b;
    forall j | 0 <= j < |c|
      ensures (c[j] == 'x') == b[j] && (!b[j] ==> Place(b, j) < |d| && c[j] == Bit(d[Place(b, j)]))
    {
      assert FilledAt(c, b, d, |d|, j);
      PlaceGrows(b, j, |b|);
    }
    assert Mask(c) == b;
    forall q | 0 <= q < |d|
      ensures Digits(c)[q] == d[q]
    {
      var j := PlaceMet(b, |b|, q);
      DigitAt(c, j);
    }
  }

  /** A code is known by its free positions and its digits. */
  lemma CodeKnown(c: string, c': string)
    requires IsCode(c) && IsCode(c') && Mask(c) == Mask(c') && Digits(c) == Digits(c')
    ensures c == c'
  {
    assert |c| == |c'|;
    forall j | 0 <= j < |c|
      ensures c[j] == c'[j]
    {
      assert Mask(c)[j] == Mask(c')[j];
      if c[j] != 'x' {
        DigitAt(c, j);
        DigitAt(c', j);
      }
    }
  }

  /** Put a character at the first open position. */
  method PutFirst(out: array<char>, ch: char, ghost b: seq<bool>, ghost d: seq<bool>, ghost q: nat)
    requires Partly(out[..], b, d, q) && q < |d| && ch == Bit(d[q])
    modifies out
    ensures Partly(out[..], b, d, q + 1)
  {
    ghost var was := out[..];
    assert b[..|b|] == b;
    ghost var spot := PlaceMet(b, |b|, q);
    assert FilledAt(was, b, d, q, spot);
    var j := 0;
    while j < out.Length
      invariant 0 <= j <= spot && out[..] == was
      invariant forall i :: 0 <= i < j ==> was[i] != 'a'
    {
      assert was[j] == out[j];
      if out[j] == 'a' {
        OpenPlace(was, b, d, q, j);
        out[j] := ch;
        PutFilled(was, b, d, q, j, out[..]);
        return;
      }
      j := j + 1;
    }
  }

  lemma OpenPlace(c: string, b: seq<bool>, d: seq<bool>, q: nat, j: nat)
    requires Partly(c, b, d, q) && q < |d| && j < |c| && c[j] == 'a' && forall i :: 0 <= i < j ==> c[i] != 'a'
    ensures !b[j] && Place(b, j) == q
  {
    assert FilledAt(c, b, d, q, j);
    assert b[..|b|] == b;
    PlaceGrows(b, j, |b|);
    if q < Place(b, j) {
      var i := PlaceMet(b, j, q);
      StillOpen(c, b, d, q, i);
    }
  }

  lemma StillOpen(c: string, b: seq<bool>, d: seq<bool>, q: nat, i: nat)
    requires Partly(c, b, d, q) && i < |c| && !b[i] && Place(b, i) >= q
    ensures c[i] == 'a'
  {
    assert FilledAt(c, b, d, q, i);
  }

  lemma PutFilled(c: string, b: seq<bool>, d: seq<bool>, q: nat, j: nat, c': string)
    requires Partly(c, b, d, q) && q < |d| && j < |c| && !b[j] && Place(b, j) == q && c' == c[j := Bit(d[q])]
    ensures Partly(c', b, d, q + 1)
  {
    var q' := q + 1;
    forall i | 0 <= i < |c'|
      ensures FilledAt(c', b, d, q', i)
    {
      assert FilledAt(c, b, d, q, i);
      if i < j {
        PlaceGrows(b, i, j);
      } else if j < i {
        PlaceGrows(b, j, i);
      }
    }
  }

  method CountX(c: string) returns (k: nat)
    ensures k == Trues(Mask(c))
  {
    k := 0;
    var i := 0;
    while i < |c|
      invariant 0 <= i <= |c| && k == Trues(Mask(c)[..i])
    {
      TruesNext(Mask(c), i);
      if c[i] == 'x' {
        k := k + 1;
      }
      i := i + 1;
    }
    assert Mask(c)[..i] == Mask(c);
  }

  // ---- counting

  function Power2(n: nat): (p: nat)
    ensures p > 0
  {
    if n == 0 then 1 else 2 * Power2(n - 1)
  }

  /** The number with these binary digits, the first one being the highest. */
  function Value(d: seq<bool>): (v: nat)
    ensures v < Power2(|d|)
  {
    if d == [] then 0 else 2 * Value(d[..|d| - 1]) + (if d[|d| - 1] then 1 else 0)
  }

  lemma {:induction false} ValueKnown(d: seq<bool>, d': seq<bool>)
    requires |d| == |d'| && Value(d) == Value(d')
    ensures d == d'
  {
    if d != [] {
      var n := |d| - 1;
      ValueKnown(d[..n], d'[..n]);
      assert d == d[..n] + [d[n]];
      assert d' == d'[..n] + [d'[n]];
    }
  }

  /** The next number, cyclically: a zero behind which all are ones becomes a one, and
      those ones become zeros. */
  ghost predicate Counted(d: seq<bool>, d': seq<bool>, t: nat) {
    && |d'| == |d| && t <= |d|
    && (forall i :: |d| - t <= i < |d| ==> d[i] && !d'[i])
    && (t < |d| ==> !d[|d| - t - 1] && d'[|d| - t - 1])
    && (forall i :: 0 <= i < |d| - t - 1 ==> d'[i] == d[i])
  }

  lemma {:induction false} CountedValue(d: seq<bool>, d': seq<bool>, t: nat)
    requires Counted(d, d', t)
    ensures Value(d') == if Value(d) + 1 == Power2(|d|) then 0 else Value(d) + 1
  {
    if d != [] {
      var n := |d| - 1;
      if t == 0 {
        assert d'[..n] == d[..n];
      } else {
        CountedValue(d[..n], d'[..n], t - 1);
      }
    }
  }

  /** The next binary number at the fixed positions. */
  method Counting(seed: string) returns (output: string)
    requires IsCode(seed)
    ensures IsCode(output) && Mask(output) == Mask(seed)
    ensures Value(Digits(output)) == if Value(Digits(seed)) + 1 == Power2(|Digits(seed)|) then 0
        else Value(Digits(seed)) + 1
  {
    var numX := CountX(seed);
    var m := |seed| - numX;
    ghost var d := Digits(seed);
    var binary := new int[m + 1];
    ReadDigits(seed, binary);
    ghost var d' := Increment(binary, d);
    output := Refill(seed, binary, d, d');
  }

  /** The list holds the digits, the last one first, and a zero behind them. */
  ghost predicate Holds(w: seq<int>, d: seq<bool>) {
    && |w| == |d| + 1 && w[|d|] == 0
    && forall x :: 0 <= x < |d| ==> w[x] == if d[|d| - 1 - x] then 1 else 0
  }

  /** Write the digits into the array, the last one first, and a zero behind them. */
  method ReadDigits(seed: string, binary: array<int>)
    requires IsCode(seed) && binary.Length == |Digits(seed)| + 1
    modifies binary
    ensures Holds(binary[..], Digits(seed))
  {
    hide Digits, Place, Mask;
    ghost var d, b := Digits(seed), Mask(seed);
    ghost var m := |d|;
    AllPlaces(b);
    binary[binary.Length - 1] := 0;
    var j := binary.Length - 2;
    var i := 0;
    while i < |seed|
      invariant 0 <= i <= |seed| && -1 <= j < m && j == m - 1 - Place(b, i) && binary[m] == 0
      invariant forall x :: 0 <= x < Place(b, i) ==> binary[m - 1 - x] == if d[x] then 1 else 0
    {
      PlaceNext(b, i);
      PlaceGrows(b, i + 1, |seed|);
      if seed[i] != 'x' {
        DigitAt(seed, i);
        binary[j] := seed[i] as int - '0' as int;
        j := j - 1;
      }
      i := i + 1;
    }
  }

  lemma AllPlaces(b: seq<bool>)
    ensures Place(b, 0) == 0 && Place(b, |b|) == |b| - Trues(b)
  {
    assert b[..|b|] == b;
  }

  /** Add one to the number in the array, lowest digit first; the last element takes the
      carry. */
  method Increment(binary: array<int>, ghost d: seq<bool>) returns (ghost d': seq<bool>)
    requires Holds(binary[..], d)
    modifies binary
    ensures |d'| == |d| && Holds(binary[..][|d| := 0], d')
    ensures Value(d') == if Value(d) + 1 == Power2(|d|) then 0 else Value(d) + 1
  {
    ghost var w := binary[..];
    var i := 0;
    assert w[|d|] == 0;
    while binary[i] == 1
      invariant 0 <= i <= |d|
      invariant forall x :: 0 <= x < i ==> w[x] == 1 && binary[x] == 0
      invariant forall x :: i <= x < |w| ==> binary[x] == w[x]
      decreases |d| - i
    {
      binary[i] := 0;
      i := i + 1;
    }
    binary[i] := 1;
    d' := seq(|d|, x requires 0 <= x < |d| => x < |d| - i && (x == |d| - 1 - i || d[x]));
    Carried(w, d, i, d', binary[..]);
  }

  lemma Carried(w: seq<int>, d: seq<bool>, i: nat, d': seq<bool>, w': seq<int>)
    requires Holds(w, d) && i <= |d| && w[i] != 1 && (forall x :: 0 <= x < i ==> w[x] == 1)
    requires |w'| == |w| && w'[i] == 1 && (forall x :: 0 <= x < i ==> w'[x] == 0)
    requires (forall x :: i < x < |w| ==> w'[x] == w[x])
    requires |d'| == |d| && forall x :: 0 <= x < |d| ==> d'[x] == (x < |d| - i && (x == |d| - 1 - i || d[x]))
    ensures Holds(w'[|d| := 0], d')
    ensures Value(d') == if Value(d) + 1 == Power2(|d|) then 0 else Value(d) + 1
  {
    hide Value;
    forall x | |d| - i <= x < |d|
      ensures d[x] && !d'[x]
    {
      assert w[|d| - 1 - x] == 1;
    }
    assert i < |d| ==> w[i] == if d[|d| - 1 - i] then 1 else 0;
    assert Counted(d, d', i);
    CountedValue(d, d', i);
  }

  /** Write the digits of the array, highest first, to the fixed positions. */
  method Refill(seed: string, binary: array<int>, ghost d: seq<bool>, ghost d': seq<bool>) returns (output: string)
    requires IsCode(seed) && d == Digits(seed) && |d'| == |d| && binary.Length == |d| + 1
    requires Holds(binary[..][|d| := 0], d')
    ensures IsCode(output) && Mask(output) == Mask(seed) && Digits(output) == d'
  {
    hide Digits, Place, FilledAt;
    ghost var b := Mask(seed);
    var out := new char[|seed|](j => 'a');
    var i := 0;
    while i < |seed|
      invariant 0 <= i <= |seed|
      invariant forall j :: 0 <= j < i ==> out[j] == if b[j] then 'x' else 'a'
      invariant forall j :: i <= j < |seed| ==> out[j] == 'a'
    {
      if seed[i] == 'x' {
        out[i] := seed[i];
      }
      i := i + 1;
    }
    NothingFilled(out[..], b, d');
    i := binary.Length - 2;
    while i >= 0
      invariant -1 <= i < |d|
      invariant Partly(out[..], b, d', |d| - 1 - i)
    {
      assert binary[i] == binary[..][|d| := 0][i] == if d'[|d| - 1 - i] then 1 else 0;
      PutFirst(out, if binary[i] == 0 then '0' else '1', b, d', |d| - 1 - i);
      i := i - 1;
    }
    FilledCode(out[..], b, d');
    output := out[..];
  }

  lemma NothingFilled(c: string, b: seq<bool>, d: seq<bool>)
    requires |c| == |b| && |d| == |b| - Trues(b) && forall j :: 0 <= j < |c| ==> c[j] == if b[j] then 'x' else 'a'
    ensures Partly(c, b, d, 0)
  {
  }

  // ---- combinations

  /** The number of ways to choose k positions of n. */
  function CombNum(n: nat, k: nat): (c: nat)
    requires k <= n
    ensures c > 0
  {
    if n == 0 || k == 0 || k == n then 1 else CombNum(n - 1, k) + CombNum(n - 1, k - 1)
  }

  /** The place of a choice of positions among all choices of as many, in lexicographic
      order. */
  function Rank(b: seq<bool>): (r: nat)
    ensures r < CombNum(|b|, Trues(b))
  {
    var n, k := |b|, Trues(b);
    if b == [] then 0
    else if b[0] then Rank(b[1..])
    else if k == 0 then 0
    else CombNum(n - 1, k - 1) + Rank(b[1..])
  }

  lemma {:induction false} RankKnown(b: seq<bool>, b': seq<bool>)
    requires |b| == |b'| && Trues(b) == Trues(b') && Rank(b) == Rank(b')
    ensures b == b'
  {
    if b != [] {
      assert b == [b[0]] + b[1..] && b' == [b'[0]] + b'[1..];
      if b[0] == b'[0] {
        if Trues(b) == 0 {
          NoTrues(b[1..]);
          NoTrues(b'[1..]);
        }
        RankKnown(b[1..], b'[1..]);
      }
    }
  }

  lemma {:induction false} NoTrues(b: seq<bool>)
    requires Trues(b) == 0
    ensures Rank(b) == 0
  {
  }

  lemma RankFree(b: seq<bool>)
    ensures Rank([true] + b) == Rank(b) && Trues([true] + b) == Trues(b) + 1
  {
    hide CombNum, Rank, Trues;
    var c := [true] + b;
    assert c[1..] == b;
    FreeFirst(c);
  }

  lemma FreeFirst(c: seq<bool>)
    requires c != [] && c[0]
    ensures Trues(c) == Trues(c[1..]) + 1 && Rank(c) == Rank(c[1..])
  {
    hide CombNum;
  }

  lemma RankFixed(b: seq<bool>)
    ensures Trues([false] + b) == Trues(b)
    ensures Rank([false] + b) == if Trues(b) == 0 then 0 else CombNum(|b|, Trues(b) - 1) + Rank(b)
  {
    hide CombNum, Rank, Trues;
    var c := [false] + b;
    assert c[1..] == b;
    FixedFirst(c);
  }

  lemma FixedFirst(c: seq<bool>)
    requires c != [] && !c[0]
    ensures Trues(c) == Trues(c[1..])
    ensures Rank(c) == if Trues(c) == 0 then 0 else CombNum(|c| - 1, Trues(c) - 1) + Rank(c[1..])
  {
    hide CombNum;
  }

  function Ones(n: nat): (b: seq<bool>)
    ensures |b| == n && (forall i :: 0 <= i < n ==> b[i])
  {
    if n == 0 then [] else [true] + Ones(n - 1)
  }

  function Zeros(n: nat): (b: seq<bool>)
    ensures |b| == n && (forall i :: 0 <= i < n ==> !b[i])
  {
    if n == 0 then [] else [false] + Zeros(n - 1)
  }

  lemma NoRank(b: seq<bool>)
    requires b == []
    ensures Trues(b) == 0 && Rank(b) == 0
  {
  }

  /** The free positions as far to the right as possible: the last combination. */
  lemma {:induction false} RankLast(z: nat, t: nat)
    ensures Trues(Zeros(z) + Ones(t)) == t && Rank(Zeros(z) + Ones(t)) == CombNum(z + t, t) - 1
    decreases z + t
  {
    hide Rank, Trues;
    var b := Zeros(z) + Ones(t);
    if z > 0 {
      assert b == [false] + (Zeros(z - 1) + Ones(t));
      RankLast(z - 1, t);
      RankFixed(Zeros(z - 1) + Ones(t));
    } else if t > 0 {
      assert b == [true] + (Zeros(0) + Ones(t - 1));
      RankLast(0, t - 1);
      RankFree(Zeros(0) + Ones(t - 1));
    } else {
      NoRank(b);
    }
  }

  /** As far to the left as possible: the first one. */
  lemma {:induction false} RankFirst(t: nat, z: nat)
    ensures Trues(Ones(t) + Zeros(z)) == t && Rank(Ones(t) + Zeros(z)) == 0
    decreases z + t
  {
    hide Rank, Trues, CombNum;
    var b := Ones(t) + Zeros(z);
    if t > 0 {
      assert b == [true] + (Ones(t - 1) + Zeros(z));
      RankFirst(t - 1, z);
      RankFree(Ones(t - 1) + Zeros(z));
    } else if z > 0 {
      assert b == [false] + (Ones(0) + Zeros(z - 1));
      RankFirst(0, z - 1);
      RankFixed(Ones(0) + Zeros(z - 1));
    } else {
      NoRank(b);
    }
  }

  /** A common front shifts the rank by the same amount. */
  lemma {:induction false} RankFront(u: seq<bool>, s: seq<bool>, s': seq<bool>)
    requires |s| == |s'| && Trues(s) == Trues(s')
    ensures Trues(u + s) == Trues(u + s') && Rank(u + s') - Rank(u + s) == Rank(s') - Rank(s)
  {
    hide CombNum;
    hide Rank, Trues;
    TruesAppend(u, s);
    TruesAppend(u, s');
    if u == [] {
      assert u + s == s && u + s' == s';
    } else {
      var c, c' := u + s, u + s';
      assert c[1..] == u[1..] + s && c'[1..] == u[1..] + s';
      RankFront(u[1..], s, s');
      if u[0] {
        FreeFirst(c);
        FreeFirst(c');
      } else {
        FixedFirst(c);
        FixedFirst(c');
      }
      if Trues(c) == 0 {
        NoTrues(s);
        NoTrues(s');
      }
    }
  }

  /** A free position moves right by one, and those behind it follow it closely. */
  function Step(u: seq<bool>, z: nat, t: nat): (seq<bool>, seq<bool>) {
    (u + [true] + Zeros(z + 1) + Ones(t), u + [false] + Ones(t + 1) + Zeros(z))
  }

  lemma StepRank(u: seq<bool>, z: nat, t: nat)
    ensures |Step(u, z, t).0| == |Step(u, z, t).1| && Trues(Step(u, z, t).0) == Trues(Step(u, z, t).1)
    ensures Rank(Step(u, z, t).1) == Rank(Step(u, z, t).0) + 1
  {
    hide Rank, Trues, Zeros, Ones, CombNum;
    var r, r' := Zeros(z + 1) + Ones(t), Ones(t + 1) + Zeros(z);
    RankLast(z + 1, t);
    RankFirst(t + 1, z);
    RankFree(r);
    RankFixed(r');
    RankFront(u, [true] + r, [false] + r');
    assert Step(u, z, t).0 == u + ([true] + r) && Step(u, z, t).1 == u + ([false] + r');
  }

  /** The positions of the free places, counted from one, behind a sentinel. */
  ghost predicate Positions(b: seq<bool>, o: seq<int>) {
    && |o| == Trues(b) + 1 && o[0] == -1
    && forall i :: 1 <= i < |o| ==> PositionAt(b, o[i], i)
  }

  /** The i-th free place is at position p. */
  ghost predicate PositionAt(b: seq<bool>, p: int, i: int) {
    1 <= p <= |b| && b[p - 1] && Trues(b[..p - 1]) == i - 1
  }

  lemma {:induction false} TruesGrow(b: seq<bool>, i: nat, j: nat)
    requires i <= j <= |b|
    ensures Trues(b[..i]) <= Trues(b[..j]) <= Trues(b[..i]) + (j - i)
    ensures (i < j && b[i]) ==> Trues(b[..i]) < Trues(b[..j])
    decreases j - i
  {
    if i < j {
      TruesNext(b, i);
      TruesGrow(b, i + 1, j);
    }
  }

  /** Two free places of one number are the same. */
  lemma PositionKnown(b: seq<bool>, p: int, q: int, i: int)
    requires PositionAt(b, p, i) && PositionAt(b, q, i)
    ensures p == q
  {
    if p < q {
      TruesGrow(b, p - 1, q - 1);
    } else if q < p {
      TruesGrow(b, q - 1, p - 1);
    }
  }

  method FreePositions(seed: string, places: array<int>)
    requires places.Length == Trues(Mask(seed)) + 1
    modifies places
    ensures Positions(Mask(seed), places[..])
  {
    hide Trues, Mask;
    ghost var b := Mask(seed);
    places[0] := -1;
    var j := 1;
    var i := 0;
    assert b[..0] == [];
    NoneYet(b);
    while i < |seed|
      invariant 0 <= i <= |seed| && j == Trues(b[..i]) + 1 && j <= places.Length
      invariant places[0] == -1 && forall x :: 1 <= x < j ==> PositionAt(b, places[x], x)
    {
      TruesNext(b, i);
      TruesGrow(b, i + 1, |b|);
      assert b[..|b|] == b;
      if seed[i] == 'x' {
        places[j] := i + 1;
        j := j + 1;
      }
      i := i + 1;
    }
    assert b[..|b|] == b;
  }

  lemma NoneYet(b: seq<bool>)
    ensures Trues(b[..0]) == 0
  {
  }

  // ---- what the step on positions does to the code

  /** The places from the j-th on are as far to the right as possible. */
  ghost predicate AtEnd(n: nat, o: seq<int>, j: nat) {
    forall i :: j < i < |o| ==> o[i] == n - (|o| - 1) + i
  }

  /** All places stand at the end: the last combination. */
  lemma AllAtEnd(b: seq<bool>, o: seq<int>)
    requires Positions(b, o) && AtEnd(|b|, o, 0)
    ensures b == Zeros(|b| - Trues(b)) + Ones(Trues(b))
  {
    hide Trues, Zeros, Ones;
    var n, k := |b|, Trues(b);
    SuffixOnes(b, o, 0);
    SuffixCount(b, n - k);
    NoneYet(b);
    forall i | 0 <= i < n - k
      ensures !b[i]
    {
      TruesGrow(b, 0, i);
      TruesGrow(b, i, n - k);
    }
    assert b == Zeros(n - k) + Ones(k);
  }

  /** Behind position i there are only free places. */
  lemma {:induction false} SuffixCount(b: seq<bool>, i: nat)
    requires i <= |b| && forall x :: i <= x < |b| ==> b[x]
    ensures Trues(b) == Trues(b[..i]) + (|b| - i)
    decreases |b| - i
  {
    if i < |b| {
      TruesNext(b, i);
      SuffixCount(b, i + 1);
    } else {
      assert b[..i] == b;
    }
  }

  lemma SuffixOnes(b: seq<bool>, o: seq<int>, j: nat)
    requires Positions(b, o) && j < |o| && AtEnd(|b|, o, j)
    ensures |b| >= |o| - 1 - j && forall x :: |b| - (|o| - 1 - j) <= x < |b| ==> b[x]
  {
    hide Trues;
    var n, k := |b|, |o| - 1;
    forall x | n - (k - j) <= x < n
      ensures b[x]
    {
      var i := x - (n - k) + 1;
      assert PositionAt(b, o[i], i);
    }
  }

  /** The j-th place can move, and all behind it stand at the end. */
  lemma CanMove(b: seq<bool>, o: seq<int>, j: nat) returns (u: seq<bool>, z: nat)
    requires Positions(b, o) && 0 < j < |o| && AtEnd(|b|, o, j) && o[j] != |b| - (|o| - 1) + j
    ensures b == Step(u, z, |o| - 1 - j).0 && |u| + 1 == o[j] && u == b[..o[j] - 1]
    ensures z + 1 == |b| - (|o| - 1 - j) - o[j]
  {
    hide Trues;
    var n, k := |b|, |o| - 1;
    var t, p := k - j, o[j];
    assert PositionAt(b, o[j], j);
    SuffixOnes(b, o, j);
    SuffixCount(b, n - t);
    u := b[..p - 1];
    TruesNext(b, p - 1);
    if n - t < p {
      TruesGrow(b, n - t, p - 1);
    }
    assert p <= n - t;
    z := n - t - p - 1;
    forall x | p <= x < n - t
      ensures !b[x]
    {
      TruesGrow(b, p, x);
      TruesGrow(b, x, n - t);
    }
    assert b == u + [true] + Zeros(z + 1) + Ones(t);
  }

  /** The cyclically next choice of as many places. */
  ghost predicate NextChoice(b: seq<bool>, b': seq<bool>) {
    && |b'| == |b| && Trues(b') == Trues(b)
    && Rank(b') == if Rank(b) + 1 == CombNum(|b|, Trues(b)) then 0 else Rank(b) + 1
  }

  lemma {:induction false} AllTrue(b: seq<bool>)
    requires forall i :: 0 <= i < |b| ==> b[i]
    ensures Trues(b) == |b|
  {
    if b != [] {
      AllTrue(b[1..]);
    }
  }

  /** Behind the last combination comes the first one. */
  lemma BackToFirst(b: seq<bool>, o: seq<int>, o': seq<int>) returns (b': seq<bool>)
    requires Positions(b, o) && AtEnd(|b|, o, 0)
    requires |o'| == |o| && o'[0] == -1 && forall i :: 1 <= i < |o| ==> o'[i] == i
    ensures NextChoice(b, b') && Positions(b', o')
  {
    hide Trues, Rank, CombNum, Zeros, Ones;
    var n, k := |b|, Trues(b);
    b' := Ones(k) + Zeros(n - k);
    AllAtEnd(b, o);
    RankLast(n - k, k);
    RankFirst(k, n - k);
    forall i | 1 <= i < |o|
      ensures PositionAt(b', i, i)
    {
      AllTrue(b'[..i - 1]);
    }
  }

  /** One place moves right, and those behind it follow it closely. */
  lemma MoveRight(b: seq<bool>, o: seq<int>, j: nat, o': seq<int>) returns (b': seq<bool>)
    requires Positions(b, o) && 0 < j < |o| && AtEnd(|b|, o, j) && o[j] != |b| - (|o| - 1) + j
    requires |o'| == |o| && o'[0] == -1 && (forall i :: 1 <= i < j ==> o'[i] == o[i])
    requires forall i :: j <= i < |o| ==> o'[i] == o[j] + 1 + (i - j)
    ensures NextChoice(b, b') && Positions(b', o')
  {
    hide Trues, Rank, CombNum, Zeros, Ones, PositionAt;
    var t := |o| - 1 - j;
    var u, z := CanMove(b, o, j);
    b' := Step(u, z, t).1;
    StepRank(u, z, t);
    forall i | 1 <= i < |o|
      ensures PositionAt(b', o'[i], i)
    {
      assert PositionAt(b, o[j], j) && PositionAt(b, o[i], i);
      if i < j {
        InFront(b, o[i], i, o[j], j, b');
      } else {
        FollowsClosely(b, u, z, t, o[j], j, i);
      }
    }
  }

  lemma InFront(b: seq<bool>, p: int, i: nat, q: int, j: nat, b': seq<bool>)
    requires PositionAt(b, p, i) && PositionAt(b, q, j) && i < j && |b'| == |b| && b'[..q - 1] == b[..q - 1]
    ensures PositionAt(b', p, i)
  {
    hide Trues;
    if q <= p {
      TruesGrow(b, q - 1, p - 1);
    }
    assert b'[..p - 1] == b'[..q - 1][..p - 1] == b[..p - 1];
    if p < q {
      assert b'[p - 1] == b'[..q - 1][p - 1] == b[p - 1];
    }
  }

  lemma FollowsClosely(b: seq<bool>, u: seq<bool>, z: nat, t: nat, p: int, j: nat, i: nat)
    requires PositionAt(b, p, j) && u == b[..p - 1] && j <= i <= j + t
    ensures PositionAt(Step(u, z, t).1, p + 1 + (i - j), i)
  {
    hide Trues, Zeros, Ones;
    var b' := Step(u, z, t).1;
    var m := i - j;
    assert b' == u + ([false] + Ones(t + 1) + Zeros(z));
    assert b'[..p + m] == u + ([false] + Ones(t + 1)[..m]);
    TruesAppend(u, [false] + Ones(t + 1)[..m]);
    TruesAppend([false], Ones(t + 1)[..m]);
    AllTrue(Ones(t + 1)[..m]);
    OneFalse();
  }

  lemma OneFalse()
    ensures Trues([false]) == 0
  {
  }

  /** Step to the next choice of places: the last one that can moves right, and those
      behind it follow it closely. */
  method StepPlaces(places: array<int>, n: nat, ghost b: seq<bool>) returns (ghost b': seq<bool>)
    requires |b| == n && Positions(b, places[..])
    modifies places
    ensures NextChoice(b, b') && Positions(b', places[..][0 := -1])
  {
    hide Trues, NextChoice, PositionAt;
    var k := places.Length - 1;
    var j := k;
    ghost var o := places[..];
    while places[j] == n - k + j
      invariant 0 <= j <= k && AtEnd(n, o, j) && places[..] == o
      decreases j
    {
      j := j - 1;
    }
    places[j] := places[j] + 1;
    var i := j + 1;
    while i <= k
      invariant j < i <= k + 1
      invariant forall x :: 0 <= x < j ==> places[x] == o[x]
      invariant forall x :: j <= x < i ==> places[x] == o[j] + 1 + (x - j)
    {
      places[i] := places[i - 1] + 1;
      i := i + 1;
    }
    ghost var o' := places[..][0 := -1];
    if j == 0 {
      b' := BackToFirst(b, o, o');
    } else {
      b' := MoveRight(b, o, j, o');
    }
  }

  /** The x's are written before the l-th free place. */
  ghost predicate Marked(c: string, b: seq<bool>, l: nat) {
    |c| == |b| && forall i :: 0 <= i < |c| ==> c[i] == if b[i] && Trues(b[..i]) + 1 < l then 'x' else 'a'
  }

  lemma MarkNext(c: string, b: seq<bool>, l: nat, p: int)
    requires Marked(c, b, l) && PositionAt(b, p, l)
    ensures Marked(c[p - 1 := 'x'], b, l + 1)
  {
    hide Trues;
    forall i | 0 <= i < |c| && b[i] && Trues(b[..i]) + 1 == l
      ensures i == p - 1
    {
      assert PositionAt(b, i + 1, l);
      PositionKnown(b, p, i + 1, l);
    }
  }

  lemma MarkEnd(c: string, b: seq<bool>, d: seq<bool>)
    requires Marked(c, b, Trues(b) + 1) && |d| == |b| - Trues(b)
    ensures Partly(c, b, d, 0)
  {
    hide Trues;
    assert b[..|b|] == b;
    forall i | 0 <= i < |c|
      ensures c[i] == if b[i] then 'x' else 'a'
    {
      TruesGrow(b, i, |b|);
    }
    NothingFilled(c, b, d);
  }

  /** The next combination of free positions, with the digits in their order. */
  method Combinations(seed: string) returns (output: string)
    requires IsCode(seed)
    ensures IsCode(output) && NextChoice(Mask(seed), Mask(output)) && Digits(output) == Digits(seed)
  {
    hide Trues, NextChoice, Digits, Mask, Marked, Partly, PositionAt, Place;
    var n := |seed|;
    var numX := CountX(seed);
    ghost var b, d := Mask(seed), Digits(seed);
    var places := new int[numX + 1];
    FreePositions(seed, places);
    ghost var b' := StepPlaces(places, n, b);
    ChoiceSize(b, b');
    var out := new char[n](i => 'a');
    MarkStart(out[..], b');
    ghost var o := places[..][0 := -1];
    var l := 1;
    while l <= numX
      invariant 1 <= l <= numX + 1 && Marked(out[..], b', l) && places[..][0 := -1] == o
    {
      ghost var was := out[..];
      assert o[l] == places[l];
      PositionBounds(b', places[l], l);
      MarkNext(was, b', l, places[l]);
      out[places[l] - 1] := 'x';
      assert out[..] == was[places[l] - 1 := 'x'];
      l := l + 1;
    }
    MarkEnd(out[..], b', d);
    AllPlaces(b);
    var i := 0;
    while i < n
      invariant 0 <= i <= n && Place(b, i) <= |d| && Partly(out[..], b', d, Place(b, i))
    {
      PlaceNext(b, i);
      PlaceGrows(b, i + 1, n);
      if seed[i] != 'x' {
        DigitAt(seed, i);
        PutFirst(out, seed[i], b', d, Place(b, i));
      }
      i := i + 1;
    }
    FilledCode(out[..], b', d);
    output := out[..];
  }

  lemma ChoiceSize(b: seq<bool>, b': seq<bool>)
    requires NextChoice(b, b')
    ensures |b'| == |b| && Trues(b') == Trues(b)
  {
  }

  lemma MarkStart(c: string, b: seq<bool>)
    requires |c| == |b| && forall i :: 0 <= i < |c| ==> c[i] == 'a'
    ensures Marked(c, b, 1)
  {
  }

  lemma PositionBounds(b: seq<bool>, p: int, i: int)
    requires PositionAt(b, p, i)
    ensures 1 <= p <= |b|
  {
  }

  // ---- remainders

  function Quot(a: int, m: int): int
    requires m > 0
  {
    a / m
  }

  function Rem(a: int, m: int): (r: int)
    requires m > 0
    ensures 0 <= r < m
  {
    a % m
  }

  /** The multiples of m other than zero are at least m away from it. */
  lemma Multiples(m: int, d: int)
    requires m > 0
    ensures (d >= 1 ==> m * d >= m) && (d <= -1 ==> m * d <= -m)
  {
    if d >= 1 {
      assert m * d == m + m * (d - 1);
    } else if d <= -1 {
      assert m * d == -m + m * (d + 1);
    }
  }

  lemma InOrder(m: nat, p: nat, q: nat)
    requires p <= q
    ensures m * p <= m * q
  {
    assert m * q == m * p + m * (q - p);
  }

  lemma DivUnique(a: int, m: int, q: int, r: int)
    requires 0 <= r < m && a == m * q + r
    ensures Quot(a, m) == q && Rem(a, m) == r
  {
    var d := a / m - q;
    assert a == m * (a / m) + a % m;
    assert m * d == r - a % m;
    Multiples(m, d);
  }

  lemma DivMod(a: int, m: int)
    requires m > 0
    ensures a == m * Quot(a, m) + Rem(a, m)
  {
  }

  lemma ModNext(a: int, m: int)
    requires m > 0
    ensures Rem(a + 1, m) == if Rem(a, m) + 1 == m then 0 else Rem(a, m) + 1
    ensures Quot(a + 1, m) == if Rem(a, m) + 1 == m then Quot(a, m) + 1 else Quot(a, m)
  {
    hide Rem, Quot;
    var q, r := Quot(a, m), Rem(a, m);
    DivMod(a, m);
    if r + 1 == m {
      assert a + 1 == m * (q + 1) + 0;
      DivUnique(a + 1, m, q + 1, 0);
    } else {
      DivUnique(a + 1, m, q, r + 1);
    }
  }

  lemma ModShift(a: int, m: int)
    requires m > 0
    ensures Rem(a + m, m) == Rem(a, m)
  {
    hide Rem, Quot;
    DivMod(a, m);
    assert a + m == m * (Quot(a, m) + 1) + Rem(a, m);
    DivUnique(a + m, m, Quot(a, m) + 1, Rem(a, m));
  }

  /** Less than m apart, equal remainders mean equal numbers. */
  lemma ModApart(a: int, x: int, y: int, m: int)
    requires m > 0 && -m < x - y < m && Rem(a + x, m) == Rem(a + y, m)
    ensures x == y
  {
    hide Rem, Quot;
    var d := Quot(a + x, m) - Quot(a + y, m);
    DivMod(a + x, m);
    DivMod(a + y, m);
    assert x - y == m * d;
    Multiples(m, d);
  }

  lemma ModBack(a: int, r: int, m: int)
    requires 0 <= r < m
    ensures Rem(a + Rem(r - a, m), m) == r
  {
    hide Rem, Quot;
    var q := Quot(r - a, m);
    DivMod(r - a, m);
    assert a + Rem(r - a, m) == m * (-q) + r;
    DivUnique(a + Rem(r - a, m), m, -q, r);
  }

  lemma SmallMod(r: nat, m: nat)
    requires r < m
    ensures Rem(r, m) == r && Quot(r, m) == 0
  {
    DivUnique(r, m, 0, r);
  }

  /** The place of a number below m * comb. */
  lemma Below(t: nat, m: nat, comb: nat)
    requires m > 0 && t < m * comb
    ensures 0 <= Quot(t, m) < comb && t == m * Quot(t, m) + Rem(t, m)
  {
    hide Rem, Quot;
    var q := Quot(t, m);
    DivMod(t, m);
    Multiples(m, q);
    if comb <= q {
      InOrder(m, comb, q);
    }
  }

  lemma Inside(m: nat, comb: nat, q: nat, r: nat)
    requires q < comb && r < m
    ensures m * q + r < m * comb
  {
    InOrder(m, q + 1, comb);
  }

  // ---- the enumeration

  datatype Option = None | Some(code: string)

  /** A face of the given dimension of the n-cube. */
  ghost predicate IsFace(c: string, n: nat, k: nat) {
    IsCode(c) && |c| == n && Trues(Mask(c)) == k
  }

  /** How many values the fixed positions take, and how many choices of the free ones there are. */
  ghost function Counts(start: string): (m: nat)
    ensures m > 0
  {
    Power2(|Digits(start)|)
  }

  ghost function Choices(start: string): (comb: nat)
    ensures comb > 0
  {
    CombNum(|start|, Trues(Mask(start)))
  }

  /** The number of faces. */
  ghost function NumFaces(start: string): nat {
    Counts(start) * Choices(start)
  }

  /** The code that is met t calls after the first one: with every choice of free positions
      all values are met, and the next choice starts at the value where the last one ended. */
  ghost predicate CodeNo(c: string, start: string, t: nat) {
    var q, r := Quot(t, Counts(start)), Rem(t, Counts(start));
    && IsFace(c, |start|, Trues(Mask(start)))
    && Rank(Mask(c)) == Rem(Rank(Mask(start)) + 1 + q, Choices(start))
    && Value(Digits(c)) == Rem(Value(Digits(start)) + r - q, Counts(start))
  }

  /** The record of a constraint's face: how far its enumeration has come. */
  class Face {
    var lexmapIndex: nat
    var combIndex: nat
    var countIndex: nat
    var triedCodes: nat
    var firstValue: string
    var firstValid: bool
    var curValue: string
    var codeValid: bool
    ghost var seen: seq<string>

    /** Nothing enumerated yet. */
    constructor ()
      ensures lexmapIndex == combIndex == countIndex == triedCodes == 0 && seen == []
    {
      lexmapIndex, combIndex, countIndex, triedCodes := 0, 0, 0, 0;
      firstValue, firstValid, curValue, codeValid := "", false, "", false;
      seen := [];
    }

    /** The calls so far gave the codes that follow the start. */
    ghost predicate Reached(start: string)
      reads this
    {
      && IsCode(start) && |seen| == lexmapIndex <= NumFaces(start)
      && (forall t :: 0 <= t < |seen| ==> CodeNo(seen[t], start, t))
      && (lexmapIndex > 0 ==> curValue == seen[lexmapIndex - 1])
      && (lexmapIndex > 0 ==> combIndex == Quot(lexmapIndex - 1, Counts(start)) + 1)
      && (lexmapIndex > 0 ==> countIndex == Rem(lexmapIndex - 1, Counts(start)) + 1)
    }

    /** The next face, or none when all have been tried. */
    method GenNewcodeCat1(seed: string, ghost start: string) returns (r: Option)
      requires Reached(start) && IsCode(seed) && |seed| == |start| && Trues(Mask(seed)) == Trues(Mask(start))
      requires lexmapIndex == 0 ==> seed == start
      modifies this
      ensures Reached(start)
      ensures old(lexmapIndex) < NumFaces(start)
          ==> lexmapIndex == old(lexmapIndex) + 1 && r == Some(curValue) && seen == old(seen) + [curValue]
      ensures old(lexmapIndex) < NumFaces(start)
          ==> codeValid && triedCodes == old(triedCodes) + 1
              && (if old(lexmapIndex) == 0 then firstValid && firstValue == curValue
                  else firstValid == old(firstValid) && firstValue == old(firstValue))
      ensures old(lexmapIndex) == NumFaces(start) ==> r == None && unchanged(this)
    {
      hide IsFace, CodeNo, Trues, Mask, Digits, CombNum, Power2, Rank, Value, NextChoice, Quot, Rem, NumFaces, Counts,
        Choices;
      var numX := CountX(seed);
      var countMax := Power2(|seed| - numX);
      var combMax := CombNum(|seed|, numX);
      var lexMax := countMax * combMax;
      Totals(start, seed, countMax, combMax);
      var newCode: string;
      if lexmapIndex == 0 {
        newCode := Combinations(seed);
        FirstCode(start, newCode);
        firstValue, firstValid := newCode, true;
        countIndex, combIndex, lexmapIndex := 1, 1, 1;
      } else if lexmapIndex == lexMax {
        return None;
      } else if countIndex < countMax {
        CodeOf(start, curValue, lexmapIndex - 1);
        newCode := Counting(curValue);
        CountCode(start, curValue, lexmapIndex - 1, newCode);
        countIndex, lexmapIndex := countIndex + 1, lexmapIndex + 1;
      } else {
        CodeOf(start, curValue, lexmapIndex - 1);
        NotLast(lexmapIndex, countMax, combMax);
        assert combIndex < combMax;
        newCode := Combinations(curValue);
        CombineCode(start, curValue, lexmapIndex - 1, newCode);
        countIndex, combIndex, lexmapIndex := 1, combIndex + 1, lexmapIndex + 1;
      }
      curValue, codeValid := newCode, true;
      triedCodes := triedCodes + 1;
      seen := seen + [newCode];
      r := Some(curValue);
    }
  }

  lemma Totals(start: string, seed: string, countMax: nat, combMax: nat)
    requires |seed| == |start| && Trues(Mask(seed)) == Trues(Mask(start))
    requires countMax == Power2(|seed| - Trues(Mask(seed))) && combMax == CombNum(|seed|, Trues(Mask(seed)))
    ensures countMax == Counts(start) && combMax == Choices(start) && countMax * combMax == NumFaces(start) > 0
  {
    hide Digits, Trues, Power2, CombNum;
    assert |Mask(start)| == |start|;
    Multiples(countMax, combMax);
  }

  lemma CodeOf(start: string, c: string, t: nat)
    requires CodeNo(c, start, t)
    ensures IsCode(c) && Power2(|Digits(c)|) == Counts(start)
  {
    hide Rem, Quot;
    assert |c| == |Mask(c)|;
  }

  lemma FirstCode(start: string, c: string)
    requires IsCode(start) && IsCode(c) && NextChoice(Mask(start), Mask(c)) && Digits(c) == Digits(start)
    ensures CodeNo(c, start, 0) && Quot(0, Counts(start)) == 0 && Rem(0, Counts(start)) == 0
  {
    hide Digits, Trues, Rank, Value, Power2, CombNum, Rem, Quot;
    var b := Mask(start);
    assert |c| == |Mask(c)|;
    SmallMod(Rank(b), Choices(start));
    SmallMod(Value(Digits(start)), Counts(start));
    SmallMod(0, Counts(start));
    ModNext(Rank(b), Choices(start));
  }

  lemma CountCode(start: string, c: string, t: nat, c': string)
    requires CodeNo(c, start, t) && Rem(t, Counts(start)) + 1 < Counts(start)
    requires IsCode(c') && Mask(c') == Mask(c)
    requires Value(Digits(c')) == if Value(Digits(c)) + 1 == Power2(|Digits(c)|) then 0 else Value(Digits(c)) + 1
    ensures CodeNo(c', start, t + 1)
    ensures Quot(t + 1, Counts(start)) == Quot(t, Counts(start))
    ensures Rem(t + 1, Counts(start)) == Rem(t, Counts(start)) + 1
  {
    hide Digits, Trues, Rank, Value, Power2, CombNum, Rem, Quot;
    var m, v := Counts(start), Value(Digits(start));
    ModNext(t, m);
    ModNext(v + Rem(t, m) - Quot(t, m), m);
    assert |c| == |Mask(c)| && |c'| == |Mask(c')|;
  }

  lemma CombineCode(start: string, c: string, t: nat, c': string)
    requires CodeNo(c, start, t) && Rem(t, Counts(start)) + 1 == Counts(start)
    requires IsCode(c') && NextChoice(Mask(c), Mask(c')) && Digits(c') == Digits(c)
    ensures CodeNo(c', start, t + 1)
    ensures Quot(t + 1, Counts(start)) == Quot(t, Counts(start)) + 1 && Rem(t + 1, Counts(start)) == 0
  {
    hide Digits, Trues, Rank, Value, Power2, CombNum, Rem, Quot;
    var m, v := Counts(start), Value(Digits(start));
    ModNext(t, m);
    ModNext(Rank(Mask(start)) + 1 + Quot(t, m), Choices(start));
    ModShift(v - Quot(t, m) - 1, m);
    assert |c'| == |Mask(c')| && |c| == |Mask(c)|;
  }

  /** A finished count that is not the last one leaves combinations to try. */
  lemma NotLast(lex: nat, m: nat, comb: nat)
    requires m > 0 && 0 < lex < m * comb && Rem(lex - 1, m) + 1 == m
    ensures Quot(lex - 1, m) + 1 < comb
  {
    hide Rem, Quot;
    var q := Quot(lex - 1, m) + 1;
    DivMod(lex - 1, m);
    assert lex == m * q;
    if comb <= q {
      InOrder(m, comb, q);
    }
  }

  /** Different calls give different faces. */
  lemma FacesDiffer(c: string, start: string, t: nat, t': nat)
    requires CodeNo(c, start, t) && CodeNo(c, start, t') && t < NumFaces(start) && t' < NumFaces(start)
    ensures t == t'
  {
    hide Digits, Trues, Rank, Value, Counts, Choices, IsFace, Rem, Quot;
    var m, comb := Counts(start), Choices(start);
    Below(t, m, comb);
    Below(t', m, comb);
    ModApart(Rank(Mask(start)) + 1, Quot(t, m), Quot(t', m), comb);
    ModApart(Value(Digits(start)) - Quot(t, m), Rem(t, m), Rem(t', m), m);
  }

  /** Every face has its number. */
  lemma FaceNumber(f: string, start: string) returns (t: nat)
    requires IsFace(f, |start|, Trues(Mask(start)))
    ensures t < NumFaces(start) && CodeNo(f, start, t)
  {
    hide Digits, Trues, Rank, Value, Power2, CombNum, Rem, Quot;
    var m, comb := Counts(start), Choices(start);
    assert |f| == |Mask(f)| && |start| == |Mask(start)|;
    var a, v := Rank(Mask(start)) + 1, Value(Digits(start));
    var q := Rem(Rank(Mask(f)) - a, comb);
    ModBack(a, Rank(Mask(f)), comb);
    var r := Rem(Value(Digits(f)) - (v - q), m);
    ModBack(v - q, Value(Digits(f)), m);
    t := m * q + r;
    DivUnique(t, m, q, r);
    Inside(m, comb, q, r);
  }

  /** Two faces with one number are the same. */
  lemma SameNumber(c: string, c': string, start: string, t: nat)
    requires CodeNo(c, start, t) && CodeNo(c', start, t)
    ensures c == c'
  {
    hide Digits, Trues, Rank, Value, Power2, CombNum, Rem, Quot;
    assert |c| == |Mask(c)| && |c'| == |Mask(c')|;
    RankKnown(Mask(c), Mask(c'));
    ValueKnown(Digits(c), Digits(c'));
    CodeKnown(c, c');
  }

  /** After as many calls as there are faces, every face has been given exactly once. */
  lemma EveryFaceOnce(seen: seq<string>, start: string, f: string)
    requires |seen| == NumFaces(start) && forall t :: 0 <= t < |seen| ==> CodeNo(seen[t], start, t)
    ensures IsFace(f, |start|, Trues(Mask(start))) <==> f in seen
    ensures forall i, j :: 0 <= i < j < |seen| ==> seen[i] != seen[j]
  {
    hide CodeNo, NumFaces, IsFace;
    if IsFace(f, |start|, Trues(Mask(start))) {
      var t := FaceNumber(f, start);
      SameNumber(f, seen[t], start, t);
    }
    if f in seen {
      var t :| 0 <= t < |seen| && seen[t] == f;
      NumberedFace(f, start, t);
    }
    forall i, j | 0 <= i < j < |seen|
      ensures seen[i] != seen[j]
    {
      if seen[i] == seen[j] {
        FacesDiffer(seen[i], start, i, j);
      }
    }
  }

  lemma NumberedFace(c: string, start: string, t: nat)
    requires CodeNo(c, start, t)
    ensures IsFace(c, |start|, Trues(Mask(start)))
  {
  }
}
