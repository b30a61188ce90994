/** Unate complementation: all the smallest sets of columns that meet every set of
    a family. */
module Unate {
  import opened Counting

  /** A set of the family with its recorded size. */
  datatype USet = USet(cols: set<nat>, size: nat)

  /** The columns are below n and the recorded sizes are right. */
  ghost predicate Over(A: seq<USet>, n: nat) {
    forall i :: 0 <= i < |A| ==> A[i].cols <= Range(n) && A[i].size == |A[i].cols|
  }

  /** x meets every set of the family. */
  ghost predicate HitsAll(A: seq<USet>, x: set<nat>) {
    forall i :: 0 <= i < |A| ==> A[i].cols * x != {}
  }

  /** B holds only sets that meet all of A, and one inside every such set. */
  ghost predicate Transversals(A: seq<USet>, n: nat, B: seq<set<nat>>) {
    && (forall j :: 0 <= j < |B| ==> B[j] <= Range(n) && HitsAll(A, B[j]))
    && (forall x :: HitsAll(A, x) ==> Offers(B, x))
  }

  /** Some set of B lies inside x. */
  ghost predicate Offers(B: seq<set<nat>>, x: set<nat>) {
    exists j :: 0 <= j < |B| && B[j] <= x
  }

  ghost function TotalSize(A: seq<USet>): nat {
    if A == [] then 0 else TotalSize(A[..|A| - 1]) + |A[|A| - 1].cols|
  }

  // ---- picking out sets

  /** R holds the sets of A that x does not meet. */
  ghost predicate Missed(A: seq<USet>, x: set<nat>, R: seq<USet>) {
    && (forall i :: 0 <= i < |R| ==> R[i] in A && R[i].cols * x == {})
    && (forall i :: 0 <= i < |A| && A[i].cols * x == {} ==> A[i] in R)
  }

  /** Some set of the family has one of the columns. */
  ghost predicate Meeting(A: seq<USet>, x: set<nat>) {
    exists i :: 0 <= i < |A| && A[i].cols * x != {}
  }

  lemma TotalSnoc(A: seq<USet>, x: USet)
    ensures TotalSize(A + [x]) == TotalSize(A) + |x.cols|
  {
    assert (A + [x])[..|A|] == A;
  }

  lemma MeetingSnoc(A: seq<USet>, x: USet, pick: set<nat>)
    ensures Meeting(A + [x], pick) <==> Meeting(A, pick) || x.cols * pick != {}
  {
    var B := A + [x];
    assert B[|A|] == x;
    if i :| 0 <= i < |A| && A[i].cols * pick != {} {
      assert B[i] == A[i];
    }
  }

  lemma MissedSnoc(A: seq<USet>, pick: set<nat>, R: seq<USet>, x: USet)
    requires Missed(A, pick, R)
    ensures x.cols * pick == {} ==> Missed(A + [x], pick, R + [x])
    ensures x.cols * pick != {} ==> Missed(A + [x], pick, R) && |x.cols| > 0
  {
  }

  /** The sets that the picked columns do not meet. */
  method AbsCovered(A: seq<USet>, pick: set<nat>) returns (R: seq<USet>)
    ensures Missed(A, pick, R)
    ensures TotalSize(R) <= TotalSize(A) && (Meeting(A, pick) ==> TotalSize(R) < TotalSize(A))
  {
    hide Missed, TotalSize, Meeting;
    R := [];
    NoneMissed(pick);
    var i := 0;
    while i < |A|
      invariant 0 <= i <= |A| && Missed(A[..i], pick, R)
      invariant TotalSize(R) <= TotalSize(A[..i]) && (Meeting(A[..i], pick) ==> TotalSize(R) < TotalSize(A[..i]))
    {
      assert A[..i + 1] == A[..i] + [A[i]];
      TotalSnoc(A[..i], A[i]);
      TotalSnoc(R, A[i]);
      MeetingSnoc(A[..i], A[i], pick);
      MissedSnoc(A[..i], pick, R, A[i]);
      if A[i].cols * pick == {} {
        R := R + [A[i]];
      }
      i := i + 1;
    }
    assert A[..i] == A;
  }

  lemma NoneMissed(pick: set<nat>)
    ensures Missed([], pick, []) && !Meeting([], pick)
  {
  }

  /** R is the family without column c. */
  ghost predicate Without(A: seq<USet>, c: nat, R: seq<USet>) {
    |R| == |A| && forall i :: 0 <= i < |A| ==> R[i].cols == A[i].cols - {c} && R[i].size == |R[i].cols|
  }

  /** The family without column c. */
  method RemoveColumn(A: seq<USet>, c: nat) returns (R: seq<USet>)
    requires forall i :: 0 <= i < |A| ==> A[i].size == |A[i].cols|
    ensures Without(A, c, R)
    ensures TotalSize(R) <= TotalSize(A) && (Meeting(A, {c}) ==> TotalSize(R) < TotalSize(A))
  {
    hide TotalSize, Meeting, Without;
    R := [];
    NoneMissed({c});
    NoneWithout(c);
    var i := 0;
    while i < |A|
      invariant 0 <= i <= |A| && Without(A[..i], c, R)
      invariant TotalSize(R) <= TotalSize(A[..i]) && (Meeting(A[..i], {c}) ==> TotalSize(R) < TotalSize(A[..i]))
    {
      assert A[..i + 1] == A[..i] + [A[i]];
      var p := A[i];
      ColumnGone(p.cols, c);
      if c in p.cols {
        p := USet(p.cols - {c}, p.size - 1);
      }
      TotalSnoc(A[..i], A[i]);
      TotalSnoc(R, p);
      MeetingSnoc(A[..i], A[i], {c});
      WithoutSnoc(A[..i], c, R, A[i], p);
      R := R + [p];
      i := i + 1;
    }
    assert A[..i] == A;
  }

  lemma NoneWithout(c: nat)
    ensures Without([], c, [])
  {
  }

  lemma ColumnGone(x: set<nat>, c: nat)
    ensures c in x ==> |x - {c}| == |x| - 1 && x * {c} != {}
    ensures c !in x ==> x - {c} == x && x * {c} == {}
  {
  }

  lemma WithoutSnoc(A: seq<USet>, c: nat, R: seq<USet>, x: USet, p: USet)
    requires Without(A, c, R) && p.cols == x.cols - {c} && p.size == |p.cols|
    ensures Without(A + [x], c, R + [p])
  {
  }

  /** The smallest recorded size, and the columns of the sets of that size. */
  ghost predicate Smallest(A: seq<USet>, ord: nat, restrict: set<nat>) {
    && (forall i :: 0 <= i < |A| ==> A[i].size >= ord)
    && (forall i :: 0 <= i < |A| && A[i].size == ord ==> A[i].cols <= restrict)
    && (forall c :: c in restrict ==> exists i :: 0 <= i < |A| && A[i].size == ord && c in A[i].cols)
  }

  method SmallestSets(A: seq<USet>, n: nat) returns (minSetOrd: nat, restrict: set<nat>)
    requires Over(A, n) && A != []
    ensures Smallest(A, minSetOrd, restrict)
    ensures exists i :: 0 <= i < |A| && A[i].size == minSetOrd
  {
    hide Over, Range;
    minSetOrd, restrict := n + 1, {};
    var i := 0;
    while i < |A|
      invariant 0 <= i <= |A|
      invariant Smallest(A[..i], minSetOrd, restrict)
      invariant i == 0 ==> minSetOrd == n + 1
      invariant i > 0 ==> exists k :: 0 <= k < i && A[k].size == minSetOrd
    {
      assert A[..i + 1] == A[..i] + [A[i]];
      SizeBelow(A, n, i);
      SmallestStep(A[..i], minSetOrd, restrict, A[i]);
      if A[i].size < minSetOrd {
        restrict, minSetOrd := A[i].cols, A[i].size;
      } else if A[i].size == minSetOrd {
        restrict := restrict + A[i].cols;
      }
      i := i + 1;
    }
    assert A[..i] == A;
  }

  lemma SizeBelow(A: seq<USet>, n: nat, i: nat)
    requires Over(A, n) && i < |A|
    ensures A[i].size <= n
  {
    RangeCard(n);
    SubsetCard(A[i].cols, Range(n));
  }

  lemma {:induction false} RangeCard(n: nat)
    ensures |Range(n)| == n
  {
    if n > 0 {
      RangeCard(n - 1);
    }
  }

  lemma SmallestStep(A: seq<USet>, ord: nat, restrict: set<nat>, x: USet)
    requires Smallest(A, ord, restrict)
    ensures x.size < ord ==> Smallest(A + [x], x.size, x.cols)
    ensures x.size == ord ==> Smallest(A + [x], ord, restrict + x.cols)
    ensures x.size > ord ==> Smallest(A + [x], ord, restrict)
  {
    var B := A + [x];
    assert B[|A|] == x;
    forall c | c in restrict
      ensures exists i :: 0 <= i < |B| && B[i].size == ord && c in B[i].cols
    {
      var i :| 0 <= i < |A| && A[i].size == ord && c in A[i].cols;
      assert B[i] == A[i];
    }
  }

  // ---- choosing a column

  /** The weight of a column: large for small sets, and nothing for very large
      ones. */
  function Weight(size: nat): (w: nat)
    requires size > 1
    ensures w > 0 <==> size <= 1025
  {
    1024 / (size - 1)
  }

  /** The column is in the set, and the set is small enough to give it weight. */
  ghost predicate Weighty(A: seq<USet>, c: nat) {
    exists i :: 0 <= i < |A| && c in A[i].cols && |A[i].cols| <= 1025
  }

  method CountRestricted(A: seq<USet>, restrict: set<nat>, n: nat) returns (count: seq<nat>)
    requires Over(A, n) && forall i :: 0 <= i < |A| ==> |A[i].cols| > 1
    ensures |count| == n
    ensures forall c :: 0 <= c < n ==> (count[c] > 0 <==> c in restrict && Weighty(A, c))
  {
    hide Over, Weight;
    count := seq(n, _ => 0);
    var i := 0;
    while i < |A|
      invariant 0 <= i <= |A| && |count| == n
      invariant forall c :: 0 <= c < n ==> (count[c] > 0 <==> c in restrict && Weighty(A[..i], c))
    {
      assert A[..i + 1] == A[..i] + [A[i]];
      var weight := Weight(|A[i].cols|);
      var next := count;
      var c := 0;
      while c < n
        invariant 0 <= c <= n && |next| == n
        invariant forall d :: 0 <= d < c ==> next[d] == count[d] + if d in A[i].cols && d in restrict then weight else 0
        invariant forall d :: c <= d < n ==> next[d] == count[d]
      {
        if c in A[i].cols && c in restrict {
          next := next[c := next[c] + weight];
        }
        c := c + 1;
      }
      forall d | 0 <= d < n
        ensures next[d] > 0 <==> d in restrict && Weighty(A[..i + 1], d)
      {
        WeightyStep(A[..i], A[i], d);
      }
      count := next;
      i := i + 1;
    }
    assert A[..i] == A;
  }

  lemma WeightyStep(A: seq<USet>, x: USet, c: nat)
    ensures Weighty(A + [x], c) <==> Weighty(A, c) || (c in x.cols && |x.cols| <= 1025)
  {
    var B := A + [x];
    assert B[|A|] == x;
    if i :| 0 <= i < |A| && c in A[i].cols && |A[i].cols| <= 1025 {
      assert B[i] == A[i];
    }
  }

  /** A column of restrict with the largest weight; none if no column has any. */
  method AbsSelectRestricted(A: seq<USet>, restrict: set<nat>, n: nat) returns (bestVar: int)
    requires Over(A, n) && forall i :: 0 <= i < |A| ==> |A[i].cols| > 1
    ensures bestVar >= 0 ==> bestVar < n && bestVar in restrict && Weighty(A, bestVar)
    ensures bestVar < 0 ==> forall c :: 0 <= c < n && c in restrict ==> !Weighty(A, c)
  {
    hide Over, Weighty;
    var count := CountRestricted(A, restrict, n);
    bestVar := -1;
    var bestCount := 0;
    var i := 0;
    while i < n
      invariant 0 <= i <= n
      invariant bestVar < i && (bestVar >= 0 ==> count[bestVar] == bestCount > 0)
      invariant forall c :: 0 <= c < i ==> count[c] <= bestCount
      invariant bestVar < 0 ==> bestCount == 0
    {
      if count[i] > bestCount {
        bestVar, bestCount := i, count[i];
      }
      i := i + 1;
    }
  }

  // ---- why the recursion is right

  /** Every set of the family with a column more. */
  function WithColumns(B: seq<set<nat>>, x: set<nat>): (R: seq<set<nat>>)
    ensures |R| == |B| && forall j :: 0 <= j < |B| ==> R[j] == B[j] + x
  {
    seq(|B|, j requires 0 <= j < |B| => B[j] + x)
  }

  lemma NoSets(n: nat)
    ensures Transversals([], n, [{}])
  {
    var B: seq<set<nat>> := [{}];
    forall x: set<nat>
      ensures Offers(B, x)
    {
      assert B[0] <= x;
    }
  }

  lemma EmptySet(A: seq<USet>, n: nat, i: nat)
    requires i < |A| && A[i].cols == {}
    ensures Transversals(A, n, [])
  {
    forall x: set<nat>
      ensures !HitsAll(A, x)
    {
      assert A[i].cols * x == {};
    }
  }

  /** One set: each of its columns will do. */
  lemma OneSet(A: seq<USet>, n: nat, B: seq<set<nat>>)
    requires |A| == 1 && Over(A, n)
    requires forall b :: b in B <==> exists c :: c in A[0].cols && b == {c}
    ensures Transversals(A, n, B)
  {
    forall j | 0 <= j < |B|
      ensures B[j] <= Range(n) && HitsAll(A, B[j])
    {
      assert B[j] in B;
      var c :| c in A[0].cols && B[j] == {c};
      assert c in A[0].cols * B[j];
    }
    forall x | HitsAll(A, x)
      ensures Offers(B, x)
    {
      var c := Member(A[0].cols * x);
      assert {c} in B;
      var j :| 0 <= j < |B| && B[j] == {c};
    }
  }

  lemma HitsMissed(A: seq<USet>, pick: set<nat>, R: seq<USet>, x: set<nat>)
    requires Missed(A, pick, R)
    ensures HitsAll(R, x) ==> HitsAll(A, x + pick)
    ensures HitsAll(A, x) ==> HitsAll(R, x - pick)
  {
    if HitsAll(R, x) {
      forall i | 0 <= i < |A|
        ensures A[i].cols * (x + pick) != {}
      {
        if A[i].cols * pick == {} {
          var k :| 0 <= k < |R| && R[k] == A[i];
          var c := Member(R[k].cols * x);
          assert c in A[i].cols * (x + pick);
        } else {
          var c := Member(A[i].cols * pick);
          assert c in A[i].cols * (x + pick);
        }
      }
    }
    if HitsAll(A, x) {
      forall i | 0 <= i < |R|
        ensures R[i].cols * (x - pick) != {}
      {
        var k :| 0 <= k < |A| && A[k] == R[i];
        var c := Member(A[k].cols * x);
        assert c !in R[i].cols * pick;
        assert c in R[i].cols * (x - pick);
      }
    }
  }

  lemma Solves(A: seq<USet>, n: nat, B: seq<set<nat>>, j: nat)
    requires Transversals(A, n, B) && j < |B|
    ensures B[j] <= Range(n) && HitsAll(A, B[j])
  {
  }

  lemma Solved(A: seq<USet>, n: nat, B: seq<set<nat>>, x: set<nat>) returns (j: nat)
    requires Transversals(A, n, B) && HitsAll(A, x)
    ensures j < |B| && B[j] <= x
  {
    assert Offers(B, x);
    j :| 0 <= j < |B| && B[j] <= x;
  }

  /** A column that every solution needs. */
  lemma EssentialColumns(A: seq<USet>, n: nat, pick: set<nat>, R: seq<USet>, B: seq<set<nat>>)
    requires Missed(A, pick, R) && Transversals(R, n, B) && pick <= Range(n)
    requires forall c :: c in pick ==> exists i :: 0 <= i < |A| && A[i].cols == {c}
    ensures Transversals(A, n, WithColumns(B, pick))
  {
    hide HitsAll, Missed, Transversals, Range;
    var W := WithColumns(B, pick);
    forall j | 0 <= j < |W|
      ensures W[j] <= Range(n) && HitsAll(A, W[j])
    {
      Solves(R, n, B, j);
      HitsMissed(A, pick, R, B[j]);
    }
    forall x | HitsAll(A, x)
      ensures Offers(W, x)
    {
      HitsMissed(A, pick, R, x);
      var j := Solved(R, n, B, x - pick);
      NeedsAll(A, pick, x);
      assert W[j] <= x;
    }
    AreTransversals(A, n, W);
  }

  lemma AreTransversals(A: seq<USet>, n: nat, B: seq<set<nat>>)
    requires forall j :: 0 <= j < |B| ==> B[j] <= Range(n) && HitsAll(A, B[j])
    requires forall x :: HitsAll(A, x) ==> Offers(B, x)
    ensures Transversals(A, n, B)
  {
  }

  lemma NeedsAll(A: seq<USet>, pick: set<nat>, x: set<nat>)
    requires HitsAll(A, x) && forall c :: c in pick ==> exists i :: 0 <= i < |A| && A[i].cols == {c}
    ensures pick <= x
  {
    forall c | c in pick
      ensures c in x
    {
      var i :| 0 <= i < |A| && A[i].cols == {c};
      var d := Member(A[i].cols * x);
    }
  }

  /** Solutions with the column, and solutions without it. */
  lemma SplitColumn(A: seq<USet>, n: nat, c: nat, R: seq<USet>, Z: seq<USet>, B: seq<set<nat>>, C: seq<set<nat>>)
    requires c < n && Missed(A, {c}, R) && Transversals(R, n, B)
    requires Without(A, c, Z)
    requires Transversals(Z, n, C)
    ensures Transversals(A, n, WithColumns(B, {c}) + C)
  {
    hide HitsAll, Missed, Without, Transversals, Range;
    var W := WithColumns(B, {c});
    var all := W + C;
    forall j | 0 <= j < |all|
      ensures all[j] <= Range(n) && HitsAll(A, all[j])
    {
      if j < |W| {
        Solves(R, n, B, j);
        HitsMissed(A, {c}, R, B[j]);
      } else {
        Solves(Z, n, C, j - |W|);
        HitsWithout(A, c, Z, C[j - |W|]);
      }
    }
    forall x | HitsAll(A, x)
      ensures Offers(all, x)
    {
      if c in x {
        HitsMissed(A, {c}, R, x);
        var j := Solved(R, n, B, x - {c});
        assert all[j] <= x;
      } else {
        HitsWithout(A, c, Z, x);
        var j := Solved(Z, n, C, x);
        assert all[|W| + j] <= x;
      }
    }
    AreTransversals(A, n, all);
  }

  lemma HitsWithout(A: seq<USet>, c: nat, Z: seq<USet>, x: set<nat>)
    requires Without(A, c, Z)
    ensures HitsAll(Z, x) ==> HitsAll(A, x)
    ensures HitsAll(A, x) && c !in x ==> HitsAll(Z, x)
  {
    if HitsAll(Z, x) {
      forall i | 0 <= i < |A|
        ensures A[i].cols * x != {}
      {
        var d := Member(Z[i].cols * x);
        assert d in A[i].cols * x;
      }
    }
    if HitsAll(A, x) && c !in x {
      forall i | 0 <= i < |Z|
        ensures Z[i].cols * x != {}
      {
        var d := Member(A[i].cols * x);
        assert d in Z[i].cols * x;
      }
    }
  }

  // ---- the recursion

  /** The columns of a set, in order, each as a set of its own. */
  method Singletons(cols: set<nat>, n: nat) returns (B: seq<set<nat>>)
    requires cols <= Range(n)
    ensures forall b :: b in B <==> exists c :: c in cols && b == {c}
  {
    B := [];
    var i := 0;
    while i < n
      invariant 0 <= i <= n
      invariant forall b :: b in B <==> exists c :: c in cols && c < i && b == {c}
    {
      if i in cols {
        B := B + [{i}];
      }
      i := i + 1;
    }
  }

  lemma MissedOver(A: seq<USet>, n: nat, pick: set<nat>, R: seq<USet>)
    requires Over(A, n) && Missed(A, pick, R)
    ensures Over(R, n)
  {
    hide Range;
    forall i | 0 <= i < |R|
      ensures R[i].cols <= Range(n) && R[i].size == |R[i].cols|
    {
      assert R[i] in A;
    }
  }

  lemma WithoutOver(A: seq<USet>, n: nat, c: nat, R: seq<USet>)
    requires Over(A, n) && Without(A, c, R)
    ensures Over(R, n)
  {
    hide Range;
  }

  /** Sets of size one hold essential columns. */
  lemma EssentialRestrict(A: seq<USet>, n: nat, restrict: set<nat>)
    requires Over(A, n) && Smallest(A, 1, restrict)
    ensures restrict <= Range(n)
    ensures forall c :: c in restrict ==> exists i :: 0 <= i < |A| && A[i].cols == {c}
  {
    hide Range;
    forall c | c in restrict
      ensures c in Range(n) && exists i :: 0 <= i < |A| && A[i].cols == {c}
    {
      var i :| 0 <= i < |A| && A[i].size == 1 && c in A[i].cols;
      SubsetCard({c}, A[i].cols);
    }
  }

  lemma RestrictMeets(A: seq<USet>, n: nat, ord: nat, restrict: set<nat>)
    requires Over(A, n) && Smallest(A, ord, restrict) && ord > 0
    requires exists i :: 0 <= i < |A| && A[i].size == ord
    ensures Meeting(A, restrict)
    ensures n <= 1025 ==> exists c :: c in restrict && c < n && Weighty(A, c)
  {
    hide Over, Smallest, Range, Meeting, Weighty;
    var i :| 0 <= i < |A| && A[i].size == ord;
    OverAt(A, n, i);
    var c := Member(A[i].cols);
    SmallestAt(A, ord, restrict, i);
    IsMeeting(A, restrict, i, c);
    SizeBelow(A, n, i);
    IsWeighty(A, n, i, c);
  }

  lemma SmallestAt(A: seq<USet>, ord: nat, restrict: set<nat>, i: nat)
    requires Smallest(A, ord, restrict) && i < |A| && A[i].size == ord
    ensures A[i].cols <= restrict
  {
  }

  lemma IsMeeting(A: seq<USet>, x: set<nat>, i: nat, c: nat)
    requires i < |A| && c in A[i].cols && c in x
    ensures Meeting(A, x)
  {
    assert c in A[i].cols * x;
  }

  lemma IsWeighty(A: seq<USet>, n: nat, i: nat, c: nat)
    requires i < |A| && c in A[i].cols && A[i].cols <= Range(n) && |A[i].cols| <= n
    ensures c < n && (n <= 1025 ==> Weighty(A, c))
  {
  }

  lemma WeightyMeets(A: seq<USet>, c: nat)
    requires Weighty(A, c)
    ensures Meeting(A, {c})
  {
    var i :| 0 <= i < |A| && c in A[i].cols && |A[i].cols| <= 1025;
    assert c in A[i].cols * {c};
  }

  lemma LargeSets(A: seq<USet>, n: nat, ord: nat, restrict: set<nat>)
    requires Over(A, n) && Smallest(A, ord, restrict) && ord > 1
    ensures forall i :: 0 <= i < |A| ==> |A[i].cols| > 1
  {
    hide Range;
  }

  /** Sets that meet all of A, among them every smallest one.  It fails only if all
      the columns to choose from have lost their weight, which takes more than
      1025 columns. */
  method UnateComplement(A: seq<USet>, n: nat) returns (ok: bool, Abar: seq<set<nat>>)
    requires Over(A, n)
    ensures n <= 1025 ==> ok
    ensures ok ==> Transversals(A, n, Abar)
    decreases TotalSize(A)
  {
    hide Over, Transversals, TotalSize, Smallest, Missed, Without, Meeting, Weighty, Range;
    if |A| == 0 {
      NoSets(n);
      return true, [{}];
    }
    if |A| == 1 {
      OverAt(A, n, 0);
      Abar := Singletons(A[0].cols, n);
      OneSet(A, n, Abar);
      return true, Abar;
    }
    var minSetOrd, restrict := SmallestSets(A, n);
    if minSetOrd == 0 {
      Abar := [];
      NoneSmaller(A, n);
      ok := true;
    } else if minSetOrd == 1 {
      RestrictMeets(A, n, 1, restrict);
      EssentialRestrict(A, n, restrict);
      var R := AbsCovered(A, restrict);
      MissedOver(A, n, restrict, R);
      ok, Abar := UnateComplement(R, n);
      if ok {
        EssentialColumns(A, n, restrict, R, Abar);
        Abar := WithColumns(Abar, restrict);
      }
    } else {
      ok, Abar := UnateSplit(A, n, minSetOrd, restrict);
    }
  }

  lemma OverAt(A: seq<USet>, n: nat, i: nat)
    requires Over(A, n) && i < |A|
    ensures A[i].cols <= Range(n) && A[i].size == |A[i].cols|
  {
  }

  lemma NoneSmaller(A: seq<USet>, n: nat)
    requires Over(A, n) && exists i :: 0 <= i < |A| && A[i].size == 0
    ensures Transversals(A, n, [])
  {
    hide Transversals;
    var i :| 0 <= i < |A| && A[i].size == 0;
    EmptySet(A, n, i);
  }

  /** Split on a column: solutions with it, and solutions without it. */
  method UnateSplit(A: seq<USet>, n: nat, minSetOrd: nat, restrict: set<nat>) returns (ok: bool, Abar: seq<set<nat>>)
    requires Over(A, n) && Smallest(A, minSetOrd, restrict) && minSetOrd > 1
    requires exists i :: 0 <= i < |A| && A[i].size == minSetOrd
    ensures n <= 1025 ==> ok
    ensures ok ==> Transversals(A, n, Abar)
    decreases TotalSize(A), 0
  {
    hide Over, Transversals, TotalSize, Smallest, Missed, Without, Meeting, Weighty, Range;
    Abar := [];
    LargeSets(A, n, minSetOrd, restrict);
    RestrictMeets(A, n, minSetOrd, restrict);
    var max := AbsSelectRestricted(A, restrict, n);
    if max < 0 {
      return false, Abar;
    }
    WeightyMeets(A, max);
    var R := AbsCovered(A, {max});
    MissedOver(A, n, {max}, R);
    ok, Abar := UnateComplement(R, n);
    if !ok {
      return;
    }
    ghost var with0 := Abar;
    SizesRight(A, n);
    var Z := RemoveColumn(A, max);
    WithoutOver(A, n, max, Z);
    var without;
    ok, without := UnateComplement(Z, n);
    if ok {
      SplitColumn(A, n, max, R, Z, with0, without);
      Abar := WithColumns(Abar, {max}) + without;
    }
  }

  lemma SizesRight(A: seq<USet>, n: nat)
    requires Over(A, n)
    ensures forall i :: 0 <= i < |A| ==> A[i].size == |A[i].cols|
  {
    hide Range;
  }

  // ---- the smallest ones

  /** x meets every set of the family, and no smaller set does. */
  ghost predicate MinimalTransversal(A: seq<set<nat>>, x: set<nat>) {
    && MeetsAll(A, x)
    && forall y :: y < x ==> !MeetsAll(A, y)
  }

  ghost predicate MeetsAll(A: seq<set<nat>>, x: set<nat>) {
    forall i :: 0 <= i < |A| ==> A[i] * x != {}
  }

  /** No set of M contains another, every set of M is one of B, and every set of B
      contains one of M. */
  ghost predicate Minima(B: seq<set<nat>>, M: seq<set<nat>>) {
    && (forall i, j :: 0 <= i < |M| && 0 <= j < |M| && i != j ==> !(M[i] <= M[j]))
    && (forall i :: 0 <= i < |M| ==> M[i] in B)
    && (forall i :: 0 <= i < |B| ==> Offers(M, B[i]))
  }

  ghost predicate Ascending(B: seq<set<nat>>) {
    forall i, j :: 0 <= i < j < |B| ==> |B[i]| <= |B[j]|
  }

  method SortAscending(B: seq<set<nat>>) returns (S: seq<set<nat>>)
    ensures Ascending(S) && multiset(S) == multiset(B)
  {
    hide Ascending;
    S := [];
    NoneAscending();
    var i := 0;
    while i < |B|
      invariant 0 <= i <= |B| && Ascending(S) && multiset(S) == multiset(B[..i])
    {
      var n := 0;
      while n < |S| && |S[n]| <= |B[i]|
        invariant 0 <= n <= |S| && forall k :: 0 <= k < n ==> |S[k]| <= |B[i]|
        decreases |S| - n
      {
        n := n + 1;
      }
      Inserted(S, n, B[i]);
      assert B[..i + 1] == B[..i] + [B[i]];
      S := S[..n] + [B[i]] + S[n..];
      i := i + 1;
    }
    assert B[..i] == B;
  }

  lemma NoneAscending()
    ensures Ascending([])
  {
  }

  lemma Inserted(S: seq<set<nat>>, n: nat, x: set<nat>)
    requires Ascending(S) && n <= |S| && (forall k :: 0 <= k < n ==> |S[k]| <= |x|) && (n < |S| ==> |x| < |S[n]|)
    ensures Ascending(S[..n] + [x] + S[n..]) && multiset(S[..n] + [x] + S[n..]) == multiset(S) + multiset{x}
  {
    hide Ascending;
    InsertedOrder(S, n, x);
    assert S == S[..n] + S[n..];
  }

  lemma InsertedOrder(S: seq<set<nat>>, n: nat, x: set<nat>)
    requires Ascending(S) && n <= |S| && (forall k :: 0 <= k < n ==> |S[k]| <= |x|) && (n < |S| ==> |x| < |S[n]|)
    ensures Ascending(S[..n] + [x] + S[n..])
  {
    var N := S[..n] + [x] + S[n..];
    forall i, j | 0 <= i < j < |N|
      ensures |N[i]| <= |N[j]|
    {
      assert N[i] == if i < n then S[i] else if i == n then x else S[i - 1];
      assert N[j] == if j < n then S[j] else if j == n then x else S[j - 1];
      assert n < j - 1 ==> |S[n]| <= |S[j - 1]|;
    }
  }

  /** Delete the sets that contain another one, and the duplicates. */
  method SfRevContain(B: seq<set<nat>>) returns (M: seq<set<nat>>)
    ensures Minima(B, M)
  {
    hide Minima, Ascending;
    var S := SortAscending(B);
    M := [];
    NoMinima();
    var i := 0;
    while i < |S|
      invariant 0 <= i <= |S| && Minima(S[..i], M)
    {
      assert S[..i + 1] == S[..i] + [S[i]];
      var contains := ContainsSome(M, S[i]);
      MinimaStep(S, i, M);
      if !contains {
        M := M + [S[i]];
      }
      i := i + 1;
    }
    assert S[..i] == S;
    MinimaSorted(B, S, M);
  }

  method ContainsSome(M: seq<set<nat>>, x: set<nat>) returns (found: bool)
    ensures found <==> Offers(M, x)
  {
    var j := 0;
    while j < |M|
      invariant 0 <= j <= |M| && forall k :: 0 <= k < j ==> !(M[k] <= x)
    {
      if M[j] <= x {
        return true;
      }
      j := j + 1;
    }
    found := false;
  }

  lemma NoMinima()
    ensures Minima([], [])
  {
  }

  lemma MinimaStep(S: seq<set<nat>>, i: nat, M: seq<set<nat>>)
    requires i < |S| && Ascending(S) && Minima(S[..i], M)
    ensures Offers(M, S[i]) ==> Minima(S[..i] + [S[i]], M)
    ensures !Offers(M, S[i]) ==> Minima(S[..i] + [S[i]], M + [S[i]])
  {
    hide Offers, Ascending;
    var next := M + [S[i]];
    if !Offers(M, S[i]) {
      forall j | 0 <= j < |M|
        ensures !(M[j] <= S[i]) && !(S[i] <= M[j])
      {
        NoneLater(S, i, M, j);
      }
      forall k | 0 <= k <= i
        ensures Offers(next, (S[..i] + [S[i]])[k])
      {
        OffersMore(M, S[i], (S[..i] + [S[i]])[k]);
      }
    }
  }

  lemma OffersMore(M: seq<set<nat>>, y: set<nat>, x: set<nat>)
    ensures Offers(M, x) || y == x ==> Offers(M + [y], x)
  {
    if j :| 0 <= j < |M| && M[j] <= x {
      assert (M + [y])[j] <= x;
    }
    if y == x {
      assert (M + [y])[|M|] <= x;
    }
  }

  lemma NoneLater(S: seq<set<nat>>, i: nat, M: seq<set<nat>>, j: nat)
    requires i < |S| && Ascending(S) && j < |M| && !Offers(M, S[i])
    requires M[j] in S[..i]
    ensures !(M[j] <= S[i]) && !(S[i] <= M[j])
  {
    var k :| 0 <= k < i && S[..i][k] == M[j];
    assert |S[k]| <= |S[i]|;
    if S[i] <= M[j] {
      SubsetCard(S[i], M[j]);
    }
  }

  lemma MinimaSorted(B: seq<set<nat>>, S: seq<set<nat>>, M: seq<set<nat>>)
    requires multiset(S) == multiset(B) && Minima(S, M)
    ensures Minima(B, M)
  {
    hide Offers;
    forall i | 0 <= i < |M|
      ensures M[i] in B
    {
      assert M[i] in S;
      assert M[i] in multiset(S);
    }
    forall i | 0 <= i < |B|
      ensures Offers(M, B[i])
    {
      assert B[i] in multiset(B);
      assert B[i] in S;
      var j :| 0 <= j < |S| && S[j] == B[i];
    }
  }

  function Sized(A: seq<set<nat>>): (R: seq<USet>)
    ensures |R| == |A| && forall i :: 0 <= i < |A| ==> R[i] == USet(A[i], |A[i]|)
  {
    seq(|A|, i requires 0 <= i < |A| => USet(A[i], |A[i]|))
  }

  /** All the smallest sets of columns that meet every set of A, each once. */
  method UnateCompl(A: seq<set<nat>>, n: nat) returns (ok: bool, M: seq<set<nat>>)
    requires forall i :: 0 <= i < |A| ==> A[i] <= Range(n)
    ensures n <= 1025 ==> ok
    ensures ok ==> forall x :: x in M <==> MinimalTransversal(A, x)
    ensures ok ==> forall i, j :: 0 <= i < j < |M| ==> M[i] != M[j]
    ensures ok ==> forall i :: 0 <= i < |M| ==> M[i] <= Range(n)
  {
    hide Range, Transversals, Minima, MinimalTransversal;
    var Abar;
    M := [];
    ok, Abar := UnateComplement(Sized(A), n);
    if ok {
      M := SfRevContain(Abar);
      forall x
        ensures x in M <==> MinimalTransversal(A, x)
      {
        MinimaAreMinimal(A, n, Abar, M, x);
      }
      MinimaFacts(A, n, Abar, M);
    }
  }

  lemma MinimaFacts(A: seq<set<nat>>, n: nat, B: seq<set<nat>>, M: seq<set<nat>>)
    requires Transversals(Sized(A), n, B) && Minima(B, M)
    ensures forall i, j :: 0 <= i < j < |M| ==> M[i] != M[j]
    ensures forall i :: 0 <= i < |M| ==> M[i] <= Range(n)
  {
    hide Offers, HitsAll, Range;
    forall i | 0 <= i < |M|
      ensures M[i] <= Range(n)
    {
      assert M[i] in B;
    }
  }

  lemma HitsMeets(A: seq<set<nat>>, x: set<nat>)
    ensures HitsAll(Sized(A), x) <==> MeetsAll(A, x)
  {
  }

  lemma MinimaAreMinimal(A: seq<set<nat>>, n: nat, B: seq<set<nat>>, M: seq<set<nat>>, x: set<nat>)
    requires Transversals(Sized(A), n, B) && Minima(B, M)
    ensures x in M <==> MinimalTransversal(A, x)
  {
    hide HitsAll, MeetsAll, Minima, Transversals;
    if x in M {
      MinimumSolves(A, n, B, M, x);
      forall y | y < x
        ensures !MeetsAll(A, y)
      {
        HitsMeets(A, y);
        if HitsAll(Sized(A), y) {
          var z := MinimumInside(A, n, B, M, y);
          NotBelow(B, M, z, x);
        }
      }
    }
    if MinimalTransversal(A, x) {
      HitsMeets(A, x);
      var z := MinimumInside(A, n, B, M, x);
      MinimumSolves(A, n, B, M, z);
      assert !(z < x) && z <= x;
      assert z == x;
    }
  }

  lemma MinimumSolves(A: seq<set<nat>>, n: nat, B: seq<set<nat>>, M: seq<set<nat>>, x: set<nat>)
    requires Transversals(Sized(A), n, B) && Minima(B, M) && x in M
    ensures MeetsAll(A, x)
  {
    hide HitsAll, MeetsAll, Offers;
    var i :| 0 <= i < |M| && M[i] == x;
    assert x in B;
    var j :| 0 <= j < |B| && B[j] == x;
    HitsMeets(A, x);
  }

  lemma MinimumInside(A: seq<set<nat>>, n: nat, B: seq<set<nat>>, M: seq<set<nat>>, x: set<nat>) returns (z: set<nat>)
    requires Transversals(Sized(A), n, B) && Minima(B, M) && HitsAll(Sized(A), x)
    ensures z in M && z <= x
  {
    hide HitsAll;
    var j := Solved(Sized(A), n, B, x);
    assert Offers(M, B[j]);
    var i :| 0 <= i < |M| && M[i] <= B[j];
    z := M[i];
  }

  lemma NotBelow(B: seq<set<nat>>, M: seq<set<nat>>, z: set<nat>, x: set<nat>)
    requires Minima(B, M) && z in M && x in M
    ensures !(z < x)
  {
    hide Offers;
  }

  /** The bound is the best possible: over more columns there are two sets that leave no
      column any weight. */
  lemma BoundTight(n: nat)
    requires n > 1025
    ensures exists A :: |A| == 2 && Over(A, n) && forall c :: !Weighty(A, c)
  {
    RangeCard(n);
    var A := [USet(Range(n), n), USet(Range(n), n)];
    assert |A| == 2 && Over(A, n) && forall c :: !Weighty(A, c);
  }
}
