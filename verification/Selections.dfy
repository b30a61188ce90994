/** Elements picked from a list in their order. */
module Selections {

  /** kept are some of the first p elements of S, in their order. */
  ghost predicate Picked<T>(S: seq<T>, p: nat, kept: seq<T>) {
    exists from: seq<nat> :: Selects(S, p, kept, from)
  }

  ghost predicate Selects<T>(S: seq<T>, p: nat, kept: seq<T>, from: seq<nat>) {
    && p <= |S| && |from| == |kept|
    && (forall i :: 0 <= i < |kept| ==> from[i] < p && kept[i] == S[from[i]])
    && (forall i, j :: 0 <= i < j < |kept| ==> from[i] < from[j])
  }

  lemma PickNothing<T>(S: seq<T>)
    ensures Picked(S, 0, [])
  {
    assert Selects(S, 0, [], []);
  }

  lemma PickStep<T>(S: seq<T>, p: nat, kept: seq<T>)
    requires p < |S| && Picked(S, p, kept)
    ensures Picked(S, p + 1, kept + [S[p]])
  {
    var from :| Selects(S, p, kept, from);
    assert Selects(S, p + 1, kept + [S[p]], from + [p]);
  }

  lemma PickSkip<T>(S: seq<T>, p: nat, kept: seq<T>)
    requires p < |S| && Picked(S, p, kept)
    ensures Picked(S, p + 1, kept)
  {
    var from :| Selects(S, p, kept, from);
    assert Selects(S, p + 1, kept, from);
  }

  lemma {:induction false} PickedMultiset<T>(S: seq<T>, p: nat, kept: seq<T>)
    requires Picked(S, p, kept)
    ensures p <= |S| && multiset(kept) <= multiset(S[..p])
    decreases |kept|
  {
    var from :| Selects(S, p, kept, from);
    if kept != [] {
      var last := |kept| - 1;
      var f := from[last];
      assert Selects(S, f, kept[..last], from[..last]);
      PickedMultiset(S, f, kept[..last]);
      OneMorePicked(S, p, kept, f);
    }
  }

  lemma OneMorePicked<T>(S: seq<T>, p: nat, kept: seq<T>, f: nat)
    requires f < p <= |S| && kept != [] && kept[|kept| - 1] == S[f]
    requires multiset(kept[..|kept| - 1]) <= multiset(S[..f])
    ensures multiset(kept) <= multiset(S[..p])
  {
    assert kept == kept[..|kept| - 1] + [kept[|kept| - 1]];
    assert S[..p] == S[..f] + [S[f]] + S[f + 1..p];
  }

  lemma PickedTwice<T>(S: seq<T>, p: nat, kept: seq<T>, q: nat, fewer: seq<T>)
    requires Picked(S, p, kept) && Picked(kept, q, fewer)
    ensures Picked(S, p, fewer)
  {
    var from :| Selects(S, p, kept, from);
    var from' :| Selects(kept, q, fewer, from');
    var both := seq(|fewer|, i requires 0 <= i < |fewer| => from[from'[i]]);
    forall i | 0 <= i < |fewer|
      ensures both[i] < p && fewer[i] == S[both[i]]
    {
      assert fewer[i] == kept[from'[i]];
    }
    assert Selects(S, p, fewer, both);
  }

  /** Picked elements stem from different places. */
  lemma PickedPlaces<T>(S: seq<T>, p: nat, kept: seq<T>, i: nat, j: nat) returns (i': nat, j': nat)
    requires Picked(S, p, kept) && i < |kept| && j < |kept|
    ensures i' < |S| && j' < |S| && S[i'] == kept[i] && S[j'] == kept[j]
    ensures (i < j ==> i' < j') && (j < i ==> j' < i')
  {
    var from :| Selects(S, p, kept, from);
    i', j' := from[i], from[j];
  }

  /** An element that occurs at two places occurs twice. */
  lemma TwoPlaces<T>(S: seq<T>, i: nat, j: nat)
    requires i < j < |S| && S[i] == S[j]
    ensures multiset(S)[S[i]] >= 2
  {
    assert S == S[..j] + [S[j]] + S[j + 1..];
    assert S[i] in S[..j];
  }

  lemma OnePlace<T>(S: seq<T>, i: nat)
    requires i < |S| && forall j :: 0 <= j < |S| && j != i ==> S[j] != S[i]
    ensures multiset(S)[S[i]] == 1
  {
    assert S == S[..i] + [S[i]] + S[i + 1..];
    assert S[i] !in S[..i];
    assert S[i] !in S[i + 1..];
  }

  /** Two places of a list lead to two places of a list that has at least the same
      elements. */
  lemma PlacesIn<T>(C: seq<T>, R: seq<T>, i: nat, j: nat) returns (i': nat, j': nat)
    requires multiset(R) <= multiset(C) && i < |R| && j < |R| && i != j
    ensures i' < |C| && j' < |C| && i' != j' && C[i'] == R[i] && C[j'] == R[j]
  {
    assert R[i] in multiset(R) && R[j] in multiset(R);
    assert R[i] in C && R[j] in C;
    i' :| 0 <= i' < |C| && C[i'] == R[i];
    if R[i] == R[j] {
      TwoPlaces(R, if i < j then i else j, if i < j then j else i);
      if forall k :: 0 <= k < |C| && k != i' ==> C[k] != R[i] {
        OnePlace(C, i');
      }
      j' :| 0 <= j' < |C| && j' != i' && C[j'] == R[i];
    } else {
      j' :| 0 <= j' < |C| && C[j'] == R[j];
    }
  }
}
