/** The bottom-up merge sort of a linked list that relinks the nodes in place. */
module ListSort {
  import opened Counting
  import opened Selections

  /** A list node together with the data item it points to. */
  class ListHead {
    var next: ListHead?
    var idx: int
    var data: bv16
  }

  // ---- the comparison

  /** A comparison looks at the index and the data of two items.  It answers with a
      number, and with the data that it leaves in both. */
  type Cmp = (int, bv16, int, bv16) -> (int, bv16, bv16)

  /** The comparison of two items, in whichever of two states their data are: it says
      whether the first may stay before the second, and leaves the later states. */
  ghost predicate Answers(cmp: Cmp, i: int, d0: bv16, d1: bv16, j: int, e0: bv16, e1: bv16, le: bool) {
    forall d, e :: (d == d0 || d == d1) && (e == e0 || e == e1) ==>
      cmp(i, d, j, e).1 == d1 && cmp(i, d, j, e).2 == e1 && (cmp(i, d, j, e).0 <= 0 <==> le)
  }

  /** The upper byte backs up the lower one. */
  function Regen(d: bv16): bv16 {
    (d & 0xff00) | ((d >> 8) & 0x00ff)
  }

  lemma RegenTwice(d: bv16)
    ensures Regen(Regen(d)) == Regen(d)
  {
  }

  /** As a number: both bytes are the upper byte of d. */
  lemma RegenBytes(d: bv16)
    ensures Regen(d) as int == 257 * (d as int / 256)
  {
    hide Regen;
    RegenTwin(d);
    UpperByte(d);
    TwiceByte(d / 256);
  }

  lemma RegenTwin(d: bv16)
    ensures Regen(d) == 257 * (d / 256)
  {
  }

  lemma UpperByte(d: bv16)
    ensures d / 256 <= 255 && (d / 256) as int == d as int / 256
  {
  }

  lemma TwiceByte(b: bv16)
    requires b <= 255
    ensures (257 * b) as int == 257 * (b as int)
  {
  }

  /** The data, as a number, after comparing: on request both bytes are the upper one. */
  function DataLeft(regen: bool, d: bv16): int {
    if regen then 257 * (d as int / 256) else d as int
  }

  /** Compare by index; without results to record, the data of both is regenerated. */
  function CmpIdx(regen: bool): Cmp {
    (i: int, d: bv16, j: int, e: bv16) => (i - j, if regen then Regen(d) else d, if regen then Regen(e) else e)
  }

  /** The data that comparing by index leaves. */
  function Final(regen: bool, d: bv16): (r: bv16)
    ensures r as int == DataLeft(regen, d)
  {
    if regen then RegenBytes(d); Regen(d) else d
  }

  /** However often an item is compared, its data is regenerated once: then both bytes
      are the upper one it had. */
  lemma CmpIdxAnswers(regen: bool, i: int, d: bv16, j: int, e: bv16)
    ensures Answers(CmpIdx(regen), i, d, Final(regen, d), j, e, Final(regen, e), i <= j)
    ensures Final(regen, d) as int == DataLeft(regen, d) && Final(regen, e) as int == DataLeft(regen, e)
  {
    hide Regen;
    RegenTwice(d);
    RegenTwice(e);
  }

  // ---- orders of the nodes: a node is named by its place in the list to sort

  /** The node x belongs before y: by key, and nodes of one key as they were.  A key
      is the rank of the node in the order to sort by. */
  ghost predicate Less(key: seq<int>, x: nat, y: nat) {
    x < |key| && y < |key| && (key[x] < key[y] || (key[x] == key[y] && x < y))
  }

  ghost predicate NoRepeat(S: seq<nat>, n: nat) {
    (forall i :: 0 <= i < |S| ==> S[i] < n) && (forall i, j :: 0 <= i < j < |S| ==> S[i] != S[j])
  }

  ghost predicate SortedRange(key: seq<int>, ord: seq<nat>, i: nat, j: nat) {
    forall x, y :: i <= x < y < j && y < |ord| ==> Less(key, ord[x], ord[y])
  }

  /** The nodes before position i come from earlier in the list than those from j on. */
  ghost predicate RanksApart(ord: seq<nat>, i: nat) {
    forall x, y :: 0 <= x < i <= y < |ord| ==> ord[x] < ord[y]
  }

  /** Where the runs start: all have w nodes, but the last may have fewer. */
  ghost predicate Cuts(cuts: seq<nat>, n: nat, w: nat) {
    && 2 <= |cuts| && cuts[0] == 0 && cuts[|cuts| - 1] == n
    && (forall t :: 0 <= t < |cuts| - 1 ==> CutAt(cuts, t, w))
  }

  ghost predicate CutAt(cuts: seq<nat>, t: nat, w: nat)
    requires t < |cuts| - 1
  {
    cuts[t] < cuts[t + 1] <= cuts[t] + w && (t + 2 < |cuts| ==> cuts[t + 1] == cuts[t] + w)
  }

  /** Every run is sorted, and the runs follow each other as in the list to sort. */
  ghost predicate Runs(key: seq<int>, ord: seq<nat>, cuts: seq<nat>) {
    && (forall t :: 0 <= t < |cuts| - 1 ==> SortedRange(key, ord, cuts[t], cuts[t + 1]))
    && (forall t :: 0 <= t < |cuts| ==> RanksApart(ord, cuts[t]))
  }

  ghost function Identity(n: nat): (r: seq<nat>)
    ensures |r| == n && forall i :: 0 <= i < n ==> r[i] == i
  {
    seq(n, i requires 0 <= i < n => i)
  }

  /** ord lists the n nodes, each once. */
  ghost predicate Permutes(ord: seq<nat>, n: nat) {
    |ord| == n && NoRepeat(ord, n) && multiset(ord) == multiset(Identity(n))
  }

  /** The first nodes of two runs are merged into out[start..]; p stands at a before b, q at c
      before e. */
  ghost predicate Merged(key: seq<int>, ord: seq<nat>, out: seq<nat>, start: nat, a: nat, b: nat, c: nat, e: nat) {
    && start <= a <= b <= c <= e <= |ord| && |out| == a + c - b
    && Placed(ord, out, a, b, c) && RunsPlaced(ord, out, start, a, b, c, e)
    && SortedRange(key, out, start, |out|)
    && Ahead(key, out, start, ord, a, b) && Ahead(key, out, start, ord, c, e)
  }

  /** The list so far, the rest of p and what follows from q on have all nodes. */
  ghost predicate Placed(ord: seq<nat>, out: seq<nat>, a: nat, b: nat, c: nat)
    requires a <= b <= |ord| && c <= |ord|
  {
    multiset(out) + multiset(ord[a..b]) + multiset(ord[c..]) == multiset(ord)
  }

  /** What has been merged and the rests of both runs have the nodes of the runs. */
  ghost predicate RunsPlaced(ord: seq<nat>, out: seq<nat>, start: nat, a: nat, b: nat, c: nat, e: nat)
    requires a <= b <= |ord| && c <= e <= |ord| && start <= e && start <= |out|
  {
    multiset(out[start..]) + multiset(ord[a..b]) + multiset(ord[c..e]) == multiset(ord[start..e])
  }

  lemma PlacedFirst(ord: seq<nat>, out: seq<nat>, a: nat, b: nat, c: nat)
    requires a < b <= |ord| && c <= |ord| && Placed(ord, out, a, b, c)
    ensures Placed(ord, out + [ord[a]], a + 1, b, c)
  {
    assert ord[a..b] == [ord[a]] + ord[a + 1..b];
  }

  lemma PlacedSecond(ord: seq<nat>, out: seq<nat>, a: nat, b: nat, c: nat)
    requires a <= b <= |ord| && c < |ord| && Placed(ord, out, a, b, c)
    ensures Placed(ord, out + [ord[c]], a, b, c + 1)
  {
    assert ord[c..] == [ord[c]] + ord[c + 1..];
  }

  lemma RunsPlacedFirst(ord: seq<nat>, out: seq<nat>, start: nat, a: nat, b: nat, c: nat, e: nat)
    requires a < b <= |ord| && c <= e <= |ord| && start <= e && start <= |out|
    requires RunsPlaced(ord, out, start, a, b, c, e)
    ensures RunsPlaced(ord, out + [ord[a]], start, a + 1, b, c, e)
  {
    assert ord[a..b] == [ord[a]] + ord[a + 1..b];
    assert (out + [ord[a]])[start..] == out[start..] + [ord[a]];
  }

  lemma RunsPlacedSecond(ord: seq<nat>, out: seq<nat>, start: nat, a: nat, b: nat, c: nat, e: nat)
    requires a <= b <= |ord| && c < e <= |ord| && start <= e && start <= |out|
    requires RunsPlaced(ord, out, start, a, b, c, e)
    ensures RunsPlaced(ord, out + [ord[c]], start, a, b, c + 1, e)
  {
    assert ord[c..e] == [ord[c]] + ord[c + 1..e];
    assert (out + [ord[c]])[start..] == out[start..] + [ord[c]];
  }

  ghost predicate Ahead(key: seq<int>, out: seq<nat>, start: nat, ord: seq<nat>, i: nat, j: nat) {
    forall x, y :: start <= x < |out| && i <= y < j && y < |ord| ==> Less(key, out[x], ord[y])
  }

  /** The two runs to merge. */
  ghost predicate TwoRuns(key: seq<int>, ord: seq<nat>, start: nat, b: nat, e: nat) {
    && start <= b <= e <= |ord|
    && SortedRange(key, ord, start, b) && SortedRange(key, ord, b, e) && (b < e ==> RanksApart(ord, b))
    && (forall i :: 0 <= i < |ord| ==> ord[i] < |key|)
  }

  lemma MergedStart(key: seq<int>, ord: seq<nat>, out: seq<nat>, start: nat, b: nat, e: nat)
    requires start <= b <= e <= |ord| && multiset(out) == multiset(ord[..start]) && |out| == start
    ensures Merged(key, ord, out, start, start, b, b, e)
  {
    assert ord == ord[..start] + ord[start..b] + ord[b..];
    assert ord[start..e] == ord[start..b] + ord[b..e];
    assert out[start..] == [];
  }

  lemma TakeFirst(key: seq<int>, ord: seq<nat>, out: seq<nat>, start: nat, a: nat, b: nat, c: nat, e: nat)
    requires Merged(key, ord, out, start, a, b, c, e) && TwoRuns(key, ord, start, b, e) && a < b
    requires c < e ==> key[ord[a]] <= key[ord[c]]
    ensures Merged(key, ord, out + [ord[a]], start, a + 1, b, c, e)
  {
    hide Less, SortedRange, Ahead, RanksApart, Placed, RunsPlaced, TwoRuns;
    PlacedFirst(ord, out, a, b, c);
    RunsPlacedFirst(ord, out, start, a, b, c, e);
    AheadNext(key, out, start, ord, a, b, c, e);
    SortedNext(key, out, start, ord, a, b);
  }

  lemma TakeSecond(key: seq<int>, ord: seq<nat>, out: seq<nat>, start: nat, a: nat, b: nat, c: nat, e: nat)
    requires Merged(key, ord, out, start, a, b, c, e) && TwoRuns(key, ord, start, b, e) && c < e
    requires a < b ==> key[ord[c]] < key[ord[a]]
    ensures Merged(key, ord, out + [ord[c]], start, a, b, c + 1, e)
  {
    hide Less, SortedRange, Ahead, RanksApart, Placed, RunsPlaced, TwoRuns;
    PlacedSecond(ord, out, a, b, c);
    RunsPlacedSecond(ord, out, start, a, b, c, e);
    AheadOther(key, out, start, ord, a, b, c, e);
    SortedNext(key, out, start, ord, c, e);
  }

  lemma SortedNext(key: seq<int>, out: seq<nat>, start: nat, ord: seq<nat>, a: nat, b: nat)
    requires start <= |out| && a < b <= |ord| && SortedRange(key, out, start, |out|)
    requires Ahead(key, out, start, ord, a, b)
    ensures SortedRange(key, out + [ord[a]], start, |out| + 1)
  {
    hide Less;
  }

  lemma AheadNext(key: seq<int>, out: seq<nat>, start: nat, ord: seq<nat>, a: nat, b: nat, c: nat, e: nat)
    requires start <= a < b <= c <= e && TwoRuns(key, ord, start, b, e)
    requires Ahead(key, out, start, ord, a, b) && Ahead(key, out, start, ord, c, e)
    requires c < e ==> key[ord[a]] <= key[ord[c]]
    ensures Ahead(key, out + [ord[a]], start, ord, a + 1, b) && Ahead(key, out + [ord[a]], start, ord, c, e)
  {
    forall y | c <= y < e
      ensures Less(key, ord[a], ord[y])
    {
      assert ord[a] < ord[c];
      assert c < y ==> Less(key, ord[c], ord[y]);
    }
  }

  lemma AheadOther(key: seq<int>, out: seq<nat>, start: nat, ord: seq<nat>, a: nat, b: nat, c: nat, e: nat)
    requires start <= a <= b <= c < e && TwoRuns(key, ord, start, b, e)
    requires Ahead(key, out, start, ord, a, b) && Ahead(key, out, start, ord, c, e)
    requires a < b ==> key[ord[c]] < key[ord[a]]
    ensures Ahead(key, out + [ord[c]], start, ord, a, b) && Ahead(key, out + [ord[c]], start, ord, c + 1, e)
  {
    forall y | a <= y < b
      ensures Less(key, ord[c], ord[y])
    {
      assert a < y ==> Less(key, ord[a], ord[y]);
    }
  }

  lemma RepeatFree(S: seq<nat>, T: seq<nat>, n: nat)
    requires NoRepeat(S, n) && multiset(T) == multiset(S)
    ensures NoRepeat(T, n)
  {
    forall i | 0 <= i < |T|
      ensures T[i] < n
    {
      assert T[i] in multiset(T);
      assert T[i] in S;
    }
    forall i, j | 0 <= i < j < |T|
      ensures T[i] != T[j]
    {
      if T[i] == T[j] {
        TwoPlaces(T, i, j);
        assert T[i] in multiset(T);
        var k :| 0 <= k < |S| && S[k] == T[i];
        OnePlace(S, k);
      }
    }
  }

  // ---- the links

  ghost predicate Nodes(L0: seq<ListHead>) {
    forall i, j :: 0 <= i < j < |L0| ==> L0[i] != L0[j]
  }

  ghost predicate InList(L0: seq<ListHead>, ord: seq<nat>) {
    forall i :: 0 <= i < |ord| ==> ord[i] < |L0|
  }

  /** The node at position k, the end of the list behind the last one. */
  ghost function At(L0: seq<ListHead>, ord: seq<nat>, k: nat): ListHead?
    requires InList(L0, ord)
  {
    if k < |ord| then L0[ord[k]] else null
  }

  /** The nodes from position i to before j are linked to their successors. */
  ghost predicate Chain(L0: seq<ListHead>, ord: seq<nat>, i: nat, j: nat)
    requires InList(L0, ord)
    reads (set x | x in L0)`next
  {
    forall k: nat :: i <= k < j && k < |ord| ==> LinkedAt(L0, ord, k)
  }

  ghost predicate LinkedAt(L0: seq<ListHead>, ord: seq<nat>, k: nat)
    requires InList(L0, ord) && k < |ord|
    reads (set x | x in L0)`next
  {
    L0[ord[k]].next == At(L0, ord, k + 1)
  }

  /** The list built so far. */
  ghost predicate Built(L0: seq<ListHead>, out: seq<nat>, list: ListHead?, tail: ListHead?)
    requires InList(L0, out)
    reads (set x | x in L0)`next
  {
    if out == [] then list == null && tail == null
    else list == L0[out[0]] && tail == L0[out[|out| - 1]] && Chain(L0, out, 0, |out| - 1)
  }

  /** Add the next node to the list; nodes of other chains are not touched. */
  method Append(list: ListHead?, tail: ListHead?, e: ListHead, ghost L0: seq<ListHead>, ghost out: seq<nat>,
      ghost x: nat, ghost ord: seq<nat>, ghost a: nat, ghost b: nat, ghost c: nat) returns (list': ListHead)
    requires Nodes(L0) && NoRepeat(out + [x], |L0|) && InList(L0, out) && x < |L0| && e == L0[x]
    requires Built(L0, out, list, tail)
    requires InList(L0, ord) && Chain(L0, ord, a, b) && Chain(L0, ord, c, |ord|)
    requires forall k :: (a <= k < b || c <= k) && k < |ord| ==> ord[k] !in out
    modifies (set y | y in L0)`next
    ensures InList(L0, out + [x]) && Built(L0, out + [x], list', e)
    ensures Chain(L0, ord, a, b) && Chain(L0, ord, c, |ord|)
  {
    ghost var last := |out| - 1;
    assert (out + [x])[|out|] == x;
    assert forall k :: 0 <= k < |out| ==> out[k] == (out + [x])[k];
    if tail != null {
      assert tail == L0[out[last]];
      tail.next := e;
      list' := list;
      forall k: nat | k < |out|
        ensures LinkedAt(L0, out + [x], k)
      {
        if k < last {
          assert old(LinkedAt(L0, out, k));
          assert out[k] != out[last];
        }
      }
      forall k: nat | (a <= k < b || c <= k) && k < |ord|
        ensures LinkedAt(L0, ord, k)
      {
        assert old(LinkedAt(L0, ord, k));
        assert ord[k] != out[last];
      }
    } else {
      list' := e;
    }
  }

  lemma RestOutside(ord: seq<nat>, out: seq<nat>, a: nat, b: nat, c: nat, n: nat)
    requires a <= b <= c <= |ord| && NoRepeat(out + ord[a..b] + ord[c..], n)
    ensures forall k :: a <= k < b || c <= k < |ord| ==> ord[k] !in out
  {
    var T := out + ord[a..b] + ord[c..];
    forall k | a <= k < b || c <= k < |ord|
      ensures ord[k] !in out
    {
      var y := if k < b then |out| + (k - a) else |out| + (b - a) + (k - c);
      assert T[y] == ord[k];
      assert forall x :: 0 <= x < |out| ==> T[x] == out[x];
    }
  }

  // ---- the data

  /** Comparing any two nodes, in whichever state their data are, ranks them as key
      does. */
  ghost predicate Consistent(L0: seq<ListHead>, cmp: Cmp, d0: seq<bv16>, d1: seq<bv16>, key: seq<int>)
    reads (set x | x in L0)`idx
  {
    && |key| == |d0| == |d1| == |L0|
    && forall x, y :: 0 <= x < |L0| && 0 <= y < |L0| && x != y ==> PairAnswers(L0, cmp, d0, d1, x, y, key[x] <= key[y])
  }

  ghost predicate PairAnswers(L0: seq<ListHead>, cmp: Cmp, d0: seq<bv16>, d1: seq<bv16>, x: nat, y: nat, le: bool)
    requires |d0| == |d1| == |L0| && x < |L0| && y < |L0|
    reads (set x | x in L0)`idx
  {
    Answers(cmp, L0[x].idx, d0[x], d1[x], L0[y].idx, d0[y], d1[y], le)
  }

  /** The data is as it was, or as comparing leaves it; that of an only node is as it
      was. */
  ghost predicate Kept(L0: seq<ListHead>, d0: seq<bv16>, d1: seq<bv16>)
    reads (set x | x in L0)`data
  {
    |d0| == |d1| == |L0| && forall r :: 0 <= r < |L0| ==> L0[r].data == d0[r] || (|L0| > 1 && L0[r].data == d1[r])
  }

  ghost predicate Done(L0: seq<ListHead>, d1: seq<bv16>, ord: seq<nat>, i: nat, j: nat)
    requires InList(L0, ord) && |d1| == |L0|
    reads (set x | x in L0)`data
  {
    forall k :: i <= k < j && k < |ord| ==> L0[ord[k]].data == d1[ord[k]]
  }

  /** The nodes in D have been compared. */
  ghost predicate DoneSet(L0: seq<ListHead>, d1: seq<bv16>, D: set<nat>)
    reads (set x | x in L0)`data
  {
    |d1| == |L0| && forall r :: r in D && r < |L0| ==> L0[r].data == d1[r]
  }

  // ---- merging two runs

  /** The two runs with their positions in the order ord: p starts at start, q at b, and q
      ends before e. */
  ghost predicate RunsAt(key: seq<int>, ord: seq<nat>, start: nat, b: nat, e: nat, insize: nat) {
    && TwoRuns(key, ord, start, b, e) && start < b && b <= e <= b + insize && (e < |ord| ==> e == b + insize)
    && Permutes(ord, |key|)
  }

  /** The nodes still to merge are linked as they were, the others form the list. */
  ghost predicate Linked(L0: seq<ListHead>, ord: seq<nat>, out: seq<nat>, a: nat, b: nat, c: nat, list: ListHead?,
      tail: ListHead?)
    reads (set x | x in L0)`next
  {
    && Nodes(L0) && InList(L0, ord) && InList(L0, out)
    && Chain(L0, ord, a, b) && Chain(L0, ord, c, |ord|) && Built(L0, out, list, tail)
  }

  /** The cursors of the merge: how many nodes of p are left, and how many of q may be. */
  ghost predicate Cursors(L0: seq<ListHead>, ord: seq<nat>, a: nat, b: nat, c: nat, insize: nat, p: ListHead?,
      psize: nat, q: ListHead?, qsize: nat) {
    && InList(L0, ord) && a <= b <= c
    && psize == b - a && qsize == b + insize - c
    && (a < b ==> p == At(L0, ord, a)) && q == At(L0, ord, c)
  }

  /** The nodes of runs of several nodes have been compared, and those of both runs
      have once their first nodes have been. */
  ghost predicate Compared(L0: seq<ListHead>, d0: seq<bv16>, d1: seq<bv16>, ord: seq<nat>, start: nat, b: nat, e: nat,
      begun: bool)
    reads (set x | x in L0)`data
  {
    && InList(L0, ord) && Kept(L0, d0, d1)
    && (b >= start + 2 ==> Done(L0, d1, ord, start, b))
    && (e >= b + 2 ==> Done(L0, d1, ord, b, e))
    && (begun && b < e ==> Done(L0, d1, ord, start, e))
  }

  /** Compare the heads of both runs. */
  method CompareHeads(p: ListHead, q: ListHead, cmp: Cmp, ghost L0: seq<ListHead>, ghost d0: seq<bv16>,
      ghost d1: seq<bv16>, ghost key: seq<int>, ghost ord: seq<nat>, ghost start: nat, ghost a: nat, ghost b: nat,
      ghost c: nat, ghost e: nat, ghost D: set<nat>) returns (r: int)
    requires Nodes(L0) && InList(L0, ord) && NoRepeat(ord, |L0|) && Consistent(L0, cmp, d0, d1, key)
    requires |ord| == |L0| && start <= a < b <= c < e <= |ord| && p == L0[ord[a]] && q == L0[ord[c]]
    requires Compared(L0, d0, d1, ord, start, b, e, a > start || c > b) && DoneSet(L0, d1, D)
    modifies (set x | x in L0)`data
    ensures r <= 0 <==> key[ord[a]] <= key[ord[c]]
    ensures Compared(L0, d0, d1, ord, start, b, e, true) && DoneSet(L0, d1, D)
  {
    hide Consistent, Nodes, NoRepeat;
    ghost var x, y := ord[a], ord[c];
    DifferentNodes(ord, |L0|, a, c);
    r := CompareTwo(p, q, cmp, L0, d0, d1, key, x, y);
    forall k | 0 <= k < |L0|
      ensures L0[k].data == old(L0[k].data) || L0[k].data == d1[k]
    {
      assert k == x || k == y || L0[k].data == old(L0[k].data);
    }
  }

  /** Compare two nodes. */
  method CompareTwo(p: ListHead, q: ListHead, cmp: Cmp, ghost L0: seq<ListHead>, ghost d0: seq<bv16>,
      ghost d1: seq<bv16>, ghost key: seq<int>, ghost x: nat, ghost y: nat) returns (r: int)
    requires Nodes(L0) && Consistent(L0, cmp, d0, d1, key) && x < |L0| && y < |L0| && x != y && p == L0[x] && q == L0[y]
    requires (p.data == d0[x] || p.data == d1[x]) && (q.data == d0[y] || q.data == d1[y])
    modifies p`data, q`data
    ensures r <= 0 <==> key[x] <= key[y]
    ensures p.data == d1[x] && q.data == d1[y]
    ensures forall k :: 0 <= k < |L0| && k != x && k != y ==> L0[k].data == old(L0[k].data)
  {
    hide Answers;
    assert PairAnswers(L0, cmp, d0, d1, x, y, key[x] <= key[y]);
    AnswerNow(cmp, p.idx, d0[x], d1[x], q.idx, d0[y], d1[y], key[x] <= key[y], p.data, q.data);
    assert p != q;
    var answer := cmp(p.idx, p.data, q.idx, q.data);
    r := answer.0;
    p.data := answer.1;
    q.data := answer.2;
  }

  lemma DifferentNodes(ord: seq<nat>, n: nat, a: nat, c: nat)
    requires NoRepeat(ord, n) && a < c < |ord|
    ensures ord[a] != ord[c]
  {
  }

  lemma AnswerNow(cmp: Cmp, i: int, d0: bv16, d1: bv16, j: int, e0: bv16, e1: bv16, le: bool, d: bv16, e: bv16)
    requires Answers(cmp, i, d0, d1, j, e0, e1, le) && (d == d0 || d == d1) && (e == e0 || e == e1)
    ensures cmp(i, d, j, e).1 == d1 && cmp(i, d, j, e).2 == e1 && (cmp(i, d, j, e).0 <= 0 <==> le)
  {
  }

  /** Everything the merge keeps. */
  ghost predicate Merging(L0: seq<ListHead>, d0: seq<bv16>, d1: seq<bv16>, key: seq<int>, ord: seq<nat>, out: seq<nat>,
      start: nat, a: nat, b: nat, c: nat, e: nat, list: ListHead?, tail: ListHead?)
    reads L0
  {
    && Merged(key, ord, out, start, a, b, c, e)
    && Linked(L0, ord, out, a, b, c, list, tail)
    && Compared(L0, d0, d1, ord, start, b, e, a > start || c > b)
  }

  /** Move the first node of run p into the list. */
  method MoveFirst(list: ListHead?, tail: ListHead?, p: ListHead, ghost L0: seq<ListHead>, ghost key: seq<int>,
      ghost ord: seq<nat>, ghost out: seq<nat>, ghost start: nat, ghost a: nat, ghost b: nat, ghost c: nat,
      ghost e: nat) returns (list': ListHead, p': ListHead?)
    requires a < b && Merged(key, ord, out, start, a, b, c, e) && TwoRuns(key, ord, start, b, e) && Permutes(ord, |L0|)
    requires c < e ==> key[ord[a]] <= key[ord[c]]
    requires Linked(L0, ord, out, a, b, c, list, tail) && p == At(L0, ord, a)
    modifies (set x | x in L0)`next
    ensures Merged(key, ord, out + [ord[a]], start, a + 1, b, c, e)
    ensures Linked(L0, ord, out + [ord[a]], a + 1, b, c, list', p) && p' == At(L0, ord, a + 1)
  {
    hide Merged, TwoRuns, Permutes, NoRepeat, Nodes, Built, Chain;
    MergedBounds(key, ord, out, start, a, b, c, e);
    FirstOutside(key, ord, out, start, a, b, c, e, |L0|);
    TakeFirst(key, ord, out, start, a, b, c, e);
    ChainAt(L0, ord, a, b);
    p' := p.next;
    list' := Append(list, tail, p, L0, out, ord[a], ord, a + 1, b, c);
  }

  /** Move the first node of run q into the list. */
  method MoveSecond(list: ListHead?, tail: ListHead?, q: ListHead, ghost L0: seq<ListHead>, ghost key: seq<int>,
      ghost ord: seq<nat>, ghost out: seq<nat>, ghost start: nat, ghost a: nat, ghost b: nat, ghost c: nat,
      ghost e: nat) returns (list': ListHead, q': ListHead?)
    requires c < e && Merged(key, ord, out, start, a, b, c, e) && TwoRuns(key, ord, start, b, e) && Permutes(ord, |L0|)
    requires a < b ==> key[ord[c]] < key[ord[a]]
    requires Linked(L0, ord, out, a, b, c, list, tail) && q == At(L0, ord, c)
    modifies (set x | x in L0)`next
    ensures Merged(key, ord, out + [ord[c]], start, a, b, c + 1, e)
    ensures Linked(L0, ord, out + [ord[c]], a, b, c + 1, list', q) && q' == At(L0, ord, c + 1)
  {
    hide Merged, TwoRuns, Permutes, NoRepeat, Nodes, Built, Chain;
    MergedBounds(key, ord, out, start, a, b, c, e);
    SecondOutside(key, ord, out, start, a, b, c, e, |L0|);
    TakeSecond(key, ord, out, start, a, b, c, e);
    ChainAt(L0, ord, c, |ord|);
    q' := q.next;
    list' := Append(list, tail, q, L0, out, ord[c], ord, a, b, c + 1);
  }

  lemma ChainAt(L0: seq<ListHead>, ord: seq<nat>, a: nat, b: nat)
    requires InList(L0, ord) && Chain(L0, ord, a, b) && a < b <= |ord|
    ensures L0[ord[a]].next == At(L0, ord, a + 1) && Chain(L0, ord, a + 1, b)
  {
    assert LinkedAt(L0, ord, a);
  }

  lemma FirstOutside(key: seq<int>, ord: seq<nat>, out: seq<nat>, start: nat, a: nat, b: nat, c: nat, e: nat, n: nat)
    requires a < b && Merged(key, ord, out, start, a, b, c, e) && Permutes(ord, n)
    ensures NoRepeat(out + [ord[a]], n) && ord[a] < n
    ensures forall k :: a <= k < b || c <= k < |ord| ==> ord[k] !in out
  {
    hide SortedRange, Ahead, NoRepeat;
    var T := out + ord[a..b] + ord[c..];
    RepeatFree(ord, T, n);
    RestOutside(ord, out, a, b, c, n);
    assert T[..|out| + 1] == out + [ord[a]];
    PrefixRepeatFree(T, |out| + 1, n);
  }

  lemma SecondOutside(key: seq<int>, ord: seq<nat>, out: seq<nat>, start: nat, a: nat, b: nat, c: nat, e: nat, n: nat)
    requires c < e && Merged(key, ord, out, start, a, b, c, e) && Permutes(ord, n)
    ensures NoRepeat(out + [ord[c]], n) && ord[c] < n
    ensures forall k :: a <= k < b || c <= k < |ord| ==> ord[k] !in out
  {
    hide SortedRange, Ahead, NoRepeat;
    RepeatFree(ord, out + ord[a..b] + ord[c..], n);
    RestOutside(ord, out, a, b, c, n);
    var T := out + ord[c..] + ord[a..b];
    OtherOrder(out, ord[a..b], ord[c..]);
    RepeatFree(ord, T, n);
    assert T[..|out| + 1] == out + [ord[c]];
    PrefixRepeatFree(T, |out| + 1, n);
  }

  lemma OtherOrder(x: seq<nat>, y: seq<nat>, z: seq<nat>)
    ensures multiset(x + z + y) == multiset(x + y + z) == multiset(x) + multiset(y) + multiset(z)
  {
  }

  lemma PrefixRepeatFree(T: seq<nat>, k: nat, n: nat)
    requires k <= |T| && NoRepeat(T, n)
    ensures NoRepeat(T[..k], n) && (k > 0 ==> T[k - 1] < n)
  {
  }

  /** Merge the run at p0 with the one at q0 behind the list built so far. */
  method MergeRuns(p0: ListHead, psize0: nat, q0: ListHead?, insize: nat, cmp: Cmp, list0: ListHead?, tail0: ListHead?,
      ghost L0: seq<ListHead>, ghost d0: seq<bv16>, ghost d1: seq<bv16>, ghost key: seq<int>, ghost ord: seq<nat>,
      ghost out0: seq<nat>, ghost start: nat, ghost b: nat, ghost e: nat, ghost D: set<nat>)
      returns (list: ListHead?, tail: ListHead?, q: ListHead?, ghost out: seq<nat>)
    requires |key| == |L0| && RunsAt(key, ord, start, b, e, insize) && Consistent(L0, cmp, d0, d1, key)
    requires Merging(L0, d0, d1, key, ord, out0, start, start, b, b, e, list0, tail0)
    requires Cursors(L0, ord, start, b, b, insize, p0, psize0, q0, insize) && DoneSet(L0, d1, D)
    modifies (set x | x in L0)`next, (set x | x in L0)`data
    ensures Merging(L0, d0, d1, key, ord, out, start, b, b, e, e, list, tail)
    ensures q == At(L0, ord, e) && out0 <= out && DoneSet(L0, d1, D)
  {
    hide Merged, TwoRuns, Permutes, Linked, Compared, Consistent, Done, DoneSet;
    out, list, tail := out0, list0, tail0;
    var p: ListHead?, psize, qsize := p0, psize0, insize;
    q := q0;
    ghost var a, c := start, b;
    MergedBounds(key, ord, out, start, a, b, c, e);
    PermutesSize(ord, |key|);
    while psize > 0 || (qsize > 0 && q != null)
      invariant start <= a <= b <= c <= e <= |ord| && Consistent(L0, cmp, d0, d1, key)
      invariant Merging(L0, d0, d1, key, ord, out, start, a, b, c, e, list, tail)
      invariant Cursors(L0, ord, a, b, c, insize, p, psize, q, qsize)
      invariant out0 <= out && DoneSet(L0, d1, D)
      decreases psize + qsize
    {
      var first;
      if psize == 0 {
        first := false;
      } else if qsize == 0 || q == null {
        OnlyOneRun(L0, d0, d1, ord, start, b, e, a > start || c > b);
        first := true;
      } else {
        LinkedNodes(L0, ord, out, a, b, c, list, tail);
        var r := CompareHeads(p, q, cmp, L0, d0, d1, key, ord, start, a, b, c, e, D);
        first := r <= 0;
      }
      if first {
        var e' := p;
        list, p := MoveFirst(list, tail, e', L0, key, ord, out, start, a, b, c, e);
        psize, tail := psize - 1, e';
        out, a := out + [ord[a]], a + 1;
      } else {
        var e' := q;
        list, q := MoveSecond(list, tail, e', L0, key, ord, out, start, a, b, c, e);
        qsize, tail := qsize - 1, e';
        out, c := out + [ord[c]], c + 1;
      }
    }
  }

  lemma LinkedNodes(L0: seq<ListHead>, ord: seq<nat>, out: seq<nat>, a: nat, b: nat, c: nat, list: ListHead?,
      tail: ListHead?)
    requires Linked(L0, ord, out, a, b, c, list, tail)
    ensures Nodes(L0)
  {
    hide Nodes, Chain, Built;
  }

  lemma OnlyOneRun(L0: seq<ListHead>, d0: seq<bv16>, d1: seq<bv16>, ord: seq<nat>, start: nat, b: nat, e: nat,
      begun: bool)
    requires Compared(L0, d0, d1, ord, start, b, e, begun) && (begun || b == e)
    ensures Compared(L0, d0, d1, ord, start, b, e, true)
  {
  }

  lemma PermutesSize(ord: seq<nat>, n: nat)
    requires Permutes(ord, n)
    ensures |ord| == n && NoRepeat(ord, n)
  {
    hide NoRepeat;
  }

  lemma MergedBounds(key: seq<int>, ord: seq<nat>, out: seq<nat>, start: nat, a: nat, b: nat, c: nat, e: nat)
    requires Merged(key, ord, out, start, a, b, c, e)
    ensures start <= a <= b <= c <= e <= |ord| && |out| == a + c - b
  {
  }

  // ---- one pass

  /** The nodes are linked in the order ord. */
  ghost predicate List(L0: seq<ListHead>, ord: seq<nat>, list: ListHead?)
    reads (set x | x in L0)`next
  {
    && Nodes(L0) && Permutes(ord, |L0|) && InList(L0, ord)
    && Chain(L0, ord, 0, |ord|) && list == At(L0, ord, 0)
  }

  ghost predicate RangeIn(ord: seq<nat>, i: nat, j: nat, D: set<nat>) {
    forall k :: i <= k < j && k < |ord| ==> ord[k] in D
  }

  /** From the t-th run on, D holds the nodes of all runs of several nodes. */
  ghost predicate RunsIn(ord: seq<nat>, cuts: seq<nat>, t: nat, D: set<nat>) {
    forall u :: t <= u < |cuts| - 1 && cuts[u + 1] >= cuts[u] + 2 ==> RangeIn(ord, cuts[u], cuts[u + 1], D)
  }

  /** Go insize nodes along the list, or to its end. */
  method StepAlong(p: ListHead, insize: nat, ghost L0: seq<ListHead>, ghost ord: seq<nat>, ghost start: nat)
      returns (q: ListHead?, psize: nat)
    requires InList(L0, ord) && start < |ord| && Chain(L0, ord, start, |ord|) && p == At(L0, ord, start) && insize > 0
    ensures psize > 0 && psize <= insize && start + psize <= |ord| && (start + psize < |ord| ==> psize == insize)
    ensures q == At(L0, ord, start + psize)
  {
    hide Chain;
    q, psize := p, 0;
    var i := 0;
    while i < insize
      invariant 0 <= i <= insize && psize == i && start + psize <= |ord|
      invariant q == At(L0, ord, start + psize) && (i < insize ==> start + psize < |ord|)
      invariant start + psize < |ord| || psize > 0
    {
      ChainFrom(L0, ord, start, start + psize);
      psize := psize + 1;
      q := q.next;
      if q == null {
        break;
      }
      i := i + 1;
    }
  }

  lemma ChainFrom(L0: seq<ListHead>, ord: seq<nat>, start: nat, a: nat)
    requires InList(L0, ord) && Chain(L0, ord, start, |ord|) && start <= a < |ord|
    ensures L0[ord[a]].next == At(L0, ord, a + 1)
  {
    assert LinkedAt(L0, ord, a);
  }

  /** The runs before the t-th have been merged in pairs into out. */
  ghost predicate PassTo(key: seq<int>, ord: seq<nat>, cuts: seq<nat>, t: nat, out: seq<nat>, cuts': seq<nat>, w: nat) {
    && t < |cuts| && |cuts'| >= 1 && cuts'[0] == 0 && cuts'[|cuts'| - 1] == cuts[t] == |out|
    && (t == 2 * (|cuts'| - 1) || (t + 1 == 2 * (|cuts'| - 1) && t == |cuts| - 1))
    && (forall i :: 0 <= i < |cuts'| - 1 ==> CutAt(cuts', i, 2 * w))
    && (t < |cuts| - 1 ==> forall i :: 0 <= i < |cuts'| - 1 ==> FullCut(cuts', i, 2 * w))
    && cuts[t] <= |ord| && multiset(out) == multiset(ord[..cuts[t]])
    && Runs(key, out, cuts')
  }

  ghost predicate FullCut(cuts: seq<nat>, i: nat, w: nat)
    requires i < |cuts| - 1
  {
    cuts[i + 1] == cuts[i] + w
  }

  /** Where the next two runs are. */
  lemma NextRuns(key: seq<int>, ord: seq<nat>, cuts: seq<nat>, t: nat, w: nat, psize: nat) returns (e: nat, t': nat)
    requires Cuts(cuts, |ord|, w) && Runs(key, ord, cuts) && t < |cuts| - 1 && Permutes(ord, |key|) && w > 0
    requires 0 < psize <= w && cuts[t] + psize <= |ord| && (cuts[t] + psize < |ord| ==> psize == w)
    ensures cuts[t] + psize == cuts[t + 1]
    ensures RunsAt(key, ord, cuts[t], cuts[t + 1], e, w)
    ensures t' == (if t + 2 < |cuts| then t + 2 else t + 1) && t' < |cuts| && e == cuts[t']
  {
    hide SortedRange, RanksApart;
    e, t' := cuts[t + 1], t + 1;
    assert CutAt(cuts, t, w);
    CutsUpTo(cuts, |ord|, w, t + 1);
    if t + 2 < |cuts| {
      e, t' := cuts[t + 2], t + 2;
      assert CutAt(cuts, t + 1, w);
      CutsUpTo(cuts, |ord|, w, t + 2);
    } else {
      EmptyRange(key, ord, cuts[t + 1]);
    }
  }

  lemma EmptyRange(key: seq<int>, ord: seq<nat>, i: nat)
    ensures SortedRange(key, ord, i, i)
  {
  }

  lemma {:induction false} CutsUpTo(cuts: seq<nat>, n: nat, w: nat, t: nat)
    requires Cuts(cuts, n, w) && t < |cuts|
    ensures cuts[t] <= n && (t < |cuts| - 1 ==> cuts[t] < n)
    decreases |cuts| - t
  {
    if t < |cuts| - 1 {
      assert CutAt(cuts, t, w);
      CutsUpTo(cuts, n, w, t + 1);
    }
  }

  lemma PassStart(key: seq<int>, ord: seq<nat>, cuts: seq<nat>, w: nat)
    requires Cuts(cuts, |ord|, w)
    ensures PassTo(key, ord, cuts, 0, [], [0], w)
  {
  }

  lemma PassNext(key: seq<int>, ord: seq<nat>, cuts: seq<nat>, t: nat, out: seq<nat>, cuts': seq<nat>, w: nat, b: nat,
      e: nat, t': nat, out': seq<nat>)
    requires PassTo(key, ord, cuts, t, out, cuts', w) && Cuts(cuts, |ord|, w) && Runs(key, ord, cuts) && t < |cuts| - 1
    requires w > 0
    requires t' == (if t + 2 < |cuts| then t + 2 else t + 1) && e == cuts[t'] <= |ord|
    requires Merged(key, ord, out', cuts[t], b, b, e, e) && out <= out'
    ensures PassTo(key, ord, cuts, t', out', cuts' + [e], w)
  {
    hide SortedRange, RanksApart, Merged, Runs;
    var next := cuts' + [e];
    MergedAll(key, ord, out', cuts[t], b, e);
    NextCut(cuts, |ord|, t, cuts', w, t', e);
    assert next[|cuts'|] == e;
    PassCuts(key, ord, cuts, t, out, cuts', w);
    NextRunsSorted(key, ord, cuts, t, out, cuts', e, out');
  }

  lemma MergedAll(key: seq<int>, ord: seq<nat>, out': seq<nat>, start: nat, b: nat, e: nat)
    requires Merged(key, ord, out', start, b, b, e, e)
    ensures start <= e <= |ord| && |out'| == e
    ensures multiset(out') == multiset(ord[..e]) && multiset(out'[start..]) == multiset(ord[start..e])
    ensures SortedRange(key, out', start, e)
  {
    hide SortedRange, Ahead;
    assert ord == ord[..e] + ord[e..];
    assert ord[b..b] == [] && ord[e..e] == [];
    Cancel(multiset(out'), multiset(ord[..e]), multiset(ord[e..]));
  }

  lemma Cancel(a: multiset<nat>, b: multiset<nat>, c: multiset<nat>)
    requires a + c == b + c
    ensures a == b
  {
    assert a == (a + c) - c;
    assert b == (b + c) - c;
  }

  lemma NextCut(cuts: seq<nat>, n: nat, t: nat, cuts': seq<nat>, w: nat, t': nat, e: nat)
    requires Cuts(cuts, n, w) && t < |cuts| - 1 && |cuts'| >= 1 && cuts'[|cuts'| - 1] == cuts[t] && w > 0
    requires t' == (if t + 2 < |cuts| then t + 2 else t + 1) && e == cuts[t']
    requires forall i :: 0 <= i < |cuts'| - 1 ==> FullCut(cuts', i, 2 * w)
    ensures forall i :: 0 <= i < |cuts'| ==> CutAt(cuts' + [e], i, 2 * w)
    ensures t' < |cuts| - 1 ==> forall i :: 0 <= i < |cuts'| ==> FullCut(cuts' + [e], i, 2 * w)
  {
    var next := cuts' + [e];
    assert CutAt(cuts, t, w);
    assert t + 1 < |cuts| - 1 ==> CutAt(cuts, t + 1, w);
    forall i | 0 <= i < |cuts'|
      ensures CutAt(next, i, 2 * w) && (t' < |cuts| - 1 ==> FullCut(next, i, 2 * w))
    {
      if i < |cuts'| - 1 {
        assert FullCut(cuts', i, 2 * w);
      }
    }
  }

  lemma NextRunsSorted(key: seq<int>, ord: seq<nat>, cuts: seq<nat>, t: nat, out: seq<nat>, cuts': seq<nat>, e: nat,
      out': seq<nat>)
    requires Runs(key, out, cuts') && Runs(key, ord, cuts) && t < |cuts| && out <= out' && |out'| == e && |cuts'| >= 1
    requires cuts'[|cuts'| - 1] == cuts[t] == |out| && cuts[t] <= e <= |ord|
    requires multiset(out) == multiset(ord[..cuts[t]])
    requires multiset(out'[cuts[t]..]) == multiset(ord[cuts[t]..e]) && SortedRange(key, out', cuts[t], e)
    requires forall i :: 0 <= i < |cuts'| - 1 ==> cuts'[i] < cuts'[i + 1]
    ensures Runs(key, out', cuts' + [e])
  {
    hide SortedRange, RanksApart;
    var next := cuts' + [e];
    forall i | 0 <= i < |next| - 1
      ensures SortedRange(key, out', next[i], next[i + 1])
    {
      if i < |cuts'| - 1 {
        assert SortedRange(key, out, cuts'[i], cuts'[i + 1]);
        CutBelow(cuts', i + 1);
        SortedLonger(key, out, out', cuts'[i], cuts'[i + 1]);
      }
    }
    forall i | 0 <= i < |next|
      ensures RanksApart(out', next[i])
    {
      if i < |cuts'| {
        assert RanksApart(out, cuts'[i]);
        CutBelow(cuts', i);
        RanksLonger(ord, cuts[t], e, out, out', cuts'[i]);
      } else {
        RanksEnd(out');
      }
    }
  }

  lemma RanksEnd(out: seq<nat>)
    ensures RanksApart(out, |out|)
  {
  }

  lemma {:induction false} CutBelow(cuts: seq<nat>, i: nat)
    requires i < |cuts| && forall i :: 0 <= i < |cuts| - 1 ==> cuts[i] < cuts[i + 1]
    ensures cuts[i] <= cuts[|cuts| - 1]
    decreases |cuts| - i
  {
    if i < |cuts| - 1 {
      CutBelow(cuts, i + 1);
    }
  }

  lemma SortedLonger(key: seq<int>, out: seq<nat>, out': seq<nat>, i: nat, j: nat)
    requires SortedRange(key, out, i, j) && out <= out' && j <= |out|
    ensures SortedRange(key, out', i, j)
  {
    hide Less;
  }

  lemma RanksLonger(ord: seq<nat>, start: nat, e: nat, out: seq<nat>, out': seq<nat>, i: nat)
    requires RanksApart(ord, start) && RanksApart(out, i) && i <= |out| == start <= e <= |ord| && out <= out'
    requires multiset(out) == multiset(ord[..start]) && multiset(out'[start..]) == multiset(ord[start..e])
    ensures RanksApart(out', i)
  {
    forall x, y | 0 <= x < i <= y < |out'|
      ensures out'[x] < out'[y]
    {
      if y < start {
        assert out[x] < out[y];
      } else {
        assert out[x] in multiset(out) && out'[start..][y - start] in multiset(out'[start..]);
        assert out[x] in ord[..start] && out'[y] in ord[start..e];
      }
    }
  }

  lemma RunsInNext(ord: seq<nat>, cuts: seq<nat>, t: nat, out: seq<nat>, cuts': seq<nat>, e: nat, t': nat,
      out': seq<nat>, D: set<nat>, D': set<nat>)
    requires t <= t' < |cuts| && RunsIn(ord, cuts, t, D) && RunsIn(out, cuts', 0, D) && D <= D' && out <= out'
    requires |cuts'| >= 1 && cuts'[|cuts'| - 1] == cuts[t] == |out| && e == |out'| && cuts[t] <= e <= |ord|
    requires forall i :: 0 <= i < |cuts'| - 1 ==> cuts'[i] < cuts'[i + 1]
    requires multiset(out'[cuts[t]..]) == multiset(ord[cuts[t]..e])
    requires e >= cuts[t] + 2 ==> RangeIn(ord, cuts[t], e, D')
    ensures RunsIn(ord, cuts, t', D') && RunsIn(out', cuts' + [e], 0, D')
  {
    hide RangeIn;
    var next := cuts' + [e];
    forall u | 0 <= u < |next| - 1 && next[u + 1] >= next[u] + 2
      ensures RangeIn(out', next[u], next[u + 1], D')
    {
      if u < |cuts'| - 1 {
        assert RangeIn(out, cuts'[u], cuts'[u + 1], D);
        CutBelow(cuts', u + 1);
        RangeWider(out, out', cuts'[u], cuts'[u + 1], D, D');
      } else {
        RangeMoved(ord, cuts[t], e, out', D');
      }
    }
    forall u | t' <= u < |cuts| - 1 && cuts[u + 1] >= cuts[u] + 2
      ensures RangeIn(ord, cuts[u], cuts[u + 1], D')
    {
      assert RangeIn(ord, cuts[u], cuts[u + 1], D);
      RangeWider(ord, ord, cuts[u], cuts[u + 1], D, D');
    }
  }

  lemma RangeWider(out: seq<nat>, out': seq<nat>, i: nat, j: nat, D: set<nat>, D': set<nat>)
    requires RangeIn(out, i, j, D) && D <= D' && out <= out' && (j <= |out| || out == out')
    ensures RangeIn(out', i, j, D')
  {
  }

  lemma RangeMoved(ord: seq<nat>, start: nat, e: nat, out': seq<nat>, D: set<nat>)
    requires start <= e <= |ord| && |out'| == e && multiset(out'[start..]) == multiset(ord[start..e])
    requires RangeIn(ord, start, e, D)
    ensures RangeIn(out', start, e, D)
  {
    forall k | start <= k < e
      ensures out'[k] in D
    {
      assert out'[start..][k - start] in multiset(out'[start..]);
      assert out'[k] in ord[start..e];
    }
  }

  /** Everything a pass keeps. */
  ghost predicate Passing(L0: seq<ListHead>, d0: seq<bv16>, d1: seq<bv16>, key: seq<int>, ord: seq<nat>, cuts: seq<nat>,
      t: nat, out: seq<nat>, cuts': seq<nat>, w: nat, D: set<nat>, list: ListHead?, tail: ListHead?, p: ListHead?)
    reads L0
  {
    && PassTo(key, ord, cuts, t, out, cuts', w) && Permutes(ord, |L0|)
    && Linked(L0, ord, out, cuts[t], cuts[t], cuts[t], list, tail) && p == At(L0, ord, cuts[t])
    && Kept(L0, d0, d1) && DoneSet(L0, d1, D) && RunsIn(ord, cuts, t, D) && RunsIn(out, cuts', 0, D)
  }

  /** Merge the runs of the list in pairs. */
  method Pass(list0: ListHead?, insize: nat, cmp: Cmp, ghost L0: seq<ListHead>, ghost d0: seq<bv16>,
      ghost d1: seq<bv16>, ghost key: seq<int>, ghost ord: seq<nat>, ghost cuts: seq<nat>, ghost D: set<nat>)
      returns (list: ListHead?, nmerges: nat, ghost ord': seq<nat>, ghost cuts': seq<nat>, ghost D': set<nat>)
    requires insize > 0 && List(L0, ord, list0) && Kept(L0, d0, d1)
    requires Cuts(cuts, |ord|, insize) && Runs(key, ord, cuts) && |key| == |L0| && Consistent(L0, cmp, d0, d1, key)
    requires DoneSet(L0, d1, D) && RunsIn(ord, cuts, 0, D)
    modifies (set x | x in L0)`next, (set x | x in L0)`data
    ensures List(L0, ord', list) && Kept(L0, d0, d1)
    ensures Cuts(cuts', |ord'|, 2 * insize) && Runs(key, ord', cuts')
    ensures DoneSet(L0, d1, D') && RunsIn(ord', cuts', 0, D')
    ensures nmerges == |cuts'| - 1 && |cuts| <= 2 * nmerges + 1 && 2 * nmerges <= |cuts|
  {
    hide PassTo, Runs, Cuts, RunsIn, DoneSet, Kept, Consistent, Linked, Permutes, Nodes, Built, Chain, Merging;
    var p: ListHead? := list0;
    var list', tail: ListHead? := null, null;
    nmerges := 0;
    ord', cuts', D' := [], [0], D;
    ghost var t := 0;
    PassBegins(L0, d0, d1, key, ord, cuts, insize, D, list0);
    while p != null
      invariant nmerges == |cuts'| - 1 && t < |cuts| && Consistent(L0, cmp, d0, d1, key)
      invariant Passing(L0, d0, d1, key, ord, cuts, t, ord', cuts', insize, D', list', tail, p)
      decreases |cuts| - t
    {
      nmerges := nmerges + 1;
      ghost var start := cuts[t];
      PassReady(L0, d0, d1, key, ord, cuts, t, ord', cuts', insize, D', list', tail, p);
      var q, psize := StepAlong(p, insize, L0, ord, start);
      ghost var b := start + psize;
      ghost var e, t' := NextRuns(key, ord, cuts, t, insize, psize);
      MergeBegins(L0, d0, d1, key, ord, cuts, t, ord', cuts', insize, D', list', tail, p, b, e, t');
      ghost var out;
      list', tail, p, out := MergeRuns(p, psize, q, insize, cmp, list', tail, L0, d0, d1, key, ord, ord', start, b, e,
          D');
      MergeEnds(L0, d0, d1, key, ord, cuts, t, ord', cuts', insize, D', list', tail, b, e, t', out);
      D' := Moved(ord, start, e, D');
      ord', cuts', t := out, cuts' + [e], t';
    }
    PassEnds(L0, d0, d1, key, ord, cuts, t, ord', cuts', insize, D', list', tail);
    EndList(list', tail, L0, ord');
    list := list';
  }

  /** Make the last node of the list its end. */
  method EndList(list: ListHead?, tail: ListHead?, ghost L0: seq<ListHead>, ghost out: seq<nat>)
    requires Nodes(L0) && Permutes(out, |L0|) && InList(L0, out) && out != [] && Built(L0, out, list, tail)
    modifies (set x | x in L0)`next
    ensures Chain(L0, out, 0, |out|) && list == At(L0, out, 0)
  {
    ghost var last := |out| - 1;
    assert tail == L0[out[last]];
    tail.next := null;
    forall k: nat | k < |out|
      ensures LinkedAt(L0, out, k)
    {
      if k < last {
        assert old(LinkedAt(L0, out, k));
        assert out[k] != out[last];
      }
    }
  }

  lemma PassBegins(L0: seq<ListHead>, d0: seq<bv16>, d1: seq<bv16>, key: seq<int>, ord: seq<nat>, cuts: seq<nat>,
      w: nat, D: set<nat>, list: ListHead?)
    requires List(L0, ord, list) && Kept(L0, d0, d1) && Cuts(cuts, |ord|, w)
    requires DoneSet(L0, d1, D) && RunsIn(ord, cuts, 0, D)
    ensures |cuts| > 0 && Passing(L0, d0, d1, key, ord, cuts, 0, [], [0], w, D, null, null, list)
  {
    hide Permutes, Kept, DoneSet;
    PassStart(key, ord, cuts, w);
  }

  lemma PassReady(L0: seq<ListHead>, d0: seq<bv16>, d1: seq<bv16>, key: seq<int>, ord: seq<nat>, cuts: seq<nat>, t: nat,
      out: seq<nat>, cuts': seq<nat>, w: nat, D: set<nat>, list: ListHead?, tail: ListHead?, p: ListHead?)
    requires t < |cuts| && Passing(L0, d0, d1, key, ord, cuts, t, out, cuts', w, D, list, tail, p) && p != null
    requires Cuts(cuts, |ord|, w)
    ensures InList(L0, ord) && cuts[t] < |ord| && t < |cuts| - 1 && Chain(L0, ord, cuts[t], |ord|)
    ensures p == At(L0, ord, cuts[t])
    ensures Permutes(ord, |L0|)
  {
    hide Permutes, Kept, DoneSet, RunsIn, Built, Chain, Nodes;
  }

  /** The first nodes of the next two runs are ready to be merged. */
  lemma MergeBegins(L0: seq<ListHead>, d0: seq<bv16>, d1: seq<bv16>, key: seq<int>, ord: seq<nat>, cuts: seq<nat>,
      t: nat, out: seq<nat>, cuts': seq<nat>, w: nat, D: set<nat>, list: ListHead?, tail: ListHead?, p: ListHead?,
      b: nat, e: nat, t': nat)
    requires t < |cuts| - 1 && Passing(L0, d0, d1, key, ord, cuts, t, out, cuts', w, D, list, tail, p)
    requires b == cuts[t + 1] && RunsAt(key, ord, cuts[t], b, e, w)
    requires t' == (if t + 2 < |cuts| then t + 2 else t + 1) && t' < |cuts| && e == cuts[t']
    ensures Merging(L0, d0, d1, key, ord, out, cuts[t], cuts[t], b, b, e, list, tail)
  {
    hide Permutes, Kept, SortedRange, RanksApart, Merged, Runs;
    MergedStart(key, ord, out, cuts[t], b, e);
    LinkedRuns(L0, ord, out, cuts[t], b, list, tail);
    RunDone(L0, d1, ord, cuts, t, t, D);
    if t + 2 < |cuts| {
      RunDone(L0, d1, ord, cuts, t, t + 1, D);
    }
  }

  lemma LinkedRuns(L0: seq<ListHead>, ord: seq<nat>, out: seq<nat>, start: nat, b: nat, list: ListHead?,
      tail: ListHead?)
    requires Linked(L0, ord, out, start, start, start, list, tail) && start <= b <= |ord|
    ensures Linked(L0, ord, out, start, b, b, list, tail)
  {
    hide LinkedAt, Built, Nodes;
  }

  lemma RunDone(L0: seq<ListHead>, d1: seq<bv16>, ord: seq<nat>, cuts: seq<nat>, t: nat, u: nat, D: set<nat>)
    requires InList(L0, ord) && DoneSet(L0, d1, D) && RunsIn(ord, cuts, t, D) && t <= u < |cuts| - 1
    ensures cuts[u + 1] >= cuts[u] + 2 ==> Done(L0, d1, ord, cuts[u], cuts[u + 1])
  {
    if cuts[u + 1] >= cuts[u] + 2 {
      assert RangeIn(ord, cuts[u], cuts[u + 1], D);
    }
  }

  ghost function Moved(ord: seq<nat>, start: nat, e: nat, D: set<nat>): (r: set<nat>)
    requires start <= e <= |ord|
  {
    if e >= start + 2 then D + set k | start <= k < e :: ord[k] else D
  }

  /** The merged runs extend the list. */
  lemma MergeEnds(L0: seq<ListHead>, d0: seq<bv16>, d1: seq<bv16>, key: seq<int>, ord: seq<nat>, cuts: seq<nat>, t: nat,
      out: seq<nat>, cuts': seq<nat>, w: nat, D: set<nat>, list: ListHead?, tail: ListHead?, b: nat, e: nat, t': nat,
      out': seq<nat>)
    requires t < |cuts| - 1 && PassTo(key, ord, cuts, t, out, cuts', w) && Permutes(ord, |L0|) && w > 0
    requires Cuts(cuts, |ord|, w) && Runs(key, ord, cuts) && cuts[t] < b
    requires t' == (if t + 2 < |cuts| then t + 2 else t + 1) && t' < |cuts| && e == cuts[t'] <= |ord|
    requires Merging(L0, d0, d1, key, ord, out', cuts[t], b, b, e, e, list, tail) && out <= out'
    requires DoneSet(L0, d1, D) && RunsIn(ord, cuts, t, D) && RunsIn(out, cuts', 0, D)
    ensures cuts[t] <= e
    ensures Passing(L0, d0, d1, key, ord, cuts, t', out', cuts' + [e], w, Moved(ord, cuts[t], e, D), list, tail,
        At(L0, ord, e))
  {
    hide PassTo, Permutes, Kept, Merged, Runs, Cuts, RunsIn, DoneSet, Built, Nodes;
    MergedAll(key, ord, out', cuts[t], b, e);
    MergedBounds(key, ord, out', cuts[t], b, b, e, e);
    PassNext(key, ord, cuts, t, out, cuts', w, b, e, t', out');
    MovedDone(L0, d0, d1, ord, cuts[t], b, e, D);
    PassCuts(key, ord, cuts, t, out, cuts', w);
    RunsInNext(ord, cuts, t, out, cuts', e, t', out', D, Moved(ord, cuts[t], e, D));
  }

  lemma PassCuts(key: seq<int>, ord: seq<nat>, cuts: seq<nat>, t: nat, out: seq<nat>, cuts': seq<nat>, w: nat)
    requires PassTo(key, ord, cuts, t, out, cuts', w)
    ensures |cuts'| >= 1 && t < |cuts| && cuts'[|cuts'| - 1] == cuts[t] == |out|
    ensures forall i :: 0 <= i < |cuts'| - 1 ==> cuts'[i] < cuts'[i + 1]
  {
    hide Runs;
    forall i | 0 <= i < |cuts'| - 1
      ensures cuts'[i] < cuts'[i + 1]
    {
      assert CutAt(cuts', i, 2 * w);
    }
  }

  lemma MovedDone(L0: seq<ListHead>, d0: seq<bv16>, d1: seq<bv16>, ord: seq<nat>, start: nat, b: nat, e: nat,
      D: set<nat>)
    requires start < b <= e <= |ord| && Compared(L0, d0, d1, ord, start, b, e, true) && DoneSet(L0, d1, D)
    ensures DoneSet(L0, d1, Moved(ord, start, e, D)) && D <= Moved(ord, start, e, D)
    ensures e >= start + 2 ==> RangeIn(ord, start, e, Moved(ord, start, e, D))
  {
    hide Kept;
  }

  /** Behind the last run the new order is complete. */
  lemma PassEnds(L0: seq<ListHead>, d0: seq<bv16>, d1: seq<bv16>, key: seq<int>, ord: seq<nat>, cuts: seq<nat>, t: nat,
      out: seq<nat>, cuts': seq<nat>, w: nat, D: set<nat>, list: ListHead?, tail: ListHead?)
    requires t < |cuts| && Passing(L0, d0, d1, key, ord, cuts, t, out, cuts', w, D, list, tail, null)
    requires Cuts(cuts, |ord|, w)
    ensures Nodes(L0) && InList(L0, out) && Built(L0, out, list, tail) && out != [] && |out| == |ord|
    ensures Permutes(out, |L0|)
    ensures Cuts(cuts', |out|, 2 * w) && Runs(key, out, cuts') && |cuts| <= 2 * (|cuts'| - 1) + 1
    ensures 2 * (|cuts'| - 1) <= |cuts|
  {
    hide Kept, DoneSet, RunsIn, Runs, Built, Nodes, Chain, CutAt;
    CutsUpTo(cuts, |ord|, w, t);
    assert ord[..|ord|] == ord;
    RepeatFree(ord, out, |L0|);
    assert |cuts| >= 2 && cuts[|cuts| - 1] == |ord|;
    NotEmpty(cuts, |ord|, w);
  }

  lemma NotEmpty(cuts: seq<nat>, n: nat, w: nat)
    requires Cuts(cuts, n, w)
    ensures n > 0
  {
    assert CutAt(cuts, 0, w);
    CutsUpTo(cuts, n, w, 1);
  }

  // ---- the sort

  /** leq ranks any two of the n nodes. */
  ghost predicate TotalPreorder(leq: (nat, nat) -> bool, n: nat) {
    && (forall x, y :: 0 <= x < n && 0 <= y < n ==> leq(x, y) || leq(y, x))
    && (forall x, y, z :: 0 <= x < n && 0 <= y < n && 0 <= z < n && leq(x, y) && leq(y, z) ==> leq(x, z))
  }

  /** The node x belongs before y: as ranked, and nodes of one rank as they were. */
  ghost predicate Before(leq: (nat, nat) -> bool, x: nat, y: nat) {
    leq(x, y) && (leq(y, x) ==> x < y)
  }

  ghost predicate OrderedBy(leq: (nat, nat) -> bool, ord: seq<nat>) {
    forall i, j :: 0 <= i < j < |ord| ==> Before(leq, ord[i], ord[j])
  }

  /** The comparison answers as leq ranks the nodes, before and after it has been
      applied to them, and leaves them with the data d1. */
  ghost predicate RanksBy(L0: seq<ListHead>, cmp: Cmp, d1: seq<bv16>, leq: (nat, nat) -> bool)
    reads (set x | x in L0)`idx, (set x | x in L0)`data
  {
    && |d1| == |L0| && TotalPreorder(leq, |L0|)
    && forall x, y :: 0 <= x < |L0| && 0 <= y < |L0| && x != y ==>
         Answers(cmp, L0[x].idx, L0[x].data, d1[x], L0[y].idx, L0[y].data, d1[y], leq(x, y))
  }

  /** How many nodes rank no higher. */
  ghost function Rank(leq: (nat, nat) -> bool, n: nat, x: nat): nat {
    |NoHigher(leq, n, x)|
  }

  ghost function NoHigher(leq: (nat, nat) -> bool, n: nat, x: nat): (r: set<nat>)
    ensures forall y: nat :: y in r <==> y < n && leq(y, x)
  {
    set y: nat | y < n && leq(y, x)
  }

  lemma RankAgrees(leq: (nat, nat) -> bool, n: nat, x: nat, y: nat)
    requires TotalPreorder(leq, n) && x < n && y < n
    ensures Rank(leq, n, x) <= Rank(leq, n, y) <==> leq(x, y)
  {
    if leq(x, y) {
      SubsetCard(NoHigher(leq, n, x), NoHigher(leq, n, y));
    } else {
      assert x in NoHigher(leq, n, x) && x !in NoHigher(leq, n, y);
      SubsetCard(NoHigher(leq, n, y), NoHigher(leq, n, x));
    }
  }

  ghost function Ranks(leq: (nat, nat) -> bool, n: nat): (key: seq<int>)
    ensures |key| == n && forall x :: 0 <= x < n ==> key[x] == Rank(leq, n, x)
  {
    seq(n, x requires 0 <= x < n => Rank(leq, n, x))
  }

  lemma RankedConsistent(L0: seq<ListHead>, cmp: Cmp, d0: seq<bv16>, d1: seq<bv16>, leq: (nat, nat) -> bool)
    requires RanksBy(L0, cmp, d1, leq) && |d0| == |L0| && forall r :: 0 <= r < |L0| ==> d0[r] == L0[r].data
    ensures Consistent(L0, cmp, d0, d1, Ranks(leq, |L0|))
  {
    hide Answers, TotalPreorder, Rank;
    var key := Ranks(leq, |L0|);
    forall x, y | 0 <= x < |L0| && 0 <= y < |L0| && x != y
      ensures PairAnswers(L0, cmp, d0, d1, x, y, key[x] <= key[y])
    {
      RankAgrees(leq, |L0|, x, y);
    }
  }

  lemma RankedOrder(leq: (nat, nat) -> bool, n: nat, ord: seq<nat>)
    requires TotalPreorder(leq, n) && SortedRange(Ranks(leq, n), ord, 0, n) && |ord| == n
    ensures OrderedBy(leq, ord)
  {
    hide Rank, TotalPreorder;
    forall i, j | 0 <= i < j < |ord|
      ensures Before(leq, ord[i], ord[j])
    {
      assert Less(Ranks(leq, n), ord[i], ord[j]);
      RankAgrees(leq, n, ord[i], ord[j]);
      RankAgrees(leq, n, ord[j], ord[i]);
    }
  }

  ghost function Datas(L0: seq<ListHead>): (d: seq<bv16>)
    reads (set x | x in L0)`data
    ensures |d| == |L0| && forall r :: 0 <= r < |L0| ==> d[r] == L0[r].data
  {
    if L0 == [] then [] else Datas(L0[..|L0| - 1]) + [L0[|L0| - 1].data]
  }

  /** Sort the list by merging runs of doubling length, with any comparison that
      ranks the nodes: the same nodes, stably ordered by rank, and all of them as
      comparing leaves them. */
  method CoreListMergesort(list0: ListHead, cmp: Cmp, ghost L0: seq<ListHead>, ghost d1: seq<bv16>,
      ghost leq: (nat, nat) -> bool) returns (list: ListHead?, ghost ord: seq<nat>)
    requires Nodes(L0) && L0 != [] && list0 == L0[0] && Chain(L0, Identity(|L0|), 0, |L0|)
    requires RanksBy(L0, cmp, d1, leq)
    modifies (set x | x in L0)`next, (set x | x in L0)`data
    ensures Permutes(ord, |L0|) && InList(L0, ord) && Chain(L0, ord, 0, |L0|) && list == L0[ord[0]]
    ensures OrderedBy(leq, ord)
    ensures forall r :: 0 <= r < |L0| ==> L0[r].data == if |L0| > 1 then d1[r] else old(L0[r].data)
  {
    hide Runs, Cuts, RunsIn, DoneSet, Kept, Consistent, Permutes, Nodes, Chain, SortedRange, RangeIn, OrderedBy,
      Answers, TotalPreorder;
    ghost var n := |L0|;
    ghost var key := Ranks(leq, n);
    ghost var d0 := Datas(L0);
    ghost var cuts, D: set<nat> := Identity(n + 1), {};
    ord := Identity(n);
    list := list0;
    var insize := 1;
    RankedConsistent(L0, cmp, d0, d1, leq);
    SortStart(L0, d0, d1, key, list0);
    while true
      invariant insize > 0 && |ord| == n && List(L0, ord, list) && Kept(L0, d0, d1) && Consistent(L0, cmp, d0, d1, key)
      invariant Cuts(cuts, n, insize) && Runs(key, ord, cuts)
      invariant DoneSet(L0, d1, D) && RunsIn(ord, cuts, 0, D)
      decreases |cuts|
    {
      var nmerges;
      ghost var before := |cuts|;
      list, nmerges, ord, cuts, D := Pass(list, insize, cmp, L0, d0, d1, key, ord, cuts, D);
      ListSize(L0, ord, list);
      if nmerges <= 1 {
        SortEnd(L0, d0, d1, key, ord, cuts, 2 * insize, D);
        RankedOrder(leq, n, ord);
        return;
      }
      insize := insize * 2;
    }
  }

  lemma SortStart(L0: seq<ListHead>, d0: seq<bv16>, d1: seq<bv16>, key: seq<int>, list: ListHead)
    requires Nodes(L0) && L0 != [] && list == L0[0] && Chain(L0, Identity(|L0|), 0, |L0|) && |key| == |L0|
    requires |d0| == |d1| == |L0| && forall r :: 0 <= r < |L0| ==> L0[r].data == d0[r]
    ensures List(L0, Identity(|L0|), list) && Kept(L0, d0, d1) && DoneSet(L0, d1, {})
    ensures Cuts(Identity(|L0| + 1), |L0|, 1) && Runs(key, Identity(|L0|), Identity(|L0| + 1))
    ensures RunsIn(Identity(|L0|), Identity(|L0| + 1), 0, {})
  {
  }

  lemma ListSize(L0: seq<ListHead>, ord: seq<nat>, list: ListHead?)
    requires List(L0, ord, list)
    ensures |ord| == |L0| && Permutes(ord, |L0|) && InList(L0, ord) && Chain(L0, ord, 0, |L0|) && list == At(L0, ord, 0)
  {
  }

  /** One run is left: everything is sorted. */
  lemma SortEnd(L0: seq<ListHead>, d0: seq<bv16>, d1: seq<bv16>, key: seq<int>, ord: seq<nat>, cuts: seq<nat>, w: nat,
      D: set<nat>)
    requires |ord| == |L0| && Permutes(ord, |L0|) && Cuts(cuts, |L0|, w) && |cuts| <= 2 && Runs(key, ord, cuts)
    requires Kept(L0, d0, d1)
    requires DoneSet(L0, d1, D) && RunsIn(ord, cuts, 0, D)
    ensures SortedRange(key, ord, 0, |L0|)
    ensures forall r :: 0 <= r < |L0| ==> L0[r].data == if |L0| > 1 then d1[r] else d0[r]
  {
    hide SortedRange;
    assert SortedRange(key, ord, cuts[0], cuts[1]);
    forall r | 0 <= r < |L0| && |L0| > 1
      ensures L0[r].data == d1[r]
    {
      assert RangeIn(ord, cuts[0], cuts[1], D);
      assert Identity(|L0|)[r] in multiset(Identity(|L0|));
      assert r in ord;
    }
  }

  // ---- the sort by index

  ghost function Indexes(L0: seq<ListHead>): (idx: seq<int>)
    reads (set x | x in L0)`idx
    ensures |idx| == |L0| && forall r :: 0 <= r < |L0| ==> idx[r] == L0[r].idx
  {
    if L0 == [] then [] else Indexes(L0[..|L0| - 1]) + [L0[|L0| - 1].idx]
  }

  ghost function ByIndex(idx: seq<int>): (nat, nat) -> bool {
    (x: nat, y: nat) => x < |idx| && y < |idx| && idx[x] <= idx[y]
  }

  ghost function Finals(regen: bool, d: seq<bv16>): (r: seq<bv16>)
    ensures |r| == |d| && forall i :: 0 <= i < |d| ==> r[i] == Final(regen, d[i])
  {
    seq(|d|, i requires 0 <= i < |d| => Final(regen, d[i]))
  }

  /** Comparing by index ranks the nodes by index. */
  lemma IndexRanks(L0: seq<ListHead>, regen: bool)
    ensures RanksBy(L0, CmpIdx(regen), Finals(regen, Datas(L0)), ByIndex(Indexes(L0)))
  {
    hide Answers, Final, CmpIdx;
    forall x, y | 0 <= x < |L0| && 0 <= y < |L0| && x != y
      ensures Answers(CmpIdx(regen), L0[x].idx, L0[x].data, Final(regen, L0[x].data),
                L0[y].idx, L0[y].data, Final(regen, L0[y].data), L0[x].idx <= L0[y].idx)
    {
      CmpIdxAnswers(regen, L0[x].idx, L0[x].data, L0[y].idx, L0[y].data);
    }
  }

  /** The sort by index: stable, and with two nodes or more all data is regenerated on
      request. */
  method SortByIndex(list0: ListHead, regen: bool, ghost L0: seq<ListHead>)
      returns (list: ListHead?, ghost ord: seq<nat>)
    requires Nodes(L0) && L0 != [] && list0 == L0[0] && Chain(L0, Identity(|L0|), 0, |L0|)
    modifies (set x | x in L0)`next, (set x | x in L0)`data
    ensures Permutes(ord, |L0|) && InList(L0, ord) && Chain(L0, ord, 0, |L0|) && list == L0[ord[0]]
    ensures OrderedBy(ByIndex(Indexes(L0)), ord)
    ensures forall r :: 0 <= r < |L0| ==>
      L0[r].data as int == DataLeft(regen && |L0| > 1, old(L0[r].data))
  {
    hide Permutes, Nodes, Chain, RanksBy, OrderedBy, Final;
    IndexRanks(L0, regen);
    ghost var idx := Indexes(L0);
    list, ord := CoreListMergesort(list0, CmpIdx(regen), L0, Finals(regen, Datas(L0)), ByIndex(idx));
    assert Indexes(L0) == idx;
  }

  /** The stable order is unique. */
  lemma StableUnique(leq: (nat, nat) -> bool, n: nat, x: seq<nat>, y: seq<nat>)
    requires Permutes(x, n) && Permutes(y, n) && OrderedBy(leq, x) && OrderedBy(leq, y)
    ensures x == y
  {
    StablePrefix(leq, n, x, y, n);
  }

  lemma {:induction false} StablePrefix(leq: (nat, nat) -> bool, n: nat, x: seq<nat>, y: seq<nat>, k: nat)
    requires Permutes(x, n) && Permutes(y, n) && OrderedBy(leq, x) && OrderedBy(leq, y) && k <= n
    ensures x[..k] == y[..k]
  {
    hide Before;
    if k > 0 {
      StablePrefix(leq, n, x, y, k - 1);
      var i := FoundLater(x, y, n, k - 1);
      var j := FoundLater(y, x, n, k - 1);
      BeforeAt(leq, y, k - 1, i);
      BeforeAt(leq, x, k - 1, j);
      NotBoth(leq, x[k - 1], y[k - 1]);
      assert x[..k] == x[..k - 1] + [x[k - 1]];
      assert y[..k] == y[..k - 1] + [y[k - 1]];
    }
  }

  lemma NotBoth(leq: (nat, nat) -> bool, x: nat, y: nat)
    ensures !(Before(leq, x, y) && Before(leq, y, x))
  {
  }

  lemma BeforeAt(leq: (nat, nat) -> bool, ord: seq<nat>, i: nat, j: nat)
    requires OrderedBy(leq, ord) && i <= j < |ord|
    ensures i < j ==> Before(leq, ord[i], ord[j])
  {
  }

  lemma FoundLater(x: seq<nat>, y: seq<nat>, n: nat, k: nat) returns (i: nat)
    requires Permutes(x, n) && Permutes(y, n) && k < n && x[..k] == y[..k]
    ensures k <= i < n && y[i] == x[k]
  {
    forall t | 0 <= t < k
      ensures y[t] == x[t]
    {
      assert x[..k][t] == y[..k][t];
    }
    assert x[k] in multiset(x);
    assert x[k] in y;
    i :| 0 <= i < n && y[i] == x[k];
  }
}
