/** Doubly linked lists sorted by a value, as the sparse matrix uses them for its
    rows, its columns and the elements of both.

  A pointer is the number of an object, and the link fields of the objects on a
  list are kept in a table.
 */
module SortedList {

  datatype Ptr = Null | At(id: nat)

  /** The fields of an object that one list uses. */
  datatype Link = Link(value: nat, next: Ptr, prev: Ptr)

  /** The fields of the header, and the links of the objects on the list. */
  datatype List = List(first: Ptr, last: Ptr, count: nat, links: map<nat, Link>)

  const EMPTY := List(Null, Null, 0, map[])

  // ---- what a well formed list is

  function PtrAt(order: seq<nat>, i: int): Ptr {
    if 0 <= i < |order| then At(order[i]) else Null
  }

  /** The links hold the objects of order, each of them once. */
  ghost predicate Holds(l: List, order: seq<nat>) {
    && (forall id :: id in l.links <==> id in order)
    && (forall i, j :: 0 <= i < j < |order| ==> order[i] != order[j])
  }

  /** The i-th object points to its neighbours. */
  ghost predicate Node(l: List, order: seq<nat>, i: int) {
    && 0 <= i < |order| && order[i] in l.links
    && l.links[order[i]].next == PtrAt(order, i + 1)
    && l.links[order[i]].prev == PtrAt(order, i - 1)
  }

  ghost predicate Nodes(l: List, order: seq<nat>) {
    forall i :: 0 <= i < |order| ==> Node(l, order, i)
  }

  /** The value of the i-th object. */
  ghost function Val(l: List, order: seq<nat>, i: int): nat {
    if 0 <= i < |order| && order[i] in l.links then l.links[order[i]].value else 0
  }

  ghost predicate Ascending(l: List, order: seq<nat>) {
    forall i, j :: 0 <= i < j < |order| ==> Val(l, order, i) < Val(l, order, j)
  }

  /** The list runs through order, forwards and backwards, by increasing value. */
  ghost predicate Chain(l: List, order: seq<nat>) {
    && Holds(l, order) && Nodes(l, order) && Ascending(l, order)
    && l.count == |order| && l.first == PtrAt(order, 0) && l.last == PtrAt(order, |order| - 1)
  }

  ghost predicate Valid(l: List) {
    exists order :: Chain(l, order)
  }

  /** An object of the list has the value. */
  ghost predicate HasValue(l: List, value: nat) {
    exists id :: id in l.links && l.links[id].value == value
  }

  lemma EmptyValid()
    ensures Valid(EMPTY)
  {
    assert Chain(EMPTY, []);
  }

  lemma PositionOf(l: List, order: seq<nat>, id: nat) returns (i: nat)
    requires Chain(l, order) && id in l.links
    ensures i < |order| && order[i] == id && Val(l, order, i) == l.links[id].value
  {
    hide Nodes, Ascending;
    i :| 0 <= i < |order| && order[i] == id;
  }

  /** Different objects have different values. */
  lemma ValuesDiffer(l: List, a: nat, b: nat)
    requires Valid(l) && a in l.links && b in l.links && l.links[a].value == l.links[b].value
    ensures a == b
  {
    hide Chain;
    var order :| Chain(l, order);
    var i := PositionOf(l, order, a);
    var j := PositionOf(l, order, b);
    SamePosition(l, order, i, j);
  }

  lemma SamePosition(l: List, order: seq<nat>, i: nat, j: nat)
    requires Chain(l, order) && i < |order| && j < |order| && Val(l, order, i) == Val(l, order, j)
    ensures i == j
  {
    hide Holds, Nodes, Val;
  }

  /** The count is the number of objects, and only an empty list has no first. */
  lemma CountIsSize(l: List)
    requires Valid(l)
    ensures l.count == |l.links.Keys|
    ensures l.first == Null <==> l.links == map[]
  {
    var order :| Chain(l, order);
    SetOfDistinct(order, l.links.Keys);
    if l.first == Null {
      assert order == [];
      assert l.links == map[];
    }
  }

  lemma {:induction false} SetOfDistinct(order: seq<nat>, ids: set<nat>)
    requires forall i, j :: 0 <= i < j < |order| ==> order[i] != order[j]
    requires forall id :: id in ids <==> id in order
    ensures |ids| == |order|
  {
    if order == [] {
      assert ids == {};
    } else {
      var n := |order| - 1;
      var front := order[..n];
      assert order == front + [order[n]];
      forall id
        ensures id in ids - {order[n]} <==> id in front
      {
      }
      SetOfDistinct(front, ids - {order[n]});
      assert ids == (ids - {order[n]}) + {order[n]};
    }
  }

  // ---- insertion

  /** order with e put in at position k. */
  function InsertAt(order: seq<nat>, k: nat, e: nat): (r: seq<nat>)
    requires k <= |order|
    ensures |r| == |order| + 1 && r[k] == e
    ensures forall i :: 0 <= i < k ==> r[i] == order[i]
    ensures forall i :: k < i < |r| ==> r[i] == order[i - 1]
  {
    order[..k] + [e] + order[k..]
  }

  lemma InsertMembers(order: seq<nat>, k: nat, e: nat)
    requires k <= |order|
    ensures forall x :: x in InsertAt(order, k, e) <==> x in order || x == e
  {
    assert order == order[..k] + order[k..];
  }

  /** e stands between the objects at positions k - 1 and k; nothing else moves. */
  ghost predicate Linked(l: List, order: seq<nat>, k: nat, e: nat, value: nat, l': List)
    requires k <= |order|
  {
    && l'.links.Keys == l.links.Keys + {e}
    && l'.links[e] == Link(value, PtrAt(order, k), PtrAt(order, k - 1))
    && (forall id :: id in l.links ==> Relinked(order, k, e, id, l.links[id], l'.links[id]))
    && l'.first == (if k == 0 then At(e) else l.first)
    && l'.last == (if k == |order| then At(e) else l.last)
    && l'.count == l.count + 1
  }

  /** The neighbours of e now point to it. */
  ghost predicate Relinked(order: seq<nat>, k: nat, e: nat, id: nat, was: Link, now: Link) {
    && now.value == was.value
    && now.next == (if PtrAt(order, k - 1) == At(id) then At(e) else was.next)
    && now.prev == (if PtrAt(order, k) == At(id) then At(e) else was.prev)
  }

  lemma LinkedHolds(l: List, order: seq<nat>, k: nat, e: nat, value: nat, l': List)
    requires Holds(l, order) && k <= |order| && e !in l.links && Linked(l, order, k, e, value, l')
    ensures Holds(l', InsertAt(order, k, e))
  {
    hide InsertAt, PtrAt, Relinked;
    var r := InsertAt(order, k, e);
    InsertMembers(order, k, e);
    forall id
      ensures id in l'.links <==> id in r
    {
      assert id in l'.links <==> id in l'.links.Keys;
    }
    forall i, j | 0 <= i < j < |r|
      ensures r[i] != r[j]
    {
      if i == k {
        assert order[j - 1] in order;
      } else if j == k {
        assert order[i] in order;
      } else {
        assert order[if i < k then i else i - 1] != order[if j < k then j else j - 1];
      }
    }
  }

  lemma LinkedNode(l: List, order: seq<nat>, k: nat, e: nat, value: nat, l': List, i: nat)
    requires Holds(l, order) && Nodes(l, order) && k <= |order| && e !in l.links && Linked(l, order, k, e, value, l')
    requires i <= |order|
    ensures Node(l', InsertAt(order, k, e), i)
  {
    hide InsertAt, Holds;
    if i < k {
      assert Node(l, order, i);
      OldNode(l, order, k, e, value, l', i);
    } else if i > k {
      assert Node(l, order, i - 1);
      OldNode(l, order, k, e, value, l', i - 1);
    } else {
      assert e in l'.links.Keys;
    }
  }

  lemma OldNode(l: List, order: seq<nat>, k: nat, e: nat, value: nat, l': List, i: nat)
    requires Holds(l, order) && k <= |order| && e !in l.links && Linked(l, order, k, e, value, l') && i < |order|
    requires Node(l, order, i)
    ensures order[i] in l'.links
    ensures l'.links[order[i]].next == if i == k - 1 then At(e) else PtrAt(order, i + 1)
    ensures l'.links[order[i]].prev == if i == k then At(e) else PtrAt(order, i - 1)
  {
    assert Relinked(order, k, e, order[i], l.links[order[i]], l'.links[order[i]]);
  }

  lemma LinkedVal(l: List, order: seq<nat>, k: nat, e: nat, value: nat, l': List, i: nat)
    requires Holds(l, order) && k <= |order| && e !in l.links && Linked(l, order, k, e, value, l') && i <= |order|
    ensures Val(l', InsertAt(order, k, e), i) == if i < k then Val(l, order, i) else if i == k then value
        else Val(l, order, i - 1)
  {
    hide InsertAt, PtrAt;
    var j := if i < k then i else i - 1;
    if i != k {
      assert order[j] in order;
      assert Relinked(order, k, e, order[j], l.links[order[j]], l'.links[order[j]]);
      assert order[j] in l'.links.Keys;
    } else {
      assert e in l'.links.Keys;
    }
  }

  lemma LinkedAscending(l: List, order: seq<nat>, k: nat, e: nat, value: nat, l': List)
    requires Holds(l, order) && Ascending(l, order) && k <= |order| && e !in l.links
    requires Linked(l, order, k, e, value, l')
    requires forall i :: 0 <= i < k ==> Val(l, order, i) < value
    requires forall i :: k <= i < |order| ==> value < Val(l, order, i)
    ensures Ascending(l', InsertAt(order, k, e))
  {
    hide InsertAt, PtrAt, Val, Linked, Holds;
    forall i, j | 0 <= i < j <= |order|
      ensures Val(l', InsertAt(order, k, e), i) < Val(l', InsertAt(order, k, e), j)
    {
      LinkedVal(l, order, k, e, value, l', i);
      LinkedVal(l, order, k, e, value, l', j);
    }
  }

  lemma LinkedChain(l: List, order: seq<nat>, k: nat, e: nat, value: nat, l': List)
    requires Chain(l, order) && k <= |order| && e !in l.links && Linked(l, order, k, e, value, l')
    requires forall i :: 0 <= i < k ==> Val(l, order, i) < value
    requires forall i :: k <= i < |order| ==> value < Val(l, order, i)
    ensures Valid(l')
  {
    hide Holds, Nodes, Ascending, Node, Val, Relinked;
    var r := InsertAt(order, k, e);
    LinkedHolds(l, order, k, e, value, l');
    LinkedAscending(l, order, k, e, value, l');
    forall i | 0 <= i < |r|
      ensures Node(l', r, i)
    {
      LinkedNode(l, order, k, e, value, l', i);
    }
    AllNodes(l', r);
    assert Chain(l', r);
  }

  lemma AllNodes(l: List, order: seq<nat>)
    requires forall i :: 0 <= i < |order| ==> Node(l, order, i)
    ensures Nodes(l, order)
  {
    hide Node;
  }

  /** What inserting a value means: either an object with that value is there
      already, or the new object joins the list. */
  ghost predicate Inserted(l: List, value: nat, e: nat, l': List, used: nat) {
    if HasValue(l, value) then l' == l && used in l.links && l.links[used].value == value
    else
      && used == e && l'.links.Keys == l.links.Keys + {e} && l'.links[e].value == value
      && forall id :: id in l.links ==> l'.links[id].value == l.links[id].value
  }

  lemma Joins(l: List, order: seq<nat>, k: nat, e: nat, value: nat, l': List)
    requires Chain(l, order) && k <= |order| && e !in l.links && Linked(l, order, k, e, value, l')
    requires forall i :: 0 <= i < k ==> Val(l, order, i) < value
    requires forall i :: k <= i < |order| ==> value < Val(l, order, i)
    ensures Valid(l') && Inserted(l, value, e, l', e)
  {
    hide Chain, Val, PtrAt, Valid;
    LinkedChain(l, order, k, e, value, l');
    forall id | id in l.links
      ensures l.links[id].value != value
      ensures l'.links[id].value == l.links[id].value
    {
      var i := PositionOf(l, order, id);
      assert Relinked(order, k, e, id, l.links[id], l'.links[id]);
    }
  }

  lemma NodeAt(l: List, order: seq<nat>, i: nat)
    requires Chain(l, order) && i < |order|
    ensures order[i] in l.links && l.links[order[i]].value == Val(l, order, i)
    ensures l.links[order[i]].next == PtrAt(order, i + 1) && l.links[order[i]].prev == PtrAt(order, i - 1)
  {
    hide Holds, Ascending, PtrAt;
    assert Node(l, order, i);
  }

  lemma EndsOf(l: List, order: seq<nat>)
    requires Chain(l, order)
    ensures l.first == PtrAt(order, 0) && l.last == PtrAt(order, |order| - 1)
    ensures |order| == l.count && forall id :: id in l.links <==> id in order
  {
    hide Nodes, Ascending, PtrAt;
  }

  lemma AscendingAt(l: List, order: seq<nat>, i: nat, j: nat)
    requires Chain(l, order) && i < j < |order|
    ensures Val(l, order, i) < Val(l, order, j) && order[i] != order[j]
  {
    hide Nodes, Val, PtrAt;
  }

  /** Walk to the first object with a value not below the new one. */
  method SeekFrom(l: List, ghost order: seq<nat>, value: nat) returns (p: nat, ghost k: nat)
    requires Chain(l, order) && order != [] && Val(l, order, |order| - 1) >= value
    ensures k < |order| && p == order[k] && p in l.links && Val(l, order, k) >= value
    ensures forall i :: 0 <= i < k ==> Val(l, order, i) < value
  {
    hide Chain, Val;
    EndsOf(l, order);
    p, k := l.first.id, 0;
    NodeAt(l, order, 0);
    while l.links[p].value < value
      invariant 0 <= k < |order| && p == order[k] && p in l.links
      invariant l.links[p].value == Val(l, order, k) && l.links[p].next == PtrAt(order, k + 1)
      invariant forall i :: 0 <= i < k ==> Val(l, order, i) < value
      decreases |order| - k
    {
      p := l.links[p].next.id;
      k := k + 1;
      NodeAt(l, order, k);
    }
  }

  /** Insert an object in its place; an object that has the value already is
      returned instead. */
  method SortedInsert(l: List, newval: nat, e: nat) returns (l': List, used: nat)
    requires Valid(l) && e !in l.links
    ensures Valid(l') && Inserted(l, newval, e, l', used)
  {
    hide Linked, Inserted, Chain, Val;
    ghost var order :| Chain(l, order);
    EndsOf(l, order);
    if l.last == Null {
      l' := List(At(e), At(e), l.count + 1, l.links[e := Link(newval, Null, Null)]);
      used := e;
      LinkFirst(l, order, e, newval, l');
      Joins(l, order, 0, e, newval, l');
      return;
    }
    ghost var n := |order| - 1;
    NodeAt(l, order, n);
    NodeAt(l, order, 0);
    if l.links[l.last.id].value < newval {
      var last := l.last.id;
      var links := l.links[e := Link(newval, Null, l.last)];
      links := links[last := links[last].(next := At(e))];
      l' := List(l.first, At(e), l.count + 1, links);
      used := e;
      LinkLast(l, order, e, newval, l');
      AllBelow(l, order, newval);
      Joins(l, order, |order|, e, newval, l');
    } else if l.links[l.first.id].value > newval {
      var first := l.first.id;
      var links := l.links[e := Link(newval, l.first, Null)];
      links := links[first := links[first].(prev := At(e))];
      l' := List(At(e), l.last, l.count + 1, links);
      used := e;
      LinkFront(l, order, e, newval, l');
      AllAbove(l, order, 0, newval);
      Joins(l, order, 0, e, newval, l');
    } else {
      l', used := InsertMiddle(l, order, newval, e);
    }
  }

  lemma AllBelow(l: List, order: seq<nat>, value: nat)
    requires Chain(l, order) && order != [] && Val(l, order, |order| - 1) < value
    ensures forall i :: 0 <= i < |order| ==> Val(l, order, i) < value
  {
    hide Holds, Nodes, Val, PtrAt;
  }

  lemma AllAbove(l: List, order: seq<nat>, k: nat, value: nat)
    requires Chain(l, order) && k < |order| && value < Val(l, order, k)
    ensures forall i :: k <= i < |order| ==> value < Val(l, order, i)
  {
    hide Holds, Nodes, Val, PtrAt;
  }

  method InsertMiddle(l: List, ghost order: seq<nat>, newval: nat, e: nat) returns (l': List, used: nat)
    requires Chain(l, order) && order != [] && e !in l.links
    requires Val(l, order, 0) <= newval <= Val(l, order, |order| - 1)
    ensures Valid(l') && Inserted(l, newval, e, l', used)
  {
    hide Linked, Inserted, Chain, Val;
    var p, k := SeekFrom(l, order, newval);
    NodeAt(l, order, k);
    if l.links[p].value > newval {
      NodeAt(l, order, k - 1);
      AscendingAt(l, order, k - 1, k);
      var before := l.links[p].prev.id;
      var links := l.links[e := Link(newval, At(p), At(before))];
      links := links[p := links[p].(prev := At(e))];
      links := links[before := links[before].(next := At(e))];
      l' := List(l.first, l.last, l.count + 1, links);
      used := e;
      LinkMiddle(l, order, k, e, newval, l');
      AllAbove(l, order, k, newval);
      Joins(l, order, k, e, newval, l');
    } else {
      l', used := l, p;
      AlreadyThere(l, order, newval, e, p);
    }
  }

  lemma LinkFirst(l: List, order: seq<nat>, e: nat, value: nat, l': List)
    requires Chain(l, order) && e !in l.links && l.last == Null
    requires l' == List(At(e), At(e), l.count + 1, l.links[e := Link(value, Null, Null)])
    ensures order == [] && Linked(l, order, 0, e, value, l')
  {
    hide Chain;
    EndsOf(l, order);
  }

  lemma LinkLast(l: List, order: seq<nat>, e: nat, value: nat, l': List)
    requires Chain(l, order) && e !in l.links && order != [] && order[|order| - 1] in l.links
    requires var last := order[|order| - 1];
      l' == List(l.first, At(e), l.count + 1,
          l.links[e := Link(value, Null, At(last))][last := l.links[last].(next := At(e))])
    ensures Linked(l, order, |order|, e, value, l')
  {
    hide Chain;
    EndsOf(l, order);
  }

  lemma LinkFront(l: List, order: seq<nat>, e: nat, value: nat, l': List)
    requires Chain(l, order) && e !in l.links && order != [] && order[0] in l.links
    requires l' == List(At(e), l.last, l.count + 1,
        l.links[e := Link(value, At(order[0]), Null)][order[0] := l.links[order[0]].(prev := At(e))])
    ensures Linked(l, order, 0, e, value, l')
  {
    hide Chain;
    EndsOf(l, order);
  }

  lemma LinkMiddle(l: List, order: seq<nat>, k: nat, e: nat, value: nat, l': List)
    requires Chain(l, order) && e !in l.links && 0 < k < |order| && order[k] in l.links && order[k - 1] in l.links
    requires order[k] != order[k - 1]
    requires var p, before := order[k], order[k - 1];
      var links := l.links[e := Link(value, At(p), At(before))][p := l.links[p].(prev := At(e))];
      l' == List(l.first, l.last, l.count + 1, links[before := l.links[before].(next := At(e))])
    ensures Linked(l, order, k, e, value, l')
  {
    hide Chain;
    EndsOf(l, order);
  }

  lemma AlreadyThere(l: List, order: seq<nat>, value: nat, e: nat, p: nat)
    requires Chain(l, order) && p in l.links && l.links[p].value == value
    ensures Valid(l) && Inserted(l, value, e, l, p)
  {
    hide Chain;
  }

  // ---- deletion

  /** order without its k-th object. */
  function RemoveAt(order: seq<nat>, k: nat): (r: seq<nat>)
    requires k < |order|
    ensures |r| == |order| - 1
    ensures forall i :: 0 <= i < k ==> r[i] == order[i]
    ensures forall i :: k <= i < |r| ==> r[i] == order[i + 1]
  {
    order[..k] + order[k + 1..]
  }

  lemma RemoveMembers(order: seq<nat>, k: nat)
    requires k < |order| && forall i, j :: 0 <= i < j < |order| ==> order[i] != order[j]
    ensures forall x :: x in RemoveAt(order, k) <==> x in order && x != order[k]
  {
    var r := RemoveAt(order, k);
    assert order == order[..k] + [order[k]] + order[k + 1..];
    forall x | x in r
      ensures x in order && x != order[k]
    {
      var i :| 0 <= i < |r| && r[i] == x;
      assert x == order[if i < k then i else i + 1];
    }
  }

  /** The neighbours of the k-th object point past it; nothing else moves. */
  ghost predicate Unlinked(l: List, order: seq<nat>, k: nat, l': List)
    requires k < |order|
  {
    && l'.links.Keys == l.links.Keys - {order[k]}
    && (forall id :: id in l'.links ==> id in l.links && Bypassed(order, k, id, l.links[id], l'.links[id]))
    && l'.first == (if k == 0 then PtrAt(order, 1) else l.first)
    && l'.last == (if k == |order| - 1 then PtrAt(order, k - 1) else l.last)
    && l'.count == l.count - 1
  }

  ghost predicate Bypassed(order: seq<nat>, k: nat, id: nat, was: Link, now: Link) {
    && now.value == was.value
    && now.next == (if PtrAt(order, k - 1) == At(id) then PtrAt(order, k + 1) else was.next)
    && now.prev == (if PtrAt(order, k + 1) == At(id) then PtrAt(order, k - 1) else was.prev)
  }

  lemma UnlinkedHolds(l: List, order: seq<nat>, k: nat, l': List)
    requires Holds(l, order) && k < |order| && Unlinked(l, order, k, l')
    ensures Holds(l', RemoveAt(order, k))
  {
    hide RemoveAt, PtrAt, Bypassed;
    var r := RemoveAt(order, k);
    RemoveMembers(order, k);
    forall id
      ensures id in l'.links <==> id in r
    {
      assert id in l'.links <==> id in l'.links.Keys;
    }
    forall i, j | 0 <= i < j < |r|
      ensures r[i] != r[j]
    {
      assert order[if i < k then i else i + 1] != order[if j < k then j else j + 1];
    }
  }

  lemma UnlinkedNode(l: List, order: seq<nat>, k: nat, l': List, i: nat)
    requires Holds(l, order) && Nodes(l, order) && k < |order| && Unlinked(l, order, k, l')
    requires i < |order| - 1
    ensures Node(l', RemoveAt(order, k), i)
  {
    hide RemoveAt, Holds;
    var j := if i < k then i else i + 1;
    assert Node(l, order, j);
    StillLinked(l, order, k, l', j);
  }

  lemma StillLinked(l: List, order: seq<nat>, k: nat, l': List, j: nat)
    requires Holds(l, order) && k < |order| && Unlinked(l, order, k, l') && j < |order| && j != k && Node(l, order, j)
    ensures order[j] in l'.links && l'.links[order[j]].value == l.links[order[j]].value
    ensures l'.links[order[j]].next == if j == k - 1 then PtrAt(order, k + 1) else PtrAt(order, j + 1)
    ensures l'.links[order[j]].prev == if j == k + 1 then PtrAt(order, k - 1) else PtrAt(order, j - 1)
  {
    assert order[j] != order[k];
    assert order[j] in l'.links.Keys;
    assert Bypassed(order, k, order[j], l.links[order[j]], l'.links[order[j]]);
  }

  lemma UnlinkedVal(l: List, order: seq<nat>, k: nat, l': List, i: nat)
    requires Holds(l, order) && Nodes(l, order) && k < |order| && Unlinked(l, order, k, l') && i < |order| - 1
    ensures Val(l', RemoveAt(order, k), i) == Val(l, order, if i < k then i else i + 1)
  {
    hide RemoveAt, Holds;
    var j := if i < k then i else i + 1;
    assert Node(l, order, j);
    StillLinked(l, order, k, l', j);
  }

  lemma UnlinkedChain(l: List, order: seq<nat>, k: nat, l': List)
    requires Chain(l, order) && k < |order| && Unlinked(l, order, k, l')
    ensures Valid(l')
  {
    hide Holds, Nodes, Ascending, Node, Val, Bypassed, RemoveAt;
    var r := RemoveAt(order, k);
    UnlinkedHolds(l, order, k, l');
    forall i | 0 <= i < |r|
      ensures Node(l', r, i)
    {
      UnlinkedNode(l, order, k, l', i);
    }
    AllNodes(l', r);
    forall i, j | 0 <= i < j < |r|
      ensures Val(l', r, i) < Val(l', r, j)
    {
      UnlinkedVal(l, order, k, l', i);
      UnlinkedVal(l, order, k, l', j);
      AscendingAt(l, order, if i < k then i else i + 1, if j < k then j else j + 1);
    }
    AreAscending(l', r);
    assert Chain(l', r);
  }

  lemma AreAscending(l: List, order: seq<nat>)
    requires forall i, j :: 0 <= i < j < |order| ==> Val(l, order, i) < Val(l, order, j)
    ensures Ascending(l, order)
  {
    hide Val;
  }

  /** What deleting an object means: the others stay, with their values. */
  ghost predicate Deleted(l: List, p: nat, l': List) {
    && l'.links.Keys == l.links.Keys - {p}
    && forall id :: id in l'.links ==> id in l.links && l'.links[id].value == l.links[id].value
  }

  /** Take an object off the list. */
  method DllUnlink(l: List, p: nat) returns (l': List)
    requires Valid(l) && p in l.links
    ensures Valid(l') && Deleted(l, p, l')
  {
    hide Chain, Val, Unlinked, Deleted;
    ghost var order :| Chain(l, order);
    ghost var k := PositionOf(l, order, p);
    EndsOf(l, order);
    NodeAt(l, order, k);
    if k > 0 {
      NodeAt(l, order, k - 1);
      AscendingAt(l, order, k - 1, k);
    }
    if k + 1 < |order| {
      NodeAt(l, order, k + 1);
      AscendingAt(l, order, k, k + 1);
    }
    if 0 < k && k + 1 < |order| {
      AscendingAt(l, order, k - 1, k + 1);
    }
    var links, first, last := l.links, l.first, l.last;
    var link := l.links[p];
    if link.prev == Null {
      first := link.next;
    } else {
      var before := link.prev.id;
      links := links[before := links[before].(next := link.next)];
    }
    if link.next == Null {
      last := link.prev;
    } else {
      var after := link.next.id;
      links := links[after := links[after].(prev := link.prev)];
    }
    l' := List(first, last, l.count - 1, links - {p});
    IsUnlinked(l, order, k, l');
    UnlinkedChain(l, order, k, l');
    UnlinkedDeletes(l, order, k, l');
  }

  lemma IsUnlinked(l: List, order: seq<nat>, k: nat, l': List)
    requires Chain(l, order) && k < |order| && order[k] in l.links
    requires k > 0 ==> order[k - 1] in l.links && order[k - 1] != order[k]
    requires k + 1 < |order| ==> order[k + 1] in l.links && order[k + 1] != order[k]
    requires 0 < k && k + 1 < |order| ==> order[k - 1] != order[k + 1]
    requires l.links[order[k]].next == PtrAt(order, k + 1) && l.links[order[k]].prev == PtrAt(order, k - 1)
    requires l.first == PtrAt(order, 0) && l.last == PtrAt(order, |order| - 1) && l.count == |order|
    requires l'.first == (if k == 0 then PtrAt(order, k + 1) else l.first)
    requires l'.last == (if k + 1 == |order| then PtrAt(order, k - 1) else l.last) && l'.count == l.count - 1
    requires
      var links1 := if k == 0 then l.links
          else l.links[order[k - 1] := l.links[order[k - 1]].(next := PtrAt(order, k + 1))];
      var links2 := if k + 1 == |order| then links1
          else links1[order[k + 1] := l.links[order[k + 1]].(prev := PtrAt(order, k - 1))];
      l'.links == links2 - {order[k]}
    ensures Unlinked(l, order, k, l')
  {
    hide Chain;
  }

  lemma UnlinkedDeletes(l: List, order: seq<nat>, k: nat, l': List)
    requires k < |order| && Unlinked(l, order, k, l')
    ensures Deleted(l, order[k], l')
  {
    hide PtrAt;
    forall id | id in l'.links
      ensures id in l.links && l'.links[id].value == l.links[id].value
    {
      assert Bypassed(order, k, id, l.links[id], l'.links[id]);
    }
  }

  // ---- searching

  /** The object with the value, if there is one. */
  method Find(l: List, value: nat) returns (p: Ptr)
    requires Valid(l)
    ensures p == Null <==> !HasValue(l, value)
    ensures p != Null ==> p.id in l.links && l.links[p.id].value == value
  {
    hide Chain, Val;
    ghost var order :| Chain(l, order);
    ghost var k := 0;
    EndsOf(l, order);
    p := l.first;
    if order != [] {
      NodeAt(l, order, 0);
    }
    while p != Null && l.links[p.id].value < value
      invariant 0 <= k <= |order| && p == PtrAt(order, k)
      invariant k < |order| ==>
        p.id in l.links && l.links[p.id].value == Val(l, order, k) && l.links[p.id].next == PtrAt(order, k + 1)
      invariant forall i :: 0 <= i < k ==> Val(l, order, i) < value
      decreases |order| - k
    {
      p := l.links[p.id].next;
      k := k + 1;
      if k < |order| {
        NodeAt(l, order, k);
      }
    }
    Searched(l, order, k, value);
    if p != Null && l.links[p.id].value != value {
      p := Null;
    }
  }

  lemma Searched(l: List, order: seq<nat>, k: nat, value: nat)
    requires Chain(l, order) && k <= |order| && forall i :: 0 <= i < k ==> Val(l, order, i) < value
    ensures k == |order| ==> !HasValue(l, value)
    ensures k < |order| && Val(l, order, k) > value ==> !HasValue(l, value)
  {
    hide Chain, Val;
    if k < |order| && Val(l, order, k) > value {
      AllAbove(l, order, k, value);
    }
    if k == |order| || Val(l, order, k) > value {
      forall id | id in l.links
        ensures l.links[id].value != value
      {
        var i := PositionOf(l, order, id);
      }
    }
  }

  // ---- two lists at once

  /** The values on a list. */
  ghost function Values(l: List): (vs: set<nat>)
    ensures forall v :: v in vs <==> HasValue(l, v)
  {
    set id | id in l.links :: l.links[id].value
  }

  /** Where a cursor stands: at the k-th object, or past the end. */
  ghost predicate Cursor(l: List, order: seq<nat>, k: nat, p: Ptr) {
    && k <= |order| && p == PtrAt(order, k)
    && (k < |order| ==>
        p.id in l.links && l.links[p.id].value == Val(l, order, k) && l.links[p.id].next == PtrAt(order, k + 1))
  }

  lemma CursorAt(l: List, order: seq<nat>, k: nat)
    requires Chain(l, order) && k <= |order|
    ensures Cursor(l, order, k, PtrAt(order, k))
  {
    hide Chain, Val;
    if k < |order| {
      NodeAt(l, order, k);
    }
  }

  /** Whether list b has every value of list a, found in one pass over both. */
  method Contains(a: List, b: List) returns (contained: bool)
    requires Valid(a) && Valid(b)
    ensures contained <==> Values(a) <= Values(b)
  {
    hide Chain, Val, Values;
    ghost var oa :| Chain(a, oa);
    ghost var ob :| Chain(b, ob);
    ghost var i, j := 0, 0;
    EndsOf(a, oa);
    EndsOf(b, ob);
    var q1, q2 := a.first, b.first;
    CursorAt(a, oa, 0);
    CursorAt(b, ob, 0);
    while q1 != Null
      invariant Cursor(a, oa, i, q1) && Cursor(b, ob, j, q2)
      invariant forall k :: 0 <= k < i ==> Val(a, oa, k) in Values(b)
      invariant i < |oa| ==> forall k :: 0 <= k < j ==> Val(b, ob, k) < Val(a, oa, i)
      decreases |oa| - i + |ob| - j
    {
      if q2 == Null || a.links[q1.id].value < b.links[q2.id].value {
        Absent(a, oa, i, b, ob, j);
        return false;
      } else if a.links[q1.id].value == b.links[q2.id].value {
        InValues(b, q2.id);
        NextApart(a, oa, i, b, ob, j);
        q1, q2 := a.links[q1.id].next, b.links[q2.id].next;
        i, j := i + 1, j + 1;
        CursorAt(a, oa, i);
        CursorAt(b, ob, j);
      } else {
        q2 := b.links[q2.id].next;
        j := j + 1;
        CursorAt(b, ob, j);
      }
    }
    AllContained(a, oa, b);
    contained := true;
  }

  lemma InValues(l: List, id: nat)
    requires id in l.links
    ensures l.links[id].value in Values(l)
  {
    assert HasValue(l, l.links[id].value);
  }

  /** Between equal values the next value of a exceeds everything passed in b. */
  lemma NextApart(a: List, oa: seq<nat>, i: nat, b: List, ob: seq<nat>, j: nat)
    requires Chain(a, oa) && Chain(b, ob) && i < |oa| && j < |ob| && Val(a, oa, i) == Val(b, ob, j)
    requires forall k :: 0 <= k < j ==> Val(b, ob, k) < Val(a, oa, i)
    ensures i + 1 < |oa| ==> forall k :: 0 <= k < j + 1 ==> Val(b, ob, k) < Val(a, oa, i + 1)
  {
    hide Chain, Val;
    if i + 1 < |oa| {
      AscendingAt(a, oa, i, i + 1);
    }
  }

  lemma Absent(a: List, oa: seq<nat>, i: nat, b: List, ob: seq<nat>, j: nat)
    requires Chain(a, oa) && Chain(b, ob) && i < |oa| && j <= |ob|
    requires forall k :: 0 <= k < j ==> Val(b, ob, k) < Val(a, oa, i)
    requires j < |ob| ==> Val(a, oa, i) < Val(b, ob, j)
    ensures !(Values(a) <= Values(b))
  {
    hide Chain, Val, Values;
    NodeAt(a, oa, i);
    InValues(a, oa[i]);
    Searched(b, ob, j, Val(a, oa, i));
  }

  lemma AllContained(a: List, oa: seq<nat>, b: List)
    requires Chain(a, oa) && forall k :: 0 <= k < |oa| ==> Val(a, oa, k) in Values(b)
    ensures Values(a) <= Values(b)
  {
    hide Chain, Val, Values;
    forall v | v in Values(a)
      ensures v in Values(b)
    {
      var id :| id in a.links && a.links[id].value == v;
      var k := PositionOf(a, oa, id);
    }
  }

  /** Whether the lists share a value. */
  method Intersects(a: List, b: List) returns (shared: bool)
    requires Valid(a) && Valid(b)
    ensures shared <==> Values(a) * Values(b) != {}
  {
    hide Chain, Val, Values;
    ghost var oa :| Chain(a, oa);
    ghost var ob :| Chain(b, ob);
    ghost var i, j := 0, 0;
    EndsOf(a, oa);
    EndsOf(b, ob);
    var q1, q2 := a.first, b.first;
    CursorAt(a, oa, 0);
    CursorAt(b, ob, 0);
    while q1 != Null && q2 != Null
      invariant Cursor(a, oa, i, q1) && Cursor(b, ob, j, q2)
      invariant forall k :: 0 <= k < i ==> Val(a, oa, k) !in Values(b)
      invariant forall k :: 0 <= k < j ==> Val(b, ob, k) !in Values(a)
      invariant i < |oa| ==> forall k :: 0 <= k < j ==> Val(b, ob, k) < Val(a, oa, i)
      invariant j < |ob| ==> forall k :: 0 <= k < i ==> Val(a, oa, k) < Val(b, ob, j)
      decreases |oa| - i + |ob| - j
    {
      if a.links[q1.id].value < b.links[q2.id].value {
        Searched(b, ob, j, Val(a, oa, i));
        Passed(a, oa, i, b, ob, j);
        q1 := a.links[q1.id].next;
        i := i + 1;
        CursorAt(a, oa, i);
      } else if a.links[q1.id].value > b.links[q2.id].value {
        Searched(a, oa, i, Val(b, ob, j));
        Passed(b, ob, j, a, oa, i);
        q2 := b.links[q2.id].next;
        j := j + 1;
        CursorAt(b, ob, j);
      } else {
        InValues(a, q1.id);
        InValues(b, q2.id);
        assert a.links[q1.id].value in Values(a) * Values(b);
        return true;
      }
    }
    NothingShared(a, oa, i, b, ob, j);
    shared := false;
  }

  /** Passing a value of a keeps it below the cursor of b, and the passed values of
      b below the next of a. */
  lemma Passed(a: List, oa: seq<nat>, i: nat, b: List, ob: seq<nat>, j: nat)
    requires Chain(a, oa) && i < |oa| && j < |ob| && Val(a, oa, i) < Val(b, ob, j)
    requires forall k :: 0 <= k < j ==> Val(b, ob, k) < Val(a, oa, i)
    ensures i + 1 < |oa| ==> forall k :: 0 <= k < j ==> Val(b, ob, k) < Val(a, oa, i + 1)
  {
    hide Chain, Val;
    if i + 1 < |oa| {
      AscendingAt(a, oa, i, i + 1);
    }
  }

  lemma NothingShared(a: List, oa: seq<nat>, i: nat, b: List, ob: seq<nat>, j: nat)
    requires Chain(a, oa) && Chain(b, ob) && i <= |oa| && j <= |ob| && (i == |oa| || j == |ob|)
    requires forall k :: 0 <= k < i ==> Val(a, oa, k) !in Values(b)
    requires forall k :: 0 <= k < j ==> Val(b, ob, k) !in Values(a)
    ensures Values(a) * Values(b) == {}
  {
    hide Chain, Val, Values;
    forall v | v in Values(a) && v in Values(b)
      ensures false
    {
      var x :| x in a.links && a.links[x].value == v;
      var y :| y in b.links && b.links[y].value == v;
      var k := PositionOf(a, oa, x);
      var n := PositionOf(b, ob, y);
    }
  }
}
