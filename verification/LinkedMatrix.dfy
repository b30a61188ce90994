/** The sparse matrix as it is stored: elements linked into their row and into
    their column, and headers linked into the lists of rows and of columns. */
module LinkedMatrix {
  import opened SortedList
  import Covering

  /** A slot of a header array. */
  datatype Slot = NoLine | Line(list: List)

  /** Where an element stands: in which line, and at which place of it. */
  datatype Spot = Spot(line: nat, place: nat)

  /** All the lines of one direction: the header array and the list of headers. */
  datatype Lines = Lines(slots: seq<Slot>, headers: List)

  function Turn(p: Spot): Spot {
    Spot(p.place, p.line)
  }

  /** The elements seen from the other direction. */
  function Turned(elems: map<nat, Spot>): (r: map<nat, Spot>)
    ensures r.Keys == elems.Keys && forall id :: id in elems ==> r[id] == Turn(elems[id])
  {
    map id | id in elems :: Turn(elems[id])
  }

  predicate HasLine(x: Lines, i: int) {
    0 <= i < |x.slots| && x.slots[i].Line?
  }

  /** The header list holds exactly the lines there are, each under its number. */
  ghost predicate Headed(x: Lines) {
    && Valid(x.headers)
    && (forall i :: i in x.headers.links <==> HasLine(x, i))
    && (forall i :: i in x.headers.links ==> x.headers.links[i].value == i)
  }

  /** The line holds exactly its elements, in order, and is not empty. */
  ghost predicate LineHolds(x: Lines, elems: map<nat, Spot>, i: nat) {
    && HasLine(x, i) && Valid(x.slots[i].list) && x.slots[i].list.links != map[]
    && forall id :: id in x.slots[i].list.links ==> id in elems && elems[id] == Spot(i, x.slots[i].list.links[id].value)
  }

  ghost predicate InLine(x: Lines, id: nat, i: nat) {
    HasLine(x, i) && id in x.slots[i].list.links
  }

  /** The lines of one direction are well formed and hold the elements. */
  ghost predicate Sound(x: Lines, elems: map<nat, Spot>) {
    && Headed(x)
    && (forall i :: HasLine(x, i) ==> LineHolds(x, elems, i))
    && (forall id :: id in elems ==> InLine(x, id, elems[id].line))
  }

  /** Two elements never share a spot. */
  lemma SpotsDiffer(x: Lines, elems: map<nat, Spot>, a: nat, b: nat)
    requires Sound(x, elems) && a in elems && b in elems && elems[a] == elems[b]
    ensures a == b
  {
    hide Headed, Valid;
    var i := elems[a].line;
    assert InLine(x, a, i) && InLine(x, b, i);
    assert LineHolds(x, elems, i);
    ValuesDiffer(x.slots[i].list, a, b);
  }

  // ---- one direction: insertion

  /** Some element stands at the spot. */
  ghost predicate Taken(elems: map<nat, Spot>, p: Spot) {
    exists id :: id in elems && elems[id] == p
  }

  lemma SpotInLine(x: Lines, elems: map<nat, Spot>, p: Spot)
    requires Sound(x, elems)
    ensures Taken(elems, p) <==> HasLine(x, p.line) && HasValue(x.slots[p.line].list, p.place)
  {
    hide Headed, Valid;
    if id :| id in elems && elems[id] == p {
      assert InLine(x, id, p.line);
      assert LineHolds(x, elems, p.line);
    }
    if HasLine(x, p.line) && HasValue(x.slots[p.line].list, p.place) {
      assert LineHolds(x, elems, p.line);
      var id :| id in x.slots[p.line].list.links && x.slots[p.line].list.links[id].value == p.place;
    }
  }

  /** Make room for line i in the header array (sm_resize). */
  method Resize(x: Lines, i: nat) returns (y: Lines)
    ensures y.headers == x.headers && i < |y.slots| && |x.slots| <= |y.slots| && y.slots[..|x.slots|] == x.slots
    ensures forall k :: |x.slots| <= k < |y.slots| ==> y.slots[k] == NoLine
  {
    y := x;
    if i >= |x.slots| {
      var newSize := if 2 * |x.slots| > i + 1 then 2 * |x.slots| else i + 1;
      y := Lines(x.slots + seq(newSize - |x.slots|, _ => NoLine), x.headers);
    }
  }

  lemma ResizedSound(x: Lines, y: Lines, elems: map<nat, Spot>)
    requires Sound(x, elems) && y.headers == x.headers && |x.slots| <= |y.slots| && y.slots[..|x.slots|] == x.slots
    requires forall k :: |x.slots| <= k < |y.slots| ==> y.slots[k] == NoLine
    ensures Sound(y, elems)
  {
    hide Valid;
    forall i: nat
      ensures HasLine(y, i) <==> HasLine(x, i)
      ensures HasLine(x, i) ==> y.slots[i] == x.slots[i]
    {
      if i < |x.slots| {
        assert y.slots[i] == y.slots[..|x.slots|][i];
      }
    }
    forall i | HasLine(y, i)
      ensures LineHolds(y, elems, i)
    {
      assert LineHolds(x, elems, i);
    }
    forall id | id in elems
      ensures InLine(y, id, elems[id].line)
    {
      assert InLine(x, id, elems[id].line);
    }
  }

  /** Link an element into its line, making the header if the line is new.  An
      element that stands there already is returned instead. */
  method LinkIn(x: Lines, ghost elems: map<nat, Spot>, p: Spot, e: nat) returns (y: Lines, used: nat)
    requires Sound(x, elems) && e !in elems
    ensures Taken(elems, p) ==> used in elems && elems[used] == p && Sound(y, elems)
    ensures !Taken(elems, p) ==> used == e && Sound(y, elems[e := p])
  {
    hide Valid, Sound, Taken, Inserted, Headed;
    y := Resize(x, p.line);
    ResizedSound(x, y, elems);
    NotLinked(y, elems, e);
    SpotInLine(y, elems, p);
    ghost var y0 := y;
    if y.slots[p.line] == NoLine {
      y := NewLine(y, elems, p.line);
    } else {
      LineValid(y, elems, p.line);
    }
    EmptyValid();
    var list := if y.slots[p.line].Line? then y.slots[p.line].list else EMPTY;
    ghost var isNew := y0.slots[p.line] == NoLine;
    var list', id := SortedInsert(list, p.place, e);
    used := id;
    SlotHeaded(y, p.line, list');
    y := Lines(y.slots[p.line := Line(list')], y.headers);
    LinkedIn(y0, elems, p, e, isNew, list, list', used, y);
  }

  lemma NotLinked(x: Lines, elems: map<nat, Spot>, e: nat)
    requires Sound(x, elems) && e !in elems
    ensures forall i :: HasLine(x, i) ==> e !in x.slots[i].list.links
  {
    hide Valid, Headed;
    forall i | HasLine(x, i)
      ensures e !in x.slots[i].list.links
    {
      assert LineHolds(x, elems, i);
    }
  }

  lemma LineValid(x: Lines, elems: map<nat, Spot>, i: nat)
    requires Sound(x, elems) && HasLine(x, i)
    ensures Headed(x) && Valid(x.slots[i].list) && x.slots[i].list.links != map[]
  {
    hide Valid, Headed;
    assert LineHolds(x, elems, i);
  }

  /** Put a new, still empty, header into the array and the list of headers. */
  method NewLine(x: Lines, ghost elems: map<nat, Spot>, i: nat) returns (y: Lines)
    requires Sound(x, elems) && i < |x.slots| && x.slots[i] == NoLine
    ensures y.slots == x.slots[i := Line(EMPTY)] && Headed(y)
  {
    hide Valid;
    var headers, used := SortedInsert(x.headers, i, i);
    y := Lines(x.slots[i := Line(EMPTY)], headers);
    NewHeaded(x, i, headers, used, y);
  }

  lemma NewHeaded(x: Lines, i: nat, headers: List, used: nat, y: Lines)
    requires Headed(x) && i < |x.slots| && x.slots[i] == NoLine && i !in x.headers.links
    requires Valid(headers) && Inserted(x.headers, i, i, headers, used)
    requires y == Lines(x.slots[i := Line(EMPTY)], headers)
    ensures Headed(y)
  {
    hide Valid;
    assert !HasValue(x.headers, i);
    forall k
      ensures k in y.headers.links <==> HasLine(y, k)
      ensures k in y.headers.links ==> y.headers.links[k].value == k
    {
      assert k in headers.links <==> k in headers.links.Keys;
      assert HasLine(y, k) <==> HasLine(x, k) || k == i;
    }
  }

  lemma SlotHeaded(x: Lines, i: nat, list: List)
    requires Headed(x) && HasLine(x, i)
    ensures Headed(Lines(x.slots[i := Line(list)], x.headers))
  {
    hide Valid;
    var y := Lines(x.slots[i := Line(list)], x.headers);
    forall k: nat
      ensures HasLine(y, k) <==> HasLine(x, k)
    {
    }
  }

  /** What linking in has made of the lines. */
  lemma LinkedIn(x: Lines, elems: map<nat, Spot>, p: Spot, e: nat, isNew: bool, list: List, list': List, used: nat,
      y: Lines)
    requires Sound(x, elems) && e !in elems && p.line < |x.slots| && (isNew <==> x.slots[p.line] == NoLine)
    requires list == if isNew then EMPTY else x.slots[p.line].list
    requires Valid(list') && Inserted(list, p.place, e, list', used)
    requires y.slots == x.slots[p.line := Line(list')] && Headed(y)
    ensures Taken(elems, p) ==> used in elems && elems[used] == p && Sound(y, elems)
    ensures !Taken(elems, p) ==> used == e && Sound(y, elems[e := p])
  {
    hide Valid, Headed;
    SpotInLine(x, elems, p);
    if !isNew {
      assert LineHolds(x, elems, p.line);
    }
    if Taken(elems, p) {
      assert y.slots == x.slots;
      SameSlots(x, y, elems);
    } else {
      JoinedSound(x, elems, p, e, list, list', y);
    }
  }

  lemma SameSlots(x: Lines, y: Lines, elems: map<nat, Spot>)
    requires Sound(x, elems) && y.slots == x.slots && Headed(y)
    ensures Sound(y, elems)
  {
    hide Valid, Headed;
    forall i | HasLine(y, i)
      ensures LineHolds(y, elems, i)
    {
      assert HasLine(x, i);
      assert LineHolds(x, elems, i);
    }
    forall id | id in elems
      ensures InLine(y, id, elems[id].line)
    {
      assert InLine(x, id, elems[id].line);
    }
  }

  lemma JoinedSound(x: Lines, elems: map<nat, Spot>, p: Spot, e: nat, list: List, list': List, y: Lines)
    requires Sound(x, elems) && e !in elems && p.line < |x.slots|
    requires list == if x.slots[p.line] == NoLine then EMPTY else x.slots[p.line].list
    requires Valid(list') && list'.links.Keys == list.links.Keys + {e} && e in list'.links
    requires list'.links[e].value == p.place
    requires forall id :: id in list.links ==> list'.links[id].value == list.links[id].value
    requires y.slots == x.slots[p.line := Line(list')] && Headed(y)
    ensures Sound(y, elems[e := p])
  {
    hide Valid, Headed;
    var more := elems[e := p];
    forall i | HasLine(y, i)
      ensures LineHolds(y, more, i)
    {
      if i == p.line {
        JoinedLine(x, elems, p, e, list, list');
      } else {
        assert HasLine(x, i);
        assert LineHolds(x, elems, i);
        OtherLine(x, elems, i, e, p);
      }
    }
    forall id | id in more
      ensures InLine(y, id, more[id].line)
    {
      if id != e {
        assert InLine(x, id, elems[id].line);
        assert more[id] == elems[id];
        if elems[id].line == p.line {
          assert id in list'.links.Keys;
        }
      }
    }
  }

  lemma OtherLine(x: Lines, elems: map<nat, Spot>, i: nat, e: nat, p: Spot)
    requires LineHolds(x, elems, i) && e !in elems
    ensures LineHolds(x, elems[e := p], i)
  {
    hide Valid;
  }

  lemma JoinedLine(x: Lines, elems: map<nat, Spot>, p: Spot, e: nat, list: List, list': List)
    requires Sound(x, elems) && e !in elems && p.line < |x.slots|
    requires list == if x.slots[p.line] == NoLine then EMPTY else x.slots[p.line].list
    requires list'.links.Keys == list.links.Keys + {e} && e in list'.links && list'.links[e].value == p.place
    requires forall id :: id in list.links ==> list'.links[id].value == list.links[id].value
    ensures list'.links != map[]
    ensures forall id :: id in list'.links ==>
      id in elems[e := p] && elems[e := p][id] == Spot(p.line, list'.links[id].value)
  {
    hide Valid, Headed;
    if x.slots[p.line].Line? {
      assert HasLine(x, p.line);
      assert LineHolds(x, elems, p.line);
    }
    forall id | id in list'.links
      ensures id in elems[e := p] && elems[e := p][id] == Spot(p.line, list'.links[id].value)
    {
      assert id in list'.links.Keys;
    }
  }

  // ---- one direction: deletion

  /** The elements that do not stand in line i. */
  function OutsideLine(elems: map<nat, Spot>, i: nat): (r: map<nat, Spot>)
    ensures forall id :: id in r <==> id in elems && elems[id].line != i
    ensures forall id :: id in r ==> r[id] == elems[id]
  {
    map id | id in elems && elems[id].line != i :: elems[id]
  }

  /** Discard the header of a line. */
  method DropLine(x: Lines, ghost elems: map<nat, Spot>, i: nat) returns (y: Lines)
    requires Sound(x, elems) && HasLine(x, i)
    ensures Sound(y, OutsideLine(elems, i))
  {
    hide Valid, Sound, Headed, Deleted;
    LineValid(x, elems, i);
    HeaderOf(x, i);
    var headers := DllUnlink(x.headers, i);
    y := Lines(x.slots[i := NoLine], headers);
    DropHeaded(x, i, headers, y);
    DroppedSound(x, elems, i, y);
  }

  lemma HeaderOf(x: Lines, i: nat)
    requires Headed(x) && HasLine(x, i)
    ensures i in x.headers.links && Valid(x.headers)
  {
    hide Valid;
  }

  lemma DropHeaded(x: Lines, i: nat, headers: List, y: Lines)
    requires Headed(x) && HasLine(x, i) && Valid(headers) && Deleted(x.headers, i, headers)
    requires y == Lines(x.slots[i := NoLine], headers)
    ensures Headed(y)
  {
    hide Valid;
    forall k: nat
      ensures k in y.headers.links <==> HasLine(y, k)
    {
      assert k in headers.links <==> k in headers.links.Keys;
      assert HasLine(y, k) <==> HasLine(x, k) && k != i;
    }
  }

  lemma DroppedSound(x: Lines, elems: map<nat, Spot>, i: nat, y: Lines)
    requires Sound(x, elems) && HasLine(x, i) && Headed(y) && y.slots == x.slots[i := NoLine]
    ensures Sound(y, OutsideLine(elems, i))
  {
    hide Valid, Headed;
    var rest := OutsideLine(elems, i);
    forall k: nat | HasLine(y, k)
      ensures LineHolds(y, rest, k)
    {
      assert HasLine(x, k);
      assert LineHolds(x, elems, k);
    }
    forall id | id in rest
      ensures InLine(y, id, rest[id].line)
    {
      assert InLine(x, id, elems[id].line);
    }
  }

  /** Unlink an element from its line; a line left empty is discarded. */
  method LinkOut(x: Lines, ghost elems: map<nat, Spot>, id: nat, i: nat) returns (y: Lines)
    requires Sound(x, elems) && id in elems && elems[id].line == i
    ensures Sound(y, elems - {id})
  {
    hide Valid, Sound, Headed, Deleted;
    ElementLinked(x, elems, id);
    LineValid(x, elems, i);
    var list := DllUnlink(x.slots[i].list, id);
    CountIsSize(list);
    if list.first == Null {
      LastOne(x, elems, id, i, list);
      y := DropLine(x, elems, i);
    } else {
      SlotHeaded(x, i, list);
      y := Lines(x.slots[i := Line(list)], x.headers);
      ShrunkSound(x, elems, id, i, list, y);
    }
  }

  lemma ElementLinked(x: Lines, elems: map<nat, Spot>, id: nat)
    requires Sound(x, elems) && id in elems
    ensures HasLine(x, elems[id].line) && id in x.slots[elems[id].line].list.links
  {
    hide Valid, Headed;
    assert InLine(x, id, elems[id].line);
  }

  /** The element was the only one of its line. */
  lemma LastOne(x: Lines, elems: map<nat, Spot>, id: nat, i: nat, list: List)
    requires Sound(x, elems) && id in elems && elems[id].line == i && HasLine(x, i)
    requires Deleted(x.slots[i].list, id, list) && list.links == map[]
    ensures OutsideLine(elems, i) == elems - {id}
  {
    hide Valid, Headed;
    forall k | k in elems && elems[k].line == i
      ensures k == id
    {
      assert InLine(x, k, i);
      assert k in list.links.Keys || k == id;
    }
    assert OutsideLine(elems, i).Keys == (elems - {id}).Keys;
  }

  lemma ShrunkSound(x: Lines, elems: map<nat, Spot>, id: nat, i: nat, list: List, y: Lines)
    requires Sound(x, elems) && id in elems && elems[id].line == i && HasLine(x, i)
    requires Valid(list) && Deleted(x.slots[i].list, id, list) && list.links != map[]
    requires y.slots == x.slots[i := Line(list)] && Headed(y)
    ensures Sound(y, elems - {id})
  {
    hide Valid, Headed;
    var rest := elems - {id};
    forall k: nat | HasLine(y, k)
      ensures LineHolds(y, rest, k)
    {
      assert HasLine(x, k);
      assert LineHolds(x, elems, k);
      if k != i {
        OtherLineKeeps(x, elems, k, id);
      } else {
        ShrunkLine(x, elems, id, i, list);
      }
    }
    forall k | k in rest
      ensures InLine(y, k, rest[k].line)
    {
      assert InLine(x, k, elems[k].line);
      if elems[k].line == i {
        assert k in list.links.Keys;
      }
    }
  }

  lemma OtherLineKeeps(x: Lines, elems: map<nat, Spot>, k: nat, id: nat)
    requires LineHolds(x, elems, k) && id in elems && elems[id].line != k
    ensures LineHolds(x, elems - {id}, k)
  {
    hide Valid;
  }

  lemma ShrunkLine(x: Lines, elems: map<nat, Spot>, id: nat, i: nat, list: List)
    requires LineHolds(x, elems, i) && Deleted(x.slots[i].list, id, list)
    ensures forall k :: k in list.links ==> k in elems - {id} && (elems - {id})[k] == Spot(i, list.links[k].value)
  {
    hide Valid;
    forall k | k in list.links
      ensures k in elems - {id} && (elems - {id})[k] == Spot(i, list.links[k].value)
    {
      assert k in list.links.Keys;
    }
  }

  // ---- both directions

  /** The elements of line i before the k-th have been taken out. */
  ghost predicate TakenOut(elems: map<nat, Spot>, order: seq<nat>, k: nat, left: map<nat, Spot>)
    requires k <= |order|
  {
    && (forall id :: id in left <==> id in elems && id !in order[..k])
    && (forall id :: id in left ==> left[id] == elems[id])
  }

  lemma TakenOutStep(elems: map<nat, Spot>, order: seq<nat>, k: nat, left: map<nat, Spot>)
    requires k < |order| && TakenOut(elems, order, k, left)
    ensures TakenOut(elems, order, k + 1, left - {order[k]})
    ensures Turned(left - {order[k]}) == Turned(left) - {order[k]}
  {
    assert order[..k + 1] == order[..k] + [order[k]];
  }

  lemma TakenOutAll(x: Lines, elems: map<nat, Spot>, i: nat, order: seq<nat>, left: map<nat, Spot>)
    requires Sound(x, elems) && HasLine(x, i) && Chain(x.slots[i].list, order) && TakenOut(elems, order, |order|, left)
    ensures left == OutsideLine(elems, i)
  {
    hide Valid, Headed, Chain;
    assert order[..|order|] == order;
    EndsOf(x.slots[i].list, order);
    assert LineHolds(x, elems, i);
    forall id | id in elems
      ensures elems[id].line == i <==> id in order
    {
      assert InLine(x, id, elems[id].line);
    }
    assert left.Keys == OutsideLine(elems, i).Keys;
  }

  lemma StillThere(x: Lines, elems: map<nat, Spot>, i: nat, order: seq<nat>, k: nat, left: map<nat, Spot>)
    requires Sound(x, elems) && HasLine(x, i) && Chain(x.slots[i].list, order) && k < |order|
    requires TakenOut(elems, order, k, left)
    ensures order[k] in left && left[order[k]].line == i
  {
    hide Valid, Headed, Chain;
    assert LineHolds(x, elems, i);
    EndsOf(x.slots[i].list, order);
    NodeAt(x.slots[i].list, order, k);
    NotBefore(x.slots[i].list, order, k);
  }

  lemma NotBefore(l: List, order: seq<nat>, k: nat)
    requires Chain(l, order) && k < |order|
    ensures order[k] !in order[..k]
  {
    hide Nodes, Ascending;
    forall j | 0 <= j < k
      ensures order[..k][j] != order[k]
    {
      assert order[j] != order[k];
    }
  }

  /** Delete line i: walk along it, unlink each element from the line that crosses
      there, and discard the header.  Nothing happens without such a line. */
  method DeleteLine(x: Lines, y: Lines, elems: map<nat, Spot>, i: nat)
      returns (x': Lines, y': Lines, left: map<nat, Spot>)
    requires Sound(x, elems) && Sound(y, Turned(elems))
    ensures left == OutsideLine(elems, i)
    ensures Sound(x', left) && Sound(y', Turned(left))
  {
    hide Valid, Sound, Chain, TakenOut, OutsideLine;
    x', y', left := x, y, elems;
    if !HasLine(x, i) {
      NoLineHere(x, elems, i);
      return;
    }
    LineValid(x, elems, i);
    var list := x.slots[i].list;
    ghost var order := OrderOf(list);
    ghost var k := 0;
    EndsOf(list, order);
    NothingTaken(elems, order);
    CursorAt(list, order, 0);
    var p := list.first;
    while p != Null
      invariant Cursor(list, order, k, p) && k <= |order|
      invariant TakenOut(elems, order, k, left) && Sound(y', Turned(left))
      decreases |order| - k
    {
      StillThere(x, elems, i, order, k, left);
      var pnext := list.links[p.id].next;
      y' := LinkOut(y', Turned(left), p.id, left[p.id].place);
      TakenOutStep(elems, order, k, left);
      left := left - {p.id};
      p := pnext;
      k := k + 1;
      CursorAt(list, order, k);
    }
    TakenOutAll(x, elems, i, order, left);
    x' := DropLine(x, elems, i);
  }

  lemma OrderOf(l: List) returns (order: seq<nat>)
    requires Valid(l)
    ensures Chain(l, order)
  {
    order :| Chain(l, order);
  }

  lemma NothingTaken(elems: map<nat, Spot>, order: seq<nat>)
    ensures TakenOut(elems, order, 0, elems)
  {
  }

  lemma NoLineHere(x: Lines, elems: map<nat, Spot>, i: nat)
    requires Sound(x, elems) && !HasLine(x, i)
    ensures elems == OutsideLine(elems, i)
  {
    hide Valid, Headed;
    forall id | id in elems
      ensures elems[id].line != i
    {
      assert InLine(x, id, elems[id].line);
    }
    assert elems.Keys == OutsideLine(elems, i).Keys;
  }

  // ---- facts about the elements

  lemma NoElements()
    ensures Sound(Lines([], EMPTY), map[]) && Turned(map[]) == map[]
  {
    EmptyValid();
  }

  lemma TurnedTaken(elems: map<nat, Spot>, p: Spot)
    ensures Taken(elems, p) <==> Taken(Turned(elems), Turn(p))
  {
    if id :| id in elems && elems[id] == p {
      assert Turned(elems)[id] == Turn(p);
    }
    if id :| id in Turned(elems) && Turned(elems)[id] == Turn(p) {
      assert Turn(elems[id]) == Turn(p);
    }
  }

  lemma TurnedTwice(elems: map<nat, Spot>)
    ensures Turned(Turned(elems)) == elems
  {
  }

  lemma TakenMore(elems: map<nat, Spot>, e: nat, p: Spot)
    requires e !in elems
    ensures forall q :: Taken(elems[e := p], q) <==> Taken(elems, q) || q == p
  {
    forall q
      ensures Taken(elems[e := p], q) <==> Taken(elems, q) || q == p
    {
      if id :| id in elems && elems[id] == q {
        assert elems[e := p][id] == q;
      }
      if q == p {
        assert elems[e := p][e] == q;
      }
    }
  }

  lemma TakenLess(x: Lines, elems: map<nat, Spot>, id: nat)
    requires Sound(x, elems) && id in elems
    ensures forall q :: Taken(elems - {id}, q) <==> Taken(elems, q) && q != elems[id]
  {
    hide Sound;
    forall q
      ensures Taken(elems - {id}, q) <==> Taken(elems, q) && q != elems[id]
    {
      if k :| k in elems - {id} && (elems - {id})[k] == q {
        if q == elems[id] {
          SpotsDiffer(x, elems, k, id);
        }
        assert elems[k] == q;
      }
      if k :| k in elems && elems[k] == q && q != elems[id] {
        assert (elems - {id})[k] == q;
      }
    }
  }

  lemma TakenOutside(elems: map<nat, Spot>, i: nat)
    ensures forall q :: Taken(OutsideLine(elems, i), q) <==> Taken(elems, q) && q.line != i
  {
    forall q
      ensures Taken(OutsideLine(elems, i), q) <==> Taken(elems, q) && q.line != i
    {
      if k :| k in elems && elems[k] == q && q.line != i {
        assert OutsideLine(elems, i)[k] == q;
      }
    }
  }

  lemma TurnedCells(elems: map<nat, Spot>, left: map<nat, Spot>, i: nat)
    requires left == OutsideLine(Turned(elems), i)
    ensures forall q :: Taken(Turned(left), q) <==> Taken(elems, q) && q.place != i
    ensures forall id :: id in left ==> id in elems
  {
    hide OutsideLine, Taken;
    forall q
      ensures Taken(Turned(left), q) <==> Taken(elems, q) && q.place != i
    {
      TakenOutside(Turned(elems), i);
      TurnedTaken(left, Turn(q));
      TurnedTaken(elems, q);
      assert Turn(Turn(q)) == q;
    }
  }

  /** What a line lists stands there. */
  lemma LineElements(x: Lines, elems: map<nat, Spot>, i: nat)
    requires Sound(x, elems) && HasLine(x, i)
    ensures forall id :: id in x.slots[i].list.links ==>
      id in elems && elems[id] == Spot(i, x.slots[i].list.links[id].value)
  {
    hide Valid, Headed;
    assert LineHolds(x, elems, i);
  }

  // ---- the matrix

  class Matrix {
    var rows: Lines
    var cols: Lines
    var elems: map<nat, Spot>
    var nextElement: nat

    /** Rows and columns hold the same elements, and new elements get a new
        number. */
    ghost predicate Valid()
      reads this
    {
      && Sound(rows, elems) && Sound(cols, Turned(elems))
      && forall id :: id in elems ==> id < nextElement
    }

    /** The positions that are in the matrix. */
    ghost function Cells(): (c: set<Spot>)
      reads this
      ensures forall p :: p in c <==> Taken(elems, p)
    {
      set id | id in elems :: elems[id]
    }

    constructor ()
      ensures Valid() && Cells() == {}
    {
      rows, cols := Lines([], EMPTY), Lines([], EMPTY);
      elems := map[];
      nextElement := 0;
      new;
      NoElements();
    }

    /** Insert a position; the element that stands there is returned. */
    method Insert(row: nat, col: nat) returns (element: nat)
      requires Valid()
      modifies this
      ensures Valid() && Cells() == old(Cells()) + {Spot(row, col)}
      ensures element in elems && elems[element] == Spot(row, col)
    {
      hide Sound, Taken;
      var p, e := Spot(row, col), nextElement;
      TurnedTaken(elems, p);
      assert Turned(elems[e := p]) == Turned(elems)[e := Turn(p)];
      TakenMore(elems, e, p);
      rows, element := LinkIn(rows, elems, p, e);
      if element == e {
        var used;
        cols, used := LinkIn(cols, Turned(elems), Turn(p), e);
        elems := elems[e := p];
        nextElement := nextElement + 1;
      }
    }

    /** Look a position up along the shorter of its row and its column. */
    method FindElement(row: nat, col: nat) returns (p: Ptr)
      requires Valid()
      ensures p != Null ==> p.id in elems && elems[p.id] == Spot(row, col)
      ensures p == Null <==> Spot(row, col) !in Cells()
    {
      hide Sound, Taken;
      SpotInLine(rows, elems, Spot(row, col));
      SpotInLine(cols, Turned(elems), Spot(col, row));
      TurnedTaken(elems, Spot(row, col));
      if !HasLine(rows, row) || !HasLine(cols, col) {
        return Null;
      }
      LineValid(rows, elems, row);
      LineValid(cols, Turned(elems), col);
      if rows.slots[row].list.count < cols.slots[col].list.count {
        p := Find(rows.slots[row].list, col);
        LineElements(rows, elems, row);
      } else {
        p := Find(cols.slots[col].list, row);
        LineElements(cols, Turned(elems), col);
      }
    }

    /** Unlink an element from its row and its column. */
    method RemoveElement(id: nat)
      requires Valid() && id in elems
      modifies this
      ensures Valid() && Cells() == old(Cells()) - {old(elems[id])} && elems == old(elems) - {id}
    {
      hide Sound, Taken;
      assert Turned(elems - {id}) == Turned(elems) - {id};
      TakenLess(rows, elems, id);
      rows := LinkOut(rows, elems, id, elems[id].line);
      cols := LinkOut(cols, Turned(elems), id, elems[id].place);
      elems := elems - {id};
    }

    method Remove(row: nat, col: nat)
      requires Valid()
      modifies this
      ensures Valid() && Cells() == old(Cells()) - {Spot(row, col)}
    {
      hide Sound, Taken;
      var p := FindElement(row, col);
      if p != Null {
        RemoveElement(p.id);
      }
    }

    /** Delete a row, and with it every column that it leaves empty. */
    method DelRow(i: nat)
      requires Valid()
      modifies this
      ensures Valid() && Cells() == set p | p in old(Cells()) && p.line != i
    {
      hide Sound, Taken, OutsideLine;
      TakenOutside(elems, i);
      rows, cols, elems := DeleteLine(rows, cols, elems, i);
    }

    /** Delete a column, and with it every row that it leaves empty. */
    method DelCol(i: nat)
      requires Valid()
      modifies this
      ensures Valid() && Cells() == set p | p in old(Cells()) && p.place != i
    {
      hide Sound, Taken, OutsideLine;
      TurnedTwice(elems);
      TakenOutside(Turned(elems), i);
      var left;
      cols, rows, left := DeleteLine(cols, rows, Turned(elems), i);
      TurnedCells(elems, left, i);
      TurnedTwice(left);
      elems := Turned(left);
    }

    /** A copy: walk the rows, and along each row insert its elements. */
    method Dup() returns (B: Matrix)
      requires Valid()
      ensures fresh(B) && B.Valid() && B.Cells() == Cells()
    {
      hide Sound, Chain, Taken;
      B := new Matrix();
      HeadersValid(rows, elems);
      ghost var order := OrderOf(rows.headers);
      ghost var k := 0;
      EndsOf(rows.headers, order);
      CursorAt(rows.headers, order, 0);
      var prow := rows.headers.first;
      NoneCopied(Cells(), order);
      while prow != Null
        invariant Cursor(rows.headers, order, k, prow) && k <= |order|
        invariant fresh(B) && B.Valid() && B.Cells() == Copied(Cells(), order, k)
        decreases |order| - k
      {
        RowOfHeader(rows, elems, order, k);
        CopyRow(B, prow.id);
        CopiedNext(Cells(), order, k);
        prow := rows.headers.links[prow.id].next;
        k := k + 1;
        CursorAt(rows.headers, order, k);
      }
      AllCopied(rows, elems, order, Cells());
    }

    /** Insert the elements of row i into B. */
    method CopyRow(B: Matrix, i: nat)
      requires Valid() && B.Valid() && B != this && HasLine(rows, i)
      modifies B
      ensures B.Valid() && B.Cells() == old(B.Cells()) + set p | p in Cells() && p.line == i
    {
      hide Sound, Chain, Taken;
      LineValid(rows, elems, i);
      LineElements(rows, elems, i);
      var list := rows.slots[i].list;
      ghost var order := OrderOf(list);
      ghost var k := 0;
      EndsOf(list, order);
      CursorAt(list, order, 0);
      var p := list.first;
      NoneOfRow(list, order, i);
      while p != Null
        invariant Cursor(list, order, k, p) && k <= |order|
        invariant B.Valid() && B.Cells() == old(B.Cells()) + RowCells(list, order, i, k)
        decreases |order| - k
      {
        RowNext(list, order, i, k);
        var e := B.Insert(i, list.links[p.id].value);
        p := list.links[p.id].next;
        k := k + 1;
        CursorAt(list, order, k);
      }
      WholeRow(rows, elems, i, order, Cells());
    }
  }

  // ---- copying

  /** The cells of the first k rows. */
  ghost function Copied(cells: set<Spot>, order: seq<nat>, k: nat): set<Spot>
    requires k <= |order|
  {
    set p | p in cells && p.line in order[..k]
  }

  /** The first k cells of row i. */
  ghost function RowCells(list: List, order: seq<nat>, i: nat, k: nat): set<Spot>
    requires k <= |order|
  {
    if k == 0 then {} else RowCells(list, order, i, k - 1) + {Spot(i, Val(list, order, k - 1))}
  }

  lemma HeadersValid(x: Lines, elems: map<nat, Spot>)
    requires Sound(x, elems)
    ensures Headed(x) && SortedList.Valid(x.headers)
  {
    hide SortedList.Valid;
  }

  lemma RowOfHeader(x: Lines, elems: map<nat, Spot>, order: seq<nat>, k: nat)
    requires Sound(x, elems) && Chain(x.headers, order) && k < |order|
    ensures HasLine(x, order[k])
  {
    hide SortedList.Valid, Chain;
    NodeAt(x.headers, order, k);
  }

  lemma NoneCopied(cells: set<Spot>, order: seq<nat>)
    ensures Copied(cells, order, 0) == {}
  {
  }

  lemma CopiedNext(cells: set<Spot>, order: seq<nat>, k: nat)
    requires k < |order|
    ensures Copied(cells, order, k + 1) == Copied(cells, order, k) + set p | p in cells && p.line == order[k]
  {
    assert order[..k + 1] == order[..k] + [order[k]];
  }

  lemma AllCopied(x: Lines, elems: map<nat, Spot>, order: seq<nat>, cells: set<Spot>)
    requires Sound(x, elems) && Chain(x.headers, order) && forall p :: p in cells <==> Taken(elems, p)
    ensures Copied(cells, order, |order|) == cells
  {
    hide SortedList.Valid, Chain;
    EndsOf(x.headers, order);
    assert order[..|order|] == order;
    forall p | p in cells
      ensures p.line in order
    {
      var id :| id in elems && elems[id] == p;
      assert InLine(x, id, p.line);
    }
  }

  lemma NoneOfRow(list: List, order: seq<nat>, i: nat)
    ensures RowCells(list, order, i, 0) == {}
  {
  }

  lemma RowNext(list: List, order: seq<nat>, i: nat, k: nat)
    requires Chain(list, order) && k < |order|
    ensures RowCells(list, order, i, k + 1) == RowCells(list, order, i, k) + {Spot(i, list.links[order[k]].value)}
  {
    hide Chain;
    NodeAt(list, order, k);
  }

  lemma {:induction false} RowCellsAre(list: List, order: seq<nat>, i: nat, k: nat)
    requires k <= |order|
    ensures forall p :: p in RowCells(list, order, i, k) <==>
      exists j :: 0 <= j < k && p == Spot(i, Val(list, order, j))
  {
    hide Val;
    if k > 0 {
      RowCellsAre(list, order, i, k - 1);
    }
  }

  lemma WholeRow(x: Lines, elems: map<nat, Spot>, i: nat, order: seq<nat>, cells: set<Spot>)
    requires Sound(x, elems) && HasLine(x, i) && Chain(x.slots[i].list, order)
    requires forall p :: p in cells <==> Taken(elems, p)
    ensures RowCells(x.slots[i].list, order, i, |order|) == set p | p in cells && p.line == i
  {
    hide Sound, SortedList.Valid, Chain, Val, RowCells;
    var list := x.slots[i].list;
    RowCellsAre(list, order, i, |order|);
    LineElements(x, elems, i);
    forall p
      ensures p in RowCells(list, order, i, |order|) <==> p in cells && p.line == i
    {
      if j :| 0 <= j < |order| && p == Spot(i, Val(list, order, j)) {
        NodeAt(list, order, j);
        assert elems[order[j]] == p;
      }
      if p in cells && p.line == i {
        var id :| id in elems && elems[id] == p;
        ElementLinked(x, elems, id);
        var j := PositionOf(list, order, id);
      }
    }
  }

  // ---- the matrix of the covering problem

  ghost predicate HasRow(cells: set<Spot>, i: nat) {
    exists p :: p in cells && p.line == i
  }

  ghost function RowAt(cells: set<Spot>, i: nat): (r: set<nat>)
    ensures forall c: nat :: c in r <==> Spot(i, c) in cells
  {
    set p | p in cells && p.line == i :: p.place
  }

  /** The rows of the covering problem that the cells stand for. */
  ghost function RowsOf(cells: set<Spot>): (r: Covering.Rows)
    ensures forall i :: i in r <==> HasRow(cells, i)
    ensures forall i :: i in r ==> r[i] == RowAt(cells, i)
  {
    map i | i in (set p | p in cells :: p.line) :: RowAt(cells, i)
  }

  /** Deleting a row of the linked matrix deletes it from the covering problem. */
  lemma RowGone(cells: set<Spot>, i: nat)
    ensures RowsOf(set p | p in cells && p.line != i) == RowsOf(cells) - {i}
  {
    hide RowsOf, RowAt, HasRow;
    var rest := set p | p in cells && p.line != i;
    var a, b := RowsOf(rest), RowsOf(cells) - {i};
    forall k
      ensures k in a <==> k in b
      ensures k in a ==> a[k] == b[k]
    {
      RowGoneAt(cells, i, rest, k);
    }
  }

  lemma RowGoneAt(cells: set<Spot>, i: nat, rest: set<Spot>, k: nat)
    requires rest == set p | p in cells && p.line != i
    ensures HasRow(rest, k) <==> HasRow(cells, k) && k != i
    ensures HasRow(rest, k) ==> RowAt(rest, k) == RowAt(cells, k)
  {
  }

  /** Deleting a column removes it from every row, and rows left empty go too. */
  lemma ColumnGone(cells: set<Spot>, c: nat)
    ensures RowsOf(set p | p in cells && p.place != c) == Covering.WithoutCol(RowsOf(cells), c)
  {
    hide RowsOf, RowAt, HasRow;
    var rest := set p | p in cells && p.place != c;
    var a, b := RowsOf(rest), Covering.WithoutCol(RowsOf(cells), c);
    forall k
      ensures k in a <==> k in b
      ensures k in a ==> a[k] == b[k]
    {
      ColumnGoneAt(cells, c, rest, k);
    }
  }

  lemma ColumnGoneAt(cells: set<Spot>, c: nat, rest: set<Spot>, k: nat)
    requires rest == set p | p in cells && p.place != c
    ensures HasRow(rest, k) <==> HasRow(cells, k) && RowAt(cells, k) - {c} != {}
    ensures RowAt(rest, k) == RowAt(cells, k) - {c}
  {
    hide RowAt;
    if p :| p in rest && p.line == k {
      assert p == Spot(k, p.place);
      assert p.place in RowAt(cells, k) - {c};
    }
    if RowAt(cells, k) - {c} != {} {
      var d :| d in RowAt(cells, k) - {c};
      assert Spot(k, d) in rest;
    }
    forall d: nat
      ensures d in RowAt(rest, k) <==> d in RowAt(cells, k) - {c}
    {
      assert Spot(k, d) in rest <==> Spot(k, d) in cells && d != c;
    }
  }
}
