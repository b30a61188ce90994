/** The facts behind expanding a cube: raising parts of it, lowering the others,
    and the OFF-set cubes that are in the way. */
module Raising {
  import opened Cubes
  import opened Counting
  import opened Unravel
  import Cores
  import Covering
  import Stars

  // ---- lowering

  /** xlower with the parts of a in every variable where a and b clash. */
  function ForceLower(s: Space, xlower: Cube, a: Cube, b: Cube): (x: Cube)
    ensures forall p :: p in x <==> p in xlower || (p in a && p.v in Clashes(s, a, b))
  {
    xlower + set p | p in a && p.v in Clashes(s, a, b)
  }

  /** Raising one part can only resolve the clash in its own variable. */
  lemma ClashesAdd(s: Space, q: Cube, raise: Cube, p: Part)
    requires p in Full(s)
    ensures Clashes(s, q, raise + {p}) == if p in q then Clashes(s, q, raise) - {p.v} else Clashes(s, q, raise)
  {
    forall v: nat | v < |s.sizes|
      ensures v in Clashes(s, q, raise + {p}) <==> v in Clashes(s, q, raise) && !(p in q && v == p.v)
    {
      if p in q && v == p.v {
        assert p in q * (raise + {p}) * Mask(s, v);
      } else {
        assert q * (raise + {p}) * Mask(s, v) == q * raise * Mask(s, v);
      }
    }
  }

  lemma NoClash(s: Space, q: Cube, raise: Cube)
    ensures Distance(s, q, raise) == 0 <==> Meets(s, q, raise)
  {
  }

  /** At distance two or more, no single part makes the cubes meet. */
  lemma FarStays(s: Space, q: Cube, raise: Cube, p: Part)
    requires p in Full(s) && Distance(s, q, raise) > 1
    ensures !Meets(s, q, raise + {p})
  {
    ClashesAdd(s, q, raise, p);
    if Clashes(s, q, raise) - {p.v} == {} {
      assert Clashes(s, q, raise) <= {p.v};
      SubsetCard(Clashes(s, q, raise), {p.v});
    }
  }

  /** At distance one, the parts forced low are exactly those that would make the
      cubes meet. */
  lemma NearLowers(s: Space, q: Cube, raise: Cube, xlower: Cube, p: Part)
    requires p in Full(s) && Distance(s, q, raise) == 1
    ensures p in ForceLower(s, xlower, q, raise) <==> p in xlower || Meets(s, q, raise + {p})
  {
    ClashesAdd(s, q, raise, p);
    var v := Member(Clashes(s, q, raise));
    if p in q && p.v in Clashes(s, q, raise) {
      forall u | u in Clashes(s, q, raise)
        ensures u == p.v
      {
        SingletonCard(Clashes(s, q, raise), p.v, u);
      }
      assert Clashes(s, q, raise) - {p.v} == {};
    }
    if Meets(s, q, raise + {p}) {
      assert v in Clashes(s, q, raise) && v !in Clashes(s, q, raise + {p});
    }
  }

  /** Once those parts are gone, the cubes cannot meet any more. */
  lemma LoweredApart(s: Space, q: Cube, raise: Cube, free: Cube)
    requires Distance(s, q, raise) == 1
    requires forall p :: p in free ==> !(p in q && p.v in Clashes(s, q, raise))
    ensures !Meets(s, q, raise + free)
  {
    var v := Member(Clashes(s, q, raise));
    forall p | p in q && p in Mask(s, v)
      ensures p !in raise + free
    {
      assert p !in q * raise * Mask(s, v);
    }
    assert v in Clashes(s, q, raise + free);
  }

  // ---- the OFF-set cubes in the way and the ON-set cubes in reach

  /** The part, or cube, would run into some OFF-set cube. */
  ghost predicate Blocked(s: Space, off: seq<Cube>, raise: Cube, c: Cube) {
    exists j :: 0 <= j < |off| && Meets(s, off[j], raise + c)
  }

  /** No OFF-set cube meets c. */
  ghost predicate Clear(s: Space, off: seq<Cube>, c: Cube) {
    forall j :: 0 <= j < |off| ==> !Meets(s, off[j], c)
  }

  /** The OFF-set cubes no longer active are out of reach of upper. */
  ghost predicate Cleared(s: Space, off: seq<Cube>, active: seq<bool>, upper: Cube)
    requires |active| == |off|
  {
    forall j :: 0 <= j < |off| && !active[j] ==> !Meets(s, off[j], upper)
  }

  /** The active OFF-set cubes are in reach of upper. */
  ghost predicate Near(s: Space, off: seq<Cube>, active: seq<bool>, upper: Cube)
    requires |active| == |off|
  {
    forall j :: 0 <= j < |off| && active[j] && NonVoid(s, off[j]) ==> Meets(s, off[j], upper)
  }

  /** The active ON-set cubes lie inside upper. */
  ghost predicate Reach(on: seq<Cube>, active: seq<bool>, upper: Cube)
    requires |active| == |on|
  {
    forall i :: 0 <= i < |on| && active[i] ==> on[i] <= upper
  }

  /** The active OFF-set cubes do not meet raise. */
  ghost predicate Apart(s: Space, off: seq<Cube>, active: seq<bool>, raise: Cube)
    requires |active| == |off|
  {
    forall j :: 0 <= j < |off| && active[j] ==> !Meets(s, off[j], raise)
  }

  /** The active OFF-set cubes are at distance two or more. */
  ghost predicate Far(s: Space, off: seq<Cube>, active: seq<bool>, raise: Cube)
    requires |active| == |off|
  {
    forall j :: 0 <= j < |off| && active[j] ==> Distance(s, off[j], raise) > 1
  }

  /** Every active ON-set cube would run into the OFF-set. */
  ghost predicate AllBlocked(s: Space, off: seq<Cube>, on: seq<Cube>, active: seq<bool>, raise: Cube)
    requires |active| == |on|
  {
    forall i :: 0 <= i < |on| && active[i] ==> Blocked(s, off, raise, on[i])
  }

  lemma FarApart(s: Space, off: seq<Cube>, active: seq<bool>, raise: Cube)
    requires |active| == |off| && Far(s, off, active, raise)
    ensures Apart(s, off, active, raise)
  {
  }

  lemma ClearNow(s: Space, off: seq<Cube>, active: seq<bool>, raise: Cube, upper: Cube)
    requires |active| == |off| && Cleared(s, off, active, upper) && Apart(s, off, active, raise) && raise <= upper
    ensures Clear(s, off, raise)
  {
    hide Meets;
    forall j | 0 <= j < |off|
      ensures !Meets(s, off[j], raise)
    {
      if Meets(s, off[j], raise) {
        MeetsMonotone(s, off[j], raise, off[j], upper);
      }
    }
  }

  lemma ClearedShrinks(s: Space, off: seq<Cube>, active: seq<bool>, upper: Cube, upper': Cube)
    requires |active| == |off| && Cleared(s, off, active, upper) && upper' <= upper
    ensures Cleared(s, off, active, upper')
  {
    hide Meets;
    forall j | 0 <= j < |off| && !active[j]
      ensures !Meets(s, off[j], upper')
    {
      if Meets(s, off[j], upper') {
        MeetsMonotone(s, off[j], upper', off[j], upper);
      }
    }
  }

  /** Raising a part of free that is not blocked keeps the OFF-set away. */
  lemma FarRaise(s: Space, off: seq<Cube>, active: seq<bool>, raise: Cube, p: Part)
    requires |active| == |off| && Far(s, off, active, raise) && p in Full(s)
    ensures Apart(s, off, active, raise + {p})
  {
    hide Meets, Distance, Full;
    forall j | 0 <= j < |off| && active[j]
      ensures !Meets(s, off[j], raise + {p})
    {
      FarStays(s, off[j], raise, p);
    }
  }

  lemma BlockedGrows(s: Space, off: seq<Cube>, raise: Cube, raise': Cube, c: Cube)
    requires Blocked(s, off, raise, c) && raise <= raise'
    ensures Blocked(s, off, raise', c)
  {
    hide Meets;
    var j :| 0 <= j < |off| && Meets(s, off[j], raise + c);
    MeetsMonotone(s, off[j], raise + c, off[j], raise' + c);
  }

  lemma AllBlockedGrows(s: Space, off: seq<Cube>, on: seq<Cube>, active: seq<bool>, raise: Cube, active': seq<bool>,
      raise': Cube)
    requires |active| == |on| == |active'| && AllBlocked(s, off, on, active, raise) && raise <= raise'
    requires forall i :: 0 <= i < |on| && active'[i] ==> active[i]
    ensures AllBlocked(s, off, on, active', raise')
  {
    hide Blocked;
    forall i | 0 <= i < |on| && active'[i]
      ensures Blocked(s, off, raise', on[i])
    {
      BlockedGrows(s, off, raise, raise', on[i]);
    }
  }

  /** A blocked cube in reach leaves something to raise. */
  lemma BlockedLeavesFree(s: Space, off: seq<Cube>, raise: Cube, free: Cube, c: Cube)
    requires Clear(s, off, raise) && Blocked(s, off, raise, c) && c <= raise + free
    ensures free != {}
  {
    hide Meets;
    assert free == {} ==> raise + c == raise;
  }

  // ---- one round over the OFF-set

  /** All the parts of q that would make it meet raise are lowered. */
  ghost predicate Lowered(s: Space, q: Cube, raise: Cube, xlower: Cube) {
    Distance(s, q, raise) == 1 && forall p :: p in q && p.v in Clashes(s, q, raise) ==> p in xlower
  }

  /** The state of the round after k OFF-set cubes: who is still active, and which
      parts are to be lowered. */
  ghost predicate Round(s: Space, off: seq<Cube>, active0: seq<bool>, active: seq<bool>, raise: Cube, free: Cube,
      k: nat, xlower: Cube)
    requires |active0| == |active| == |off|
  {
    && k <= |off|
    && (forall j :: k <= j < |off| ==> active[j] == active0[j])
    && (forall j :: 0 <= j < k && active[j] ==> active0[j] && Distance(s, off[j], raise) > 1)
    && (forall j :: 0 <= j < k ==> !Meets(s, off[j], raise))
    && (forall p :: p in free ==> (p in xlower <==> Blocked(s, off[..k], raise, {p})))
    && (forall j :: 0 <= j < k && !active[j] && active0[j] ==> Lowered(s, off[j], raise, xlower))
  }

  lemma RoundStart(s: Space, off: seq<Cube>, active: seq<bool>, raise: Cube, free: Cube)
    requires |active| == |off|
    ensures Round(s, off, active, active, raise, free, 0, {})
  {
  }

  lemma BlockedMore(s: Space, off: seq<Cube>, k: nat, raise: Cube, c: Cube)
    requires k < |off|
    ensures Blocked(s, off[..k + 1], raise, c) <==> Blocked(s, off[..k], raise, c) || Meets(s, off[k], raise + c)
  {
    hide Meets;
    var a, b := off[..k], off[..k + 1];
    if j :| 0 <= j < |a| && Meets(s, a[j], raise + c) {
      assert Meets(s, b[j], raise + c);
    }
    if Meets(s, off[k], raise + c) {
      assert Meets(s, b[k], raise + c);
    }
    if j :| 0 <= j < |b| && Meets(s, b[j], raise + c) && j < k {
      assert Meets(s, a[j], raise + c);
    }
  }

  /** The next cube is not active: it is out of reach. */
  lemma RoundSkip(s: Space, off: seq<Cube>, active0: seq<bool>, active: seq<bool>, raise: Cube, free: Cube, k: nat,
      xlower: Cube)
    requires |active0| == |active| == |off| && k < |off|
    requires Round(s, off, active0, active, raise, free, k, xlower)
    requires !active0[k] && Cleared(s, off, active0, raise + free)
    ensures Round(s, off, active0, active, raise, free, k + 1, xlower)
  {
    hide Meets, Distance, Blocked;
    forall c | c <= free
      ensures !Meets(s, off[k], raise + c)
    {
      if Meets(s, off[k], raise + c) {
        MeetsMonotone(s, off[k], raise + c, off[k], raise + free);
      }
    }
    assert raise + {} == raise;
    forall p | p in free
      ensures Blocked(s, off[..k + 1], raise, {p}) <==> Blocked(s, off[..k], raise, {p})
    {
      BlockedMore(s, off, k, raise, {p});
    }
  }

  /** The next cube is at distance two or more: nothing happens. */
  lemma RoundFar(s: Space, off: seq<Cube>, active0: seq<bool>, active: seq<bool>, raise: Cube, free: Cube, k: nat,
      xlower: Cube)
    requires |active0| == |active| == |off| && k < |off| && free <= Full(s)
    requires Round(s, off, active0, active, raise, free, k, xlower)
    requires active0[k] && Distance(s, off[k], raise) > 1
    ensures Round(s, off, active0, active, raise, free, k + 1, xlower)
  {
    hide Meets, Distance, Blocked, Full;
    NoClash(s, off[k], raise);
    forall p | p in free
      ensures Blocked(s, off[..k + 1], raise, {p}) <==> Blocked(s, off[..k], raise, {p})
    {
      BlockedMore(s, off, k, raise, {p});
      FarStays(s, off[k], raise, p);
    }
  }

  /** The next cube is at distance one: its parts in the clashing variable are
      lowered, and it need not be looked at again. */
  lemma RoundNear(s: Space, off: seq<Cube>, active0: seq<bool>, active: seq<bool>, raise: Cube, free: Cube, k: nat,
      xlower: Cube)
    requires |active0| == |active| == |off| && k < |off| && free <= Full(s)
    requires Round(s, off, active0, active, raise, free, k, xlower)
    requires active0[k] && Distance(s, off[k], raise) == 1
    ensures Round(s, off, active0, active[k := false], raise, free, k + 1, ForceLower(s, xlower, off[k], raise))
  {
    hide Meets, Distance, Blocked, Full;
    NoClash(s, off[k], raise);
    forall p | p in free
      ensures p in ForceLower(s, xlower, off[k], raise) <==> Blocked(s, off[..k + 1], raise, {p})
    {
      BlockedMore(s, off, k, raise, {p});
      NearLowers(s, off[k], raise, xlower, p);
    }
  }

  /** What the whole round achieves. */
  lemma RoundEnd(s: Space, off: seq<Cube>, active0: seq<bool>, active: seq<bool>, raise: Cube, free: Cube, xlower: Cube)
    requires |active0| == |active| == |off| && Cleared(s, off, active0, raise + free)
    requires Round(s, off, active0, active, raise, free, |off|, xlower)
    ensures Far(s, off, active, raise)
    ensures Apart(s, off, active0, raise)
    ensures Cleared(s, off, active, raise + (free - xlower))
    ensures forall p :: p in free ==> (p in free - xlower <==> !Blocked(s, off, raise, {p}))
    ensures forall j :: 0 <= j < |off| && active[j] ==> active0[j]
    ensures forall j :: 0 <= j < |off| && active0[j] && !active[j] ==> Distance(s, off[j], raise) == 1
  {
    hide Meets, Distance, Blocked;
    assert off[..|off|] == off;
    forall j | 0 <= j < |off| && !active[j]
      ensures !Meets(s, off[j], raise + (free - xlower))
    {
      if active0[j] {
        LoweredApart(s, off[j], raise, free - xlower);
      } else if Meets(s, off[j], raise + (free - xlower)) {
        MeetsMonotone(s, off[j], raise + (free - xlower), off[j], raise + free);
      }
    }
  }

  lemma SomeActive(flags: seq<bool>, k: nat)
    requires k < |flags| && flags[k]
    ensures CountTrue(flags) > 0
  {
  }

  lemma ElimKeeps(s: Space, off: seq<Cube>, active0: seq<bool>, active: seq<bool>, upper: Cube)
    requires |active0| == |active| == |off| && Cleared(s, off, active0, upper)
    requires forall j :: 0 <= j < |off| ==> (active[j] <==> active0[j] && Meets(s, off[j], upper))
    ensures Cleared(s, off, active, upper) && Near(s, off, active, upper)
  {
    hide Meets;
  }

  lemma FarSubset(s: Space, off: seq<Cube>, active0: seq<bool>, active: seq<bool>, raise: Cube)
    requires |active0| == |active| == |off| && Far(s, off, active0, raise)
    requires forall j :: 0 <= j < |off| && active[j] ==> active0[j]
    ensures Far(s, off, active, raise)
  {
    hide Distance;
  }

  lemma NearSubset(s: Space, off: seq<Cube>, active0: seq<bool>, active: seq<bool>, upper: Cube)
    requires |active0| == |active| == |off| && Near(s, off, active0, upper)
    requires forall j :: 0 <= j < |off| && active[j] ==> active0[j]
    ensures Near(s, off, active, upper)
  {
    hide Meets, NonVoid;
  }

  lemma StartValid(s: Space, off: seq<Cube>, on: seq<Cube>, offActive: seq<bool>, onActive: seq<bool>, raise: Cube,
      free: Cube)
    requires |offActive| == |off| && |onActive| == |on| && forall j :: 0 <= j < |off| ==> offActive[j]
    requires raise <= Full(s) && free == Full(s) - raise
    requires forall j :: 0 <= j < |off| ==> off[j] <= Full(s)
    requires forall i :: 0 <= i < |on| ==> on[i] <= Full(s)
    ensures Cleared(s, off, offActive, raise + free)
    ensures Near(s, off, offActive, raise + free)
    ensures Reach(on, onActive, raise + free)
  {
    hide Full, Meets, NonVoid;
    assert raise + free == Full(s);
    forall j | 0 <= j < |off| && NonVoid(s, off[j])
      ensures Meets(s, off[j], raise + free)
    {
      NonVoidMeetsFull(s, off[j]);
    }
  }

  lemma NonVoidMeetsFull(s: Space, c: Cube)
    requires c <= Full(s) && NonVoid(s, c)
    ensures Meets(s, c, Full(s))
  {
    forall v | 0 <= v < |s.sizes|
      ensures v !in Clashes(s, c, Full(s))
    {
      assert c * Mask(s, v) != {};
      var p := Member(c * Mask(s, v));
      assert p in c * Full(s) * Mask(s, v);
    }
  }

  lemma RoundNow(s: Space, off: seq<Cube>, active0: seq<bool>, active: seq<bool>, raise: Cube, free: Cube, k: nat,
      xlower: Cube)
    requires |active0| == |active| == |off| && k < |off|
    requires Round(s, off, active0, active, raise, free, k, xlower)
    ensures active[k] == active0[k]
  {
  }

  // ---- parts no cube has, and parts that would hinder covering a cube

  /** Some active OFF-set cube before k has the part. */
  ghost predicate Seen(off: seq<Cube>, active: seq<bool>, k: nat, p: Part)
    requires |active| == |off|
  {
    exists j :: 0 <= j < k && j < |off| && active[j] && p in off[j]
  }

  lemma UnseenClashes(s: Space, q: Cube, raise: Cube, x: Cube)
    requires q !! x
    ensures Clashes(s, q, raise + x) == Clashes(s, q, raise)
  {
    assert q * (raise + x) == q * raise;
  }

  lemma UnseenFar(s: Space, off: seq<Cube>, active: seq<bool>, raise: Cube, x: Cube)
    requires |active| == |off| && forall p :: p in x ==> !Seen(off, active, |off|, p)
    ensures Far(s, off, active, raise) ==> Far(s, off, active, raise + x)
  {
    hide Clashes;
    forall j | 0 <= j < |off| && active[j]
      ensures Distance(s, off[j], raise + x) == Distance(s, off[j], raise)
    {
      UnseenClashes(s, off[j], raise, x);
    }
  }

  /** Some active OFF-set cube before k would meet r with the part added. */
  ghost predicate Hindered(s: Space, off: seq<Cube>, active: seq<bool>, k: nat, r: Cube, p: Part)
    requires |active| == |off|
  {
    exists j :: 0 <= j < k && j < |off| && active[j] && Meets(s, off[j], r + {p})
  }

  lemma NoneHindered(s: Space, off: seq<Cube>, active: seq<bool>, r: Cube)
    requires |active| == |off|
    ensures forall p :: !Hindered(s, off, active, 0, r, p)
  {
  }

  lemma HinderedMore(s: Space, off: seq<Cube>, active: seq<bool>, k: nat, r: Cube, p: Part)
    requires |active| == |off| && k < |off|
    ensures Hindered(s, off, active, k + 1, r, p) <==>
      Hindered(s, off, active, k, r, p) || (active[k] && Meets(s, off[k], r + {p}))
  {
    hide Meets;
  }

  lemma HinderedSkip(s: Space, off: seq<Cube>, active: seq<bool>, k: nat, r: Cube)
    requires |active| == |off| && k < |off| && !active[k]
    ensures forall p :: Hindered(s, off, active, k + 1, r, p) <==> Hindered(s, off, active, k, r, p)
  {
    hide Hindered, Meets;
    forall p
      ensures Hindered(s, off, active, k + 1, r, p) <==> Hindered(s, off, active, k, r, p)
    {
      HinderedMore(s, off, active, k, r, p);
    }
  }

  lemma HinderedFar(s: Space, off: seq<Cube>, active: seq<bool>, k: nat, r: Cube)
    requires |active| == |off| && k < |off| && active[k] && Distance(s, off[k], r) > 1
    ensures forall p :: p in Full(s) ==> (Hindered(s, off, active, k + 1, r, p) <==> Hindered(s, off, active, k, r, p))
  {
    hide Hindered, Meets, Full, Distance;
    forall p | p in Full(s)
      ensures Hindered(s, off, active, k + 1, r, p) <==> Hindered(s, off, active, k, r, p)
    {
      HinderedMore(s, off, active, k, r, p);
      FarStays(s, off[k], r, p);
    }
  }

  lemma HinderedNear(s: Space, off: seq<Cube>, active: seq<bool>, k: nat, r: Cube, lower: Cube)
    requires |active| == |off| && k < |off| && active[k] && Distance(s, off[k], r) == 1
    requires forall p :: p in Full(s) ==> (p in lower <==> Hindered(s, off, active, k, r, p))
    ensures forall p :: p in Full(s) ==>
      (p in ForceLower(s, lower, off[k], r) <==> Hindered(s, off, active, k + 1, r, p))
  {
    hide Hindered, Meets, Full, Distance, ForceLower;
    forall p | p in Full(s)
      ensures p in ForceLower(s, lower, off[k], r) <==> Hindered(s, off, active, k + 1, r, p)
    {
      HinderedMore(s, off, active, k, r, p);
      NearLowers(s, off[k], r, lower, p);
    }
  }

  /** Parts forced low lie outside the cube they are computed for. */
  lemma LowerOutside(s: Space, lower: Cube, q: Cube, raise: Cube, c: Cube)
    requires lower <= Full(s) && lower !! c && q <= Full(s)
    ensures ForceLower(s, lower, q, raise + c) <= Full(s)
    ensures ForceLower(s, lower, q, raise + c) !! c
  {
    hide Full;
    forall p | p in q && p.v in Clashes(s, q, raise + c)
      ensures p !in c
    {
      assert p in Full(s);
      InMask(s, p);
      assert p !in q * (raise + c) * Mask(s, p.v);
    }
  }

  lemma InMask(s: Space, p: Part)
    requires p in Full(s)
    ensures p.v < |s.sizes| && p in Mask(s, p.v)
  {
  }

  lemma ApartBlocked(s: Space, off: seq<Cube>, active: seq<bool>, raise: Cube, c: Cube)
    requires |active| == |off|
    ensures Apart(s, off, active, raise + c) || Blocked(s, off, raise, c)
  {
    hide Meets;
  }

  // ---- covering ON-set cubes

  /** The kept cubes are active, not yet covered, and could be covered without
      running into an active OFF-set cube; what that would lower lies outside. */
  ghost predicate Feasible(s: Space, off: seq<Cube>, offActive: seq<bool>, on: seq<Cube>, onActive: seq<bool>,
      raise: Cube, kept: seq<nat>, lower: seq<Cube>) {
    && |offActive| == |off| && |onActive| == |on| && |lower| == |kept|
    && (forall k :: 0 <= k < |kept| ==> kept[k] < |on| && onActive[kept[k]] && !(on[kept[k]] <= raise))
    && (forall k :: 0 <= k < |kept| ==> Apart(s, off, offActive, raise + on[kept[k]]) && lower[k] !! on[kept[k]])
  }

  /** The active cubes listed in feas that lie inside raise have been taken. */
  ghost predicate Taken(on: seq<Cube>, raise: Cube, feas: seq<nat>, active0: seq<bool>, active: seq<bool>,
      covered0: seq<bool>, covered: seq<bool>) {
    && |active0| == |active| == |covered0| == |covered| == |on|
    && forall i :: 0 <= i < |on| ==>
         (if i in feas && active0[i] && on[i] <= raise then covered[i] && !active[i]
          else covered[i] == covered0[i] && active[i] == active0[i])
  }

  lemma TakenStart(on: seq<Cube>, raise: Cube, active: seq<bool>, covered: seq<bool>)
    requires |active| == |covered| == |on|
    ensures Taken(on, raise, [], active, active, covered, covered)
  {
  }

  lemma TakenStep(on: seq<Cube>, raise: Cube, feas: seq<nat>, i: nat, active0: seq<bool>, active: seq<bool>,
      covered0: seq<bool>, covered: seq<bool>)
    requires Taken(on, raise, feas, active0, active, covered0, covered) && i < |on|
    ensures active[i] && on[i] <= raise ==>
      Taken(on, raise, feas + [i], active0, active[i := false], covered0, covered[i := true])
    ensures !(active[i] && on[i] <= raise) ==> Taken(on, raise, feas + [i], active0, active, covered0, covered)
  {
  }

  /** How many of the first n kept cubes the parts in x do not touch. */
  function Compatible(on: seq<Cube>, kept: seq<nat>, n: nat, x: Cube): nat
    requires n <= |kept| && forall k :: 0 <= k < |kept| ==> kept[k] < |on|
  {
    if n == 0 then 0 else Compatible(on, kept, n - 1, x) + if x !! on[kept[n - 1]] then 1 else 0
  }

  /** After covering the b-th feasible cube as many of them stay feasible as after any
      other, and of those cubes it has the fewest parts to raise. */
  ghost predicate BestOf(on: seq<Cube>, kept: seq<nat>, lower: seq<Cube>, free: Cube, b: nat)
    requires |kept| == |lower| && forall k :: 0 <= k < |kept| ==> kept[k] < |on|
  {
    && b < |kept|
    && (forall k :: 0 <= k < |kept| ==>
          Compatible(on, kept, |kept|, lower[k]) <= Compatible(on, kept, |kept|, lower[b]))
    && (forall k ::
          0 <= k < |kept| && Compatible(on, kept, |kept|, lower[k]) == Compatible(on, kept, |kept|, lower[b]) ==>
            |on[kept[b]] * free| <= |on[kept[k]] * free|)
  }

  lemma {:induction false} CompatibleSelf(on: seq<Cube>, kept: seq<nat>, n: nat, x: Cube, i: nat)
    requires i < n <= |kept| && (forall k :: 0 <= k < |kept| ==> kept[k] < |on|) && x !! on[kept[i]]
    ensures Compatible(on, kept, n, x) > 0
  {
    if i < n - 1 {
      CompatibleSelf(on, kept, n - 1, x, i);
    }
  }

  /** Every active cube is still listed, or would run into the OFF-set. */
  ghost predicate Pending(s: Space, off: seq<Cube>, on: seq<Cube>, active: seq<bool>, raise: Cube, feas: seq<nat>)
    requires |active| == |on|
  {
    forall i :: 0 <= i < |on| && active[i] ==> i in feas || Blocked(s, off, raise, on[i])
  }

  lemma PendingStep(s: Space, off: seq<Cube>, on: seq<Cube>, active0: seq<bool>, active: seq<bool>, raise0: Cube,
      raise: Cube, feas: seq<nat>, kept: seq<nat>)
    requires |active0| == |active| == |on| && Pending(s, off, on, active0, raise0, feas) && raise0 <= raise
    requires forall i :: 0 <= i < |on| && active[i] ==> active0[i]
    requires forall i :: 0 <= i < |on| && active[i] && i in feas ==> i in kept || Blocked(s, off, raise, on[i])
    ensures Pending(s, off, on, active, raise, kept)
  {
    hide Blocked;
    forall i | 0 <= i < |on| && active[i]
      ensures i in kept || Blocked(s, off, raise, on[i])
    {
      if Blocked(s, off, raise0, on[i]) {
        BlockedGrows(s, off, raise0, raise, on[i]);
      }
    }
  }

  /** p is a part of an OFF-set cube in a variable where that does not meet c. */
  ghost predicate Reasoned(s: Space, off: seq<Cube>, c: Cube, p: Part) {
    exists j :: 0 <= j < |off| && p in off[j] && p.v in Clashes(s, off[j], c)
  }

  /** Why parts of upper0 are not in upper any more: each is a part of an OFF-set cube
      in a variable where that does not meet c, and it makes raise run into the
      OFF-set, or was chosen in the covering. */
  ghost predicate Lost(s: Space, off: seq<Cube>, c: Cube, raise: Cube, chosen: Cube, upper0: Cube, upper: Cube) {
    forall p :: p in upper0 && p !in upper ==>
      Reasoned(s, off, c, p) && (Blocked(s, off, raise, {p}) || p in chosen)
  }

  /** Everything outside fixed is raised but for parts that have a reason: each is a
      part of an OFF-set cube in a variable where that did not meet c, and it makes
      raise run into the OFF-set, or is one of at most 500 chosen in the covering. */
  ghost predicate Grounded(s: Space, off: seq<Cube>, c: Cube, raise: Cube, fixed: Cube) {
    exists chosen: Cube :: |chosen| <= 500 && Lost(s, off, c, raise, chosen, Full(s) - fixed, raise)
  }

  lemma GroundedNow(s: Space, off: seq<Cube>, c: Cube, raise: Cube, fixed: Cube, chosen: Cube)
    requires |chosen| <= 500 && Lost(s, off, c, raise, chosen, c + (Full(s) - fixed), raise)
    ensures Grounded(s, off, c, raise, fixed)
  {
    hide Full, Blocked, Reasoned;
    assert Lost(s, off, c, raise, chosen, Full(s) - fixed, raise);
  }

  lemma LostRaised(s: Space, off: seq<Cube>, c: Cube, raise0: Cube, raise: Cube, chosen: Cube, upper0: Cube,
      upper: Cube)
    requires Lost(s, off, c, raise0, chosen, upper0, upper) && raise0 <= raise
    ensures Lost(s, off, c, raise, chosen, upper0, upper)
  {
    hide Blocked, Reasoned;
    forall p | p in upper0 && p !in upper
      ensures Blocked(s, off, raise, {p}) || p in chosen
    {
      if Blocked(s, off, raise0, {p}) {
        BlockedGrows(s, off, raise0, raise, {p});
      }
    }
  }

  lemma StillBlocked(s: Space, off: seq<Cube>, on: seq<Cube>, raise0: Cube, raise: Cube)
    requires raise0 <= raise
    ensures forall i :: 0 <= i < |on| && Blocked(s, off, raise0, on[i]) ==> Blocked(s, off, raise, on[i])
  {
    hide Blocked;
    forall i | 0 <= i < |on| && Blocked(s, off, raise0, on[i])
      ensures Blocked(s, off, raise, on[i])
    {
      BlockedGrows(s, off, raise0, raise, on[i]);
    }
  }

  lemma NothingLost(s: Space, off: seq<Cube>, c: Cube, raise: Cube, upper0: Cube, upper: Cube)
    requires upper0 <= upper
    ensures Lost(s, off, c, raise, {}, upper0, upper)
  {
  }

  lemma ReasonedGrows(s: Space, off: seq<Cube>, c: Cube, c': Cube, p: Part)
    requires Reasoned(s, off, c', p) && c <= c'
    ensures Reasoned(s, off, c, p)
  {
    var j :| 0 <= j < |off| && p in off[j] && p.v in Clashes(s, off[j], c');
    assert off[j] * c * Mask(s, p.v) <= off[j] * c' * Mask(s, p.v);
  }

  lemma LostTrans(s: Space, off: seq<Cube>, c: Cube, c1: Cube, raise1: Cube, raise: Cube, chosen: Cube, upper0: Cube,
      upper1: Cube, upper: Cube)
    requires Lost(s, off, c, raise1, {}, upper0, upper1) && Lost(s, off, c1, raise, chosen, upper1, upper)
    requires c <= c1 && raise1 <= raise
    ensures Lost(s, off, c, raise, chosen, upper0, upper)
  {
    hide Blocked, Reasoned;
    forall p | p in upper0 && p !in upper
      ensures Reasoned(s, off, c, p) && (Blocked(s, off, raise, {p}) || p in chosen)
    {
      if p in upper1 {
        ReasonedGrows(s, off, c, c1, p);
      } else {
        BlockedGrows(s, off, raise1, raise, {p});
      }
    }
  }

  /** The parts that essen_parts takes away. */
  lemma LostBlocked(s: Space, off: seq<Cube>, active: seq<bool>, raise: Cube, free0: Cube, free: Cube)
    requires |active| == |off| && Cleared(s, off, active, raise + free0) && Apart(s, off, active, raise)
    requires forall p :: p in free0 ==> (p in free <==> !Blocked(s, off, raise, {p}))
    ensures Lost(s, off, raise, raise, {}, raise + free0, raise + free)
  {
    hide Meets;
    forall p | p in raise + free0 && p !in raise + free
      ensures Reasoned(s, off, raise, p)
    {
      var j :| 0 <= j < |off| && Meets(s, off[j], raise + {p});
      if !active[j] {
        MeetsMonotone(s, off[j], raise + {p}, off[j], raise + free0);
      }
      MeetsBy(s, off[j], raise, p);
    }
  }

  lemma MeetsBy(s: Space, q: Cube, raise: Cube, p: Part)
    requires Meets(s, q, raise + {p}) && !Meets(s, q, raise)
    ensures p in q && p.v in Clashes(s, q, raise)
  {
    var v := Member(Clashes(s, q, raise));
    assert v !in Clashes(s, q, raise + {p});
    var x := Member(q * (raise + {p}) * Mask(s, v));
    assert x !in q * raise * Mask(s, v);
  }

  /** The parts that the covering takes away. */
  lemma LostChosen(s: Space, off: seq<Cube>, raise: Cube, free: Cube, B: seq<Cube>, N: seq<Cube>, xlower: Cube)
    requires forall i :: 0 <= i < |B| ==> IsLowerSet(s, off, raise, B[i])
    requires AllUnravelled(s, B, s.numBinary, N) && forall p :: p in xlower ==> InSome(N, p)
    ensures Lost(s, off, raise, raise + (free - xlower), xlower, raise + free, raise + (free - xlower))
  {
    hide Thread, HasThreads, Blocked;
    forall p | p in raise + free && p !in raise + (free - xlower)
      ensures Reasoned(s, off, raise, p)
    {
      assert InSome(N, p);
      var k :| 0 <= k < |N| && p in N[k];
      assert N[k] in N;
      var i :| 0 <= i < |B| && Thread(s, B[i], s.numBinary, |s.sizes|, N[k]);
      ThreadInside(s, B[i], s.numBinary, N[k]);
      assert IsLowerSet(s, off, raise, B[i]);
      var j :| 0 <= j < |off| && B[i] == ForceLower(s, {}, off[j], raise);
    }
  }

  /** A candidate that was not covered would make raise run into the OFF-set, or has a
      part outside upper0. */
  lemma NotCoveredWhy(s: Space, off: seq<Cube>, on: seq<Cube>, c: Cube, raise: Cube, upper0: Cube, upper: Cube,
      active0: seq<bool>, active: seq<bool>, covered0: seq<bool>, covered: seq<bool>)
    requires CoveredInside(on, raise, upper, active0, active, covered0, covered)
    requires Lost(s, off, c, raise, {}, upper0, upper) && forall i :: 0 <= i < |on| ==> !active[i]
    ensures forall i :: 0 <= i < |on| && active0[i] ==>
      covered[i] || Blocked(s, off, raise, on[i]) || !(on[i] <= upper0)
  {
    hide Meets, Reasoned, Blocked;
    forall i | 0 <= i < |on| && active0[i] && !covered[i] && on[i] <= upper0
      ensures Blocked(s, off, raise, on[i])
    {
      var p :| p in on[i] && p !in upper;
      assert Blocked(s, off, raise, {p});
      BlockedWider(s, off, raise, {p}, on[i]);
    }
  }

  lemma BlockedWider(s: Space, off: seq<Cube>, raise: Cube, a: Cube, b: Cube)
    requires Blocked(s, off, raise, a) && a <= b
    ensures Blocked(s, off, raise, b)
  {
    hide Meets;
    var j :| 0 <= j < |off| && Meets(s, off[j], raise + a);
    MeetsMonotone(s, off[j], raise + a, off[j], raise + b);
  }

  /** The newly covered cubes were active and lie inside raise; a cube that is not
      active any more is covered, or does not lie inside upper. */
  ghost predicate CoveredInside(on: seq<Cube>, raise: Cube, upper: Cube, active0: seq<bool>, active: seq<bool>,
      covered0: seq<bool>, covered: seq<bool>) {
    && |active0| == |active| == |covered0| == |covered| == |on|
    && (forall i :: 0 <= i < |on| && active0[i] && !active[i] ==> covered[i] || !(on[i] <= upper))
    && (forall i :: 0 <= i < |on| && active[i] ==> active0[i])
    && (forall i :: 0 <= i < |on| && covered[i] ==> covered0[i] || (active0[i] && on[i] <= raise))
    && (forall i :: 0 <= i < |on| && covered0[i] ==> covered[i])
  }

  lemma TakenInside(on: seq<Cube>, raise: Cube, feas: seq<nat>, active0: seq<bool>, active: seq<bool>,
      covered0: seq<bool>, covered: seq<bool>)
    requires Taken(on, raise, feas, active0, active, covered0, covered)
    ensures forall upper :: CoveredInside(on, raise, upper, active0, active, covered0, covered)
    ensures forall i :: 0 <= i < |on| && active[i] ==> active0[i]
  {
  }

  lemma CoveredTrans(on: seq<Cube>, raise0: Cube, raise: Cube, upper0: Cube, upper: Cube, active0: seq<bool>,
      active1: seq<bool>, active: seq<bool>, covered0: seq<bool>, covered1: seq<bool>, covered: seq<bool>)
    requires CoveredInside(on, raise0, upper0, active0, active1, covered0, covered1) && raise0 <= raise
    requires CoveredInside(on, raise, upper, active1, active, covered1, covered) && upper <= upper0
    ensures CoveredInside(on, raise, upper, active0, active, covered0, covered)
  {
  }

  lemma NonePending(s: Space, off: seq<Cube>, on: seq<Cube>, active: seq<bool>, raise: Cube)
    requires |active| == |on| && Pending(s, off, on, active, raise, [])
    ensures AllBlocked(s, off, on, active, raise)
  {
  }

  /** The cubes that can no longer be reached are dropped, and only those. */
  ghost predicate Dropped(on: seq<Cube>, upper: Cube, active0: seq<bool>, active: seq<bool>) {
    && |active0| == |active| == |on|
    && forall i :: 0 <= i < |on| ==> (active[i] ==> active0[i]) && (active0[i] && !active[i] ==> !(on[i] <= upper))
  }

  lemma StillDropped(on: seq<Cube>, upper: Cube, active0: seq<bool>, active: seq<bool>)
    requires Dropped(on, upper, active0, active)
    ensures |active| == |on| && forall i :: 0 <= i < |on| && active[i] ==> active0[i]
  {
  }

  lemma ActiveCounted(active: seq<bool>)
    ensures forall i :: 0 <= i < |active| && active[i] ==> CountTrue(active) > 0
  {
    forall i | 0 <= i < |active| && active[i]
      ensures CountTrue(active) > 0
    {
      SomeActive(active, i);
    }
  }

  lemma NoneActive(on: seq<Cube>, active: seq<bool>, count: nat)
    requires |active| == |on| && count == CountTrue(active) && count == 0
    ensures forall i :: 0 <= i < |on| ==> !active[i]
  {
    hide CountTrue;
    ActiveCounted(active);
  }

  lemma DroppedNone(on: seq<Cube>, upper: Cube, active0: seq<bool>, active: seq<bool>)
    requires |active0| == |active| == |on| && forall i :: 0 <= i < |on| ==> !active0[i]
    requires forall i :: 0 <= i < |on| && active[i] ==> active0[i]
    ensures Dropped(on, upper, active0, active)
  {
  }

  lemma InsideGrows(on: seq<Cube>, raise0: Cube, raise: Cube, upper0: Cube, upper: Cube, active00: seq<bool>,
      active0: seq<bool>, active: seq<bool>, covered0: seq<bool>, covered: seq<bool>)
    requires CoveredInside(on, raise0, upper0, active00, active0, covered0, covered) && raise0 <= raise
    requires Dropped(on, upper, active0, active) && upper <= upper0
    ensures CoveredInside(on, raise, upper, active00, active, covered0, covered)
  {
  }

  lemma SelectStart(s: Space, off: seq<Cube>, on: seq<Cube>, active: seq<bool>, covered: seq<bool>, raise: Cube,
      feas: seq<nat>)
    requires |active| == |covered| == |on| && forall i :: 0 <= i < |on| && active[i] ==> i in feas
    ensures Pending(s, off, on, active, raise, feas)
    ensures forall upper :: CoveredInside(on, raise, upper, active, active, covered, covered)
  {
  }

  lemma StrictlyFewer(raise: Cube, free: Cube, c: Cube)
    requires c <= raise + free && !(c <= raise) && raise !! free
    ensures |free - c| < |free|
  {
    var p :| p in c && p !in raise;
    assert p in free;
    SubsetCard(free - c, free - {p});
  }

  /** How many of the first n ON-set cubes are active and have the part. */
  function Frequency(on: seq<Cube>, active: seq<bool>, n: nat, p: Part): nat
    requires n <= |on| == |active|
  {
    if n == 0 then 0 else Frequency(on, active, n - 1, p) + if active[n - 1] && p in on[n - 1] then 1 else 0
  }

  /** No free part is in more active ON-set cubes. */
  ghost predicate MostOften(on: seq<Cube>, active: seq<bool>, free: Cube, best: Part)
    requires |on| == |active|
  {
    best in free && forall p :: p in free ==> Frequency(on, active, |on|, p) <= Frequency(on, active, |on|, best)
  }

  lemma AllBelow(s: Space, free: Cube)
    requires free <= Full(s)
    ensures forall p :: p in free ==> p.v < |s.sizes|
    ensures free != {} ==> exists p :: p in free
  {
    if free != {} {
      var p := Member(free);
    }
  }

  lemma FreePart(s: Space, free: Cube, p: Part)
    requires free <= Full(s) && p in free
    ensures p in Full(s)
  {
  }

  lemma LowerFull(s: Space, q: Cube, raise: Cube)
    requires q <= Full(s)
    ensures ForceLower(s, {}, q, raise) <= Full(s)
  {
    hide Full, Clashes;
  }

  // ---- the OFF-set cubes left at the end

  /** No OFF-set cube denotes anything. */
  ghost predicate AllVoid(s: Space, off: seq<Cube>) {
    forall j :: 0 <= j < |off| ==> !NonVoid(s, off[j])
  }

  /** The cubes with two empty variables or more. */
  function WideOnes(s: Space, off: seq<Cube>): (r: set<nat>)
    ensures forall j: nat :: j in r <==> j < |off| && Distance(s, off[j], Full(s)) > 1
  {
    set j: nat | j < |off| && Distance(s, off[j], Full(s)) > 1
  }

  /** The OFF-set denotes nothing, and more than 500 of its cubes have two empty
      variables or more: no part is ever lowered, and too many cubes stay active. */
  ghost predicate Stalls(s: Space, off: seq<Cube>) {
    AllVoid(s, off) && |WideOnes(s, off)| > 500
  }

  /** Once parts have been lowered, only OFF-set cubes in reach are active; before
      that, all those with two empty variables or more are.  Parts are lowered
      only by force or because an OFF-set cube denotes something. */
  ghost predicate Lasting(s: Space, off: seq<Cube>, active: seq<bool>, upper: Cube, forced: bool)
    requires |active| == |off|
  {
    || ((forall j :: 0 <= j < |off| && active[j] ==> Meets(s, off[j], upper)) && (AllVoid(s, off) ==> forced))
    || (!forced && upper == Full(s) && forall j :: j in WideOnes(s, off) ==> active[j])
  }

  lemma VoidApart(s: Space, q: Cube, c: Cube)
    requires Meets(s, q, c)
    ensures NonVoid(s, q)
  {
    forall v | 0 <= v < |s.sizes|
      ensures q * Mask(s, v) != {}
    {
      assert v !in Clashes(s, q, c);
      var p := Member(q * c * Mask(s, v));
      assert p in q * Mask(s, v);
    }
  }

  lemma AllVoidApart(s: Space, off: seq<Cube>, active: seq<bool>, c: Cube)
    requires |active| == |off| && AllVoid(s, off)
    ensures Apart(s, off, active, c)
  {
    hide Meets, NonVoid;
    forall j | 0 <= j < |off| && active[j]
      ensures !Meets(s, off[j], c)
    {
      if Meets(s, off[j], c) {
        VoidApart(s, off[j], c);
      }
    }
  }

  lemma LastingStart(s: Space, off: seq<Cube>, active: seq<bool>, raise: Cube)
    requires |active| == |off| && raise <= Full(s) && forall j :: 0 <= j < |off| ==> active[j]
    ensures Lasting(s, off, active, raise + (Full(s) - raise), false)
  {
    hide Full, Meets, AllVoid, WideOnes;
    assert raise + (Full(s) - raise) == Full(s);
  }

  lemma LastingReach(s: Space, off: seq<Cube>, active: seq<bool>, upper: Cube, forced: bool)
    requires |active| == |off| && (AllVoid(s, off) ==> forced)
    requires forall j :: 0 <= j < |off| && active[j] ==> Meets(s, off[j], upper)
    ensures Lasting(s, off, active, upper, forced)
  {
  }

  /** A pass that lowers nothing only drops cubes with at most one empty variable. */
  lemma LastingRound(s: Space, off: seq<Cube>, active0: seq<bool>, active: seq<bool>, raise: Cube, upper: Cube,
      forced: bool)
    requires |active0| == |active| == |off| && Lasting(s, off, active0, upper, forced) && raise <= Full(s)
    requires forall j :: 0 <= j < |off| && active[j] ==> active0[j]
    requires forall j :: 0 <= j < |off| && active0[j] && !active[j] ==> Distance(s, off[j], raise) == 1
    ensures Lasting(s, off, active, upper, forced)
  {
    hide Full, Meets, AllVoid, Distance;
    forall j: nat | j in WideOnes(s, off) && active0[j]
      ensures active[j]
    {
      FartherInside(s, off[j], raise);
    }
  }

  lemma FartherInside(s: Space, q: Cube, raise: Cube)
    requires raise <= Full(s)
    ensures Distance(s, q, Full(s)) <= Distance(s, q, raise)
  {
    forall v | v in Clashes(s, q, Full(s))
      ensures v in Clashes(s, q, raise)
    {
      assert q * raise * Mask(s, v) <= q * Full(s) * Mask(s, v);
    }
    SubsetCard(Clashes(s, q, Full(s)), Clashes(s, q, raise));
  }

  /** A void cube at distance one clashes where it is empty, so it forces no part
      low. */
  lemma VoidLowersNothing(s: Space, q: Cube, raise: Cube)
    requires q <= Full(s) && !NonVoid(s, q) && Distance(s, q, raise) == 1
    ensures ForceLower(s, {}, q, raise) == {}
  {
    var v :| 0 <= v < |s.sizes| && q * Mask(s, v) == {};
    assert q * raise * Mask(s, v) == {};
    SubsetCard({v}, Clashes(s, q, raise));
    forall p | p in q
      ensures p.v != v
    {
      assert p in q * Mask(s, p.v);
    }
  }

  lemma VoidLowersNoMore(s: Space, off: seq<Cube>, k: nat, raise: Cube, xlower: Cube)
    requires k < |off| && off[k] <= Full(s) && Distance(s, off[k], raise) == 1
    ensures AllVoid(s, off) && xlower == {} ==> ForceLower(s, xlower, off[k], raise) == {}
  {
    hide Full, NonVoid, Distance, ForceLower;
    if AllVoid(s, off) && xlower == {} {
      VoidLowersNothing(s, off[k], raise);
    }
  }

  /** The positions of the flags that are set. */
  function Where(flags: seq<bool>): (r: set<nat>)
    ensures forall j: nat :: j in r <==> j < |flags| && flags[j]
  {
    set j: nat | j < |flags| && flags[j]
  }

  lemma {:induction false} WhereCount(flags: seq<bool>)
    ensures |Where(flags)| == CountTrue(flags)
  {
    if flags == [] {
      assert Where(flags) == {};
    } else {
      WhereCount(flags[..|flags| - 1]);
      WhereLast(flags);
    }
  }

  lemma WhereLast(flags: seq<bool>)
    requires flags != []
    ensures |Where(flags)| == |Where(flags[..|flags| - 1])| + if flags[|flags| - 1] then 1 else 0
  {
    var n := |flags| - 1;
    var a := Where(flags[..n]);
    forall i: nat
      ensures i in Where(flags) <==> i in a || (i == n && flags[n])
    {
      assert i < n ==> flags[..n][i] == flags[i];
    }
    if flags[n] {
      assert Where(flags) == a + {n} && n !in a;
    } else {
      assert Where(flags) == a;
    }
  }

  /** Where the OFF-set stalls the expansion, more than 500 cubes are active. */
  lemma StalledActive(s: Space, off: seq<Cube>, active: seq<bool>, upper: Cube)
    requires |active| == |off| && Stalls(s, off) && Lasting(s, off, active, upper, false)
    ensures CountTrue(active) > 500
  {
    hide Full, Meets, AllVoid, CountTrue, WideOnes;
    WhereCount(active);
    assert WideOnes(s, off) <= Where(active) by {
      WideInside(s, off);
    }
    SubsetCard(WideOnes(s, off), Where(active));
  }

  lemma WideInside(s: Space, off: seq<Cube>)
    ensures forall j: nat :: j in WideOnes(s, off) ==> j < |off|
  {
  }

  /** With OFF-set cubes active nothing is free only once everything has been
      raised, and then the OFF-set denotes nothing and the active cubes have two
      empty variables or more. */
  lemma NothingFree(s: Space, off: seq<Cube>, active: seq<bool>, raise: Cube, forced: bool)
    requires |active| == |off| && Lasting(s, off, active, raise, forced) && Cleared(s, off, active, raise)
    requires Far(s, off, active, raise) && CountTrue(active) > 0
    requires forall j :: 0 <= j < |off| ==> off[j] <= Full(s)
    ensures !forced && raise == Full(s) && AllVoid(s, off) && |WideOnes(s, off)| >= CountTrue(active)
  {
    hide Full, Meets, NonVoid, Distance, CountTrue;
    FarApart(s, off, active, raise);
    WhereCount(active);
    var i := Member(Where(active));
    assert !Meets(s, off[i], raise);
    forall j | 0 <= j < |off|
      ensures !NonVoid(s, off[j])
    {
      if NonVoid(s, off[j]) {
        NonVoidMeetsFull(s, off[j]);
      }
    }
    SubsetCard(Where(active), WideOnes(s, off));
  }

  /** Against the full cube such an OFF-set cube leaves nothing to lower. */
  lemma FullLowersNothing(s: Space, q: Cube)
    requires q <= Full(s)
    ensures ForceLower(s, {}, q, Full(s)) == {}
  {
    forall p | p in q
      ensures p.v !in Clashes(s, q, Full(s))
    {
      assert p in q * Full(s) * Mask(s, p.v);
    }
  }

  /** The parts to lower for one of the OFF-set cubes. */
  ghost predicate IsLowerSet(s: Space, off: seq<Cube>, raise: Cube, b: Cube) {
    exists j :: 0 <= j < |off| && b == ForceLower(s, {}, off[j], raise)
  }

  /** B has, for each active OFF-set cube before n, the parts to lower for it, and
      nothing else. */
  ghost predicate LowersFor(s: Space, off: seq<Cube>, active: seq<bool>, raise: Cube, n: nat, B: seq<Cube>)
    requires |active| == |off| && n <= |off|
  {
    && (forall i :: 0 <= i < |B| ==> B[i] <= Full(s) && IsLowerSet(s, off, raise, B[i]))
    && (forall j :: 0 <= j < n && active[j] ==> ForceLower(s, {}, off[j], raise) in B)
    && |B| == CountTrue(active[..n])
  }

  lemma LowersStart(s: Space, off: seq<Cube>, active: seq<bool>, raise: Cube)
    requires |active| == |off|
    ensures LowersFor(s, off, active, raise, 0, [])
  {
  }

  lemma LowersStep(s: Space, off: seq<Cube>, active: seq<bool>, raise: Cube, n: nat, B: seq<Cube>)
    requires |active| == |off| && n < |off| && off[n] <= Full(s) && LowersFor(s, off, active, raise, n, B)
    ensures active[n] ==> LowersFor(s, off, active, raise, n + 1, B + [ForceLower(s, {}, off[n], raise)])
    ensures !active[n] ==> LowersFor(s, off, active, raise, n + 1, B)
  {
    hide Full, ForceLower, IsLowerSet;
    assert active[..n + 1][..n] == active[..n];
    LowerFull(s, off[n], raise);
    assert IsLowerSet(s, off, raise, ForceLower(s, {}, off[n], raise)) by { LowerSetAt(s, off, raise, n); }
  }

  /** The parts to lower for each active OFF-set cube before n, in their order. */
  function LowerSetsOf(s: Space, off: seq<Cube>, active: seq<bool>, raise: Cube, n: nat): seq<Cube>
    requires |active| == |off| && n <= |off|
  {
    if n == 0 then []
    else if active[n - 1] then LowerSetsOf(s, off, active, raise, n - 1) + [ForceLower(s, {}, off[n - 1], raise)]
    else LowerSetsOf(s, off, active, raise, n - 1)
  }

  lemma {:induction false} LowersAll(s: Space, off: seq<Cube>, active: seq<bool>, raise: Cube, n: nat)
    requires |active| == |off| && n <= |off| && forall j :: 0 <= j < |off| ==> off[j] <= Full(s)
    ensures LowersFor(s, off, active, raise, n, LowerSetsOf(s, off, active, raise, n))
  {
    hide Full, ForceLower, LowersFor;
    if n == 0 {
      LowersStart(s, off, active, raise);
    } else {
      LowersAll(s, off, active, raise, n - 1);
      LowersStep(s, off, active, raise, n - 1, LowerSetsOf(s, off, active, raise, n - 1));
    }
  }

  /** How many sets there are to meet once the sets of parts to lower are unravelled. */
  ghost function SetsToMeet(s: Space, off: seq<Cube>, active: seq<bool>, raise: Cube): nat
    requires |active| == |off|
  {
    Expansions(s, LowerSetsOf(s, off, active, raise, |off|), s.numBinary)
  }

  /** No part is lowered before the covering, and the sets to meet are not too many. */
  ghost predicate Quiet(s: Space, off: seq<Cube>, active: seq<bool>, raise: Cube, initLower: Cube)
    requires |active| == |off|
  {
    initLower == {} && Far(s, off, active, raise) && SetsToMeet(s, off, active, raise) <= 500
  }

  lemma QuietFew(s: Space, off: seq<Cube>, active: seq<bool>, raise: Cube, initLower: Cube)
    requires |active| == |off|
    ensures Quiet(s, off, active, raise, initLower) ==> SetsToMeet(s, off, active, raise) <= 500
  {
    hide SetsToMeet;
  }

  lemma MissingFree(s: Space, c: Cube, raise: Cube)
    requires c <= raise
    ensures Full(s) - raise == (Full(s) - c) - raise
  {
    hide Full;
  }

  /** Once no flag is set, dropping more sets none. */
  lemma StillSome(active: seq<bool>, active0: seq<bool>)
    requires |active| == |active0| && CountTrue(active) > 0
    requires forall i :: 0 <= i < |active| && active[i] ==> active0[i]
    ensures CountTrue(active0) > 0
  {
  }

  lemma FarAt(s: Space, off: seq<Cube>, active: seq<bool>, raise: Cube, k: nat)
    requires |active| == |off| && k < |off|
    ensures Far(s, off, active, raise) && active[k] ==> Distance(s, off[k], raise) > 1
  {
    hide Distance;
  }

  lemma FewerMissing(free0: Cube, raise: Cube, free: Cube)
    ensures |free0 - (raise + free)| <= |free0 - raise|
    ensures free0 <= raise + free ==> |free0 - (raise + free)| == 0
  {
    SubsetCard(free0 - (raise + free), free0 - raise);
    assert free0 <= raise + free ==> free0 - (raise + free) == {};
  }

  lemma LowerSetAt(s: Space, off: seq<Cube>, raise: Cube, n: nat)
    requires n < |off|
    ensures IsLowerSet(s, off, raise, ForceLower(s, {}, off[n], raise))
  {
  }

  lemma LowersEnd(s: Space, off: seq<Cube>, active: seq<bool>, raise: Cube, B: seq<Cube>)
    requires |active| == |off| && LowersFor(s, off, active, raise, |off|, B)
    ensures |B| == CountTrue(active)
    ensures forall i :: 0 <= i < |B| ==> B[i] <= Full(s)
    ensures forall i :: 0 <= i < |B| ==> IsLowerSet(s, off, raise, B[i])
    ensures forall j :: 0 <= j < |off| && active[j] ==> ForceLower(s, {}, off[j], raise) in B
  {
    hide Full, ForceLower, IsLowerSet;
    assert active[..|off|] == active;
  }

  /** With nothing free there are too many sets only if the OFF-set stalls. */
  lemma StallsNow(s: Space, off: seq<Cube>, active: seq<bool>, raise: Cube, forced: bool, B: seq<Cube>)
    requires |active| == |off| && Lasting(s, off, active, raise, forced) && Cleared(s, off, active, raise)
    requires Far(s, off, active, raise) && CountTrue(active) > 0
    requires forall j :: 0 <= j < |off| ==> off[j] <= Full(s)
    requires |B| == CountTrue(active) && forall i :: 0 <= i < |B| ==> IsLowerSet(s, off, raise, B[i])
    requires Expansions(s, B, s.numBinary) > 500
    ensures !forced && Stalls(s, off)
  {
    hide Full, Far, Cleared, Lasting, AllVoid, CountTrue, Expansions, WideOnes, ForceLower;
    NothingFree(s, off, active, raise, forced);
    forall i | 0 <= i < |B|
      ensures B[i] == {}
    {
      assert IsLowerSet(s, off, raise, B[i]);
      var j :| 0 <= j < |off| && B[i] == ForceLower(s, {}, off[j], raise);
      FullLowersNothing(s, off[j]);
    }
    EmptyExpansions(s, B, s.numBinary);
  }

  lemma {:induction false} EmptyExpansions(s: Space, B: seq<Cube>, start: nat)
    requires forall i :: 0 <= i < |B| ==> B[i] == {}
    ensures Expansions(s, B, start) == |B|
  {
    if B != [] {
      EmptyExpansions(s, B[..|B| - 1], start);
      EmptyExpansion(s, start, |s.sizes|);
    }
  }

  lemma {:induction false} EmptyExpansion(s: Space, start: nat, v: nat)
    requires v <= |s.sizes|
    ensures Unravel.Expansion(s, {}, start, v) == 1
  {
    if v > 0 {
      EmptyExpansion(s, start, v - 1);
      assert {} * Mask(s, v - 1) == {};
    }
  }

  /** Whether unravelling would give more than 500 sets altogether. */
  method TooMany(s: Space, B: seq<Cube>) returns (many: bool)
    requires forall i :: 0 <= i < |B| ==> B[i] <= Full(s)
    ensures many <==> Expansions(s, B, s.numBinary) > 500
  {
    hide Full, Unravel.Expansion, Expansions;
    var nset, i := 0, 0;
    NoneUnravelled(s, s.numBinary);
    while i < |B|
      invariant 0 <= i <= |B|
      invariant nset == Expansions(s, B[..i], s.numBinary) <= 500
    {
      var over, expansion := ExpansionOver(s, B[i], s.numBinary, 500);
      ExpansionsStep(s, B, s.numBinary, i);
      ExpansionsMono(s, B, s.numBinary, i + 1);
      if over {
        return true;
      }
      nset := nset + expansion;
      if nset > 500 {
        return true;
      }
      i := i + 1;
    }
    many := false;
    assert B[..i] == B;
  }

  lemma UnravelledInside(s: Space, B: seq<Cube>, start: nat, N: seq<Cube>)
    requires AllUnravelled(s, B, start, N) && forall i :: 0 <= i < |B| ==> B[i] <= Full(s)
    ensures forall i :: 0 <= i < |N| ==> N[i] <= Full(s)
  {
    hide Full, HasThreads;
    forall k | 0 <= k < |N|
      ensures N[k] <= Full(s)
    {
      assert N[k] in N;
      var i :| 0 <= i < |B| && Thread(s, B[i], start, |s.sizes|, N[k]);
      ThreadInside(s, B[i], start, N[k]);
    }
  }

  lemma ThreadInside(s: Space, c: Cube, start: nat, r: Cube)
    requires Thread(s, c, start, |s.sizes|, r)
    ensures r <= c
  {
  }

  /** No binary variable is empty in c and full in q. */
  ghost predicate Fits(s: Space, q: Cube, c: Cube) {
    forall v :: 0 <= v < s.numBinary && c * Mask(s, v) == {} ==> !(Mask(s, v) <= q)
  }

  /** So it is for every OFF-set cube in reach of upper that is at distance two or
      more from c. */
  ghost predicate AllFit(s: Space, off: seq<Cube>, c: Cube, upper: Cube) {
    forall j :: 0 <= j < |off| && Meets(s, off[j], upper) && Distance(s, off[j], c) > 1 ==> Fits(s, off[j], c)
  }

  /** When the covering step is safe: whatever set of parts it finds to lower, an
      OFF-set cube in reach is kept away, exactly when no binary variable is empty
      in the cube being raised and full in the OFF-set cube. */
  lemma ChoiceExact(s: Space, q: Cube, raise: Cube, free: Cube, L: seq<Cube>)
    requires q <= Full(s) && !Meets(s, q, raise) && Meets(s, q, raise + free)
    requires Unravelled(s, ForceLower(s, {}, q, raise), s.numBinary, |s.sizes|, L)
    ensures (forall xlower :: HitsSets(L, xlower) ==> !Meets(s, q, raise + (free - xlower))) <==> Fits(s, q, raise)
  {
    hide Full, Mask, Meets, ForceLower, Unravelled, Fits;
    if Fits(s, q, raise) {
      forall xlower | HitsSets(L, xlower)
        ensures !Meets(s, q, raise + (free - xlower))
      {
        ChoiceApart(s, q, raise, free, L, xlower);
      }
    } else {
      var v := Unfit(s, q, raise);
      var xlower := UnsafeChoice(s, q, raise, free, L, v);
    }
  }

  /** What expanding c against q alone can end with, when the parts to lower are
      unravelled into L.  At distance one the parts of q in the variable where they
      clash stay out; at a greater distance some parts that meet every set of L do. */
  ghost predicate CanEnd(s: Space, q: Cube, c: Cube, L: seq<Cube>, end: Cube) {
    if Distance(s, q, c) <= 1 then end == c + ((Full(s) - c) - ForceLower(s, {}, q, c))
    else exists xlower :: HitsSets(L, xlower) && end == c + ((Full(s) - c) - xlower)
  }

  /** One cube against one OFF-set cube that it does not meet: every end is clear of
      it exactly if they are at distance one, or the cube fits. */
  lemma PairExact(s: Space, q: Cube, c: Cube, L: seq<Cube>)
    requires q <= Full(s) && c <= Full(s) && NonVoid(s, q) && !Meets(s, q, c)
    requires Unravelled(s, ForceLower(s, {}, q, c), s.numBinary, |s.sizes|, L)
    ensures (forall end :: CanEnd(s, q, c, L, end) ==> !Meets(s, q, end)) <==> Distance(s, q, c) == 1 || Fits(s, q, c)
  {
    hide Full, Mask, Meets, Unravelled, Fits, NonVoid, Distance, HitsSets, ForceLower;
    NoClash(s, q, c);
    if Distance(s, q, c) == 1 {
      assert !Meets(s, q, c + ((Full(s) - c) - ForceLower(s, {}, q, c))) by { NearEnd(s, q, c); }
    } else {
      assert c + (Full(s) - c) == Full(s);
      MeetsFull(s, q);
      ChoiceExact(s, q, c, Full(s) - c, L);
      assert forall xlower :: HitsSets(L, xlower) ==> CanEnd(s, q, c, L, c + ((Full(s) - c) - xlower));
    }
  }

  lemma NearEnd(s: Space, q: Cube, c: Cube)
    requires Distance(s, q, c) == 1
    ensures !Meets(s, q, c + ((Full(s) - c) - ForceLower(s, {}, q, c)))
  {
    hide Full, Meets, Distance;
    LoweredApart(s, q, c, (Full(s) - c) - ForceLower(s, {}, q, c));
  }

  lemma MeetsFull(s: Space, q: Cube)
    requires q <= Full(s) && NonVoid(s, q)
    ensures Meets(s, q, Full(s))
  {
    hide Full;
    assert q * Full(s) == q;
    forall v | 0 <= v < |s.sizes|
      ensures v !in Clashes(s, q, Full(s))
    {
      assert q * Mask(s, v) != {};
    }
  }

  lemma Unfit(s: Space, q: Cube, c: Cube) returns (v: nat)
    requires !Fits(s, q, c)
    ensures v < s.numBinary && c * Mask(s, v) == {} && Mask(s, v) <= q
  {
    v :| 0 <= v < s.numBinary && c * Mask(s, v) == {} && Mask(s, v) <= q;
  }

  /** Keep one part of q in each variable and lower its other parts: every set that
      has both values of the binary variable is met, and q is still in reach. */
  lemma UnsafeChoice(s: Space, q: Cube, raise: Cube, free: Cube, L: seq<Cube>, v: nat) returns (xlower: Cube)
    requires q <= Full(s) && Meets(s, q, raise + free)
    requires v < s.numBinary && raise * Mask(s, v) == {} && Mask(s, v) <= q
    requires Unravelled(s, ForceLower(s, {}, q, raise), s.numBinary, |s.sizes|, L)
    ensures HitsSets(L, xlower) && Meets(s, q, raise + (free - xlower))
  {
    hide Full, Mask, Meets, ForceLower, Thread, Picks, Offers;
    var lower := ForceLower(s, {}, q, raise);
    var m := CommonMinterm(s, q, raise + free);
    var kept := set u | u in Range(|m|) :: Part(u, m[u]);
    xlower := lower - kept;
    var other := OtherValue(s, q, raise, v, m, kept);
    forall i | 0 <= i < |L| && L[i] != {}
      ensures L[i] * xlower != {}
    {
      assert Thread(s, lower, s.numBinary, |s.sizes|, L[i]);
      ThreadHasBinary(s, lower, L[i], v, other);
      assert other in L[i] * xlower;
    }
    KeptMeets(s, q, raise, free, xlower, m);
  }

  lemma CommonMinterm(s: Space, a: Cube, b: Cube) returns (m: Minterm)
    requires Meets(s, a, b)
    ensures IsMinterm(s, m) && In(m, a) && In(m, b)
  {
    MeetsIffCommonMinterm(s, a, b);
    m :| IsMinterm(s, m) && In(m, a) && In(m, b);
  }

  lemma OtherValue(s: Space, q: Cube, raise: Cube, v: nat, m: Minterm, kept: Cube) returns (p: Part)
    requires v < s.numBinary && raise * Mask(s, v) == {} && Mask(s, v) <= q
    requires IsMinterm(s, m) && forall p :: p in kept ==> p.v < |m| && p.k == m[p.v]
    ensures p in ForceLower(s, {}, q, raise) && p !in kept && p in Mask(s, v)
  {
    p := Part(v, 1 - m[v]);
    assert p in Mask(s, v);
    assert q * raise * Mask(s, v) <= raise * Mask(s, v);
  }

  lemma ThreadHasBinary(s: Space, lower: Cube, r: Cube, v: nat, p: Part)
    requires v < s.numBinary && Thread(s, lower, s.numBinary, |s.sizes|, r) && p in lower && p in Mask(s, v)
    ensures p in r
  {
    hide Mask;
    assert !Chosen(s, lower, s.numBinary, v);
    assert r * Mask(s, v) == lower * Mask(s, v);
    assert p in lower * Mask(s, v);
  }

  lemma KeptMeets(s: Space, q: Cube, raise: Cube, free: Cube, xlower: Cube, m: Minterm)
    requires IsMinterm(s, m) && In(m, q) && In(m, raise + free)
    requires forall v :: 0 <= v < |m| ==> Part(v, m[v]) !in xlower
    ensures Meets(s, q, raise + (free - xlower))
  {
    hide Meets;
    MeetsIffCommonMinterm(s, q, raise + (free - xlower));
    forall v | 0 <= v < |m|
      ensures Part(v, m[v]) in raise + (free - xlower)
    {
      assert Part(v, m[v]) in raise + free;
    }
  }

  /** A set of parts that meets every unravelled set keeps every active OFF-set
      cube away, as long as the cube being expanded fits the OFF-set. */
  lemma ChoiceClears(s: Space, off: seq<Cube>, active: seq<bool>, raise: Cube, free: Cube, c: Cube, upper: Cube,
      B: seq<Cube>, N: seq<Cube>, xlower: Cube)
    requires |active| == |off| && Cleared(s, off, active, raise + free) && Far(s, off, active, raise)
    requires c <= raise && raise + free <= upper && AllUnravelled(s, B, s.numBinary, N)
    requires forall j :: 0 <= j < |off| ==> off[j] <= Full(s)
    requires forall j :: 0 <= j < |off| && active[j] ==> ForceLower(s, {}, off[j], raise) in B
    requires HitsSets(N, xlower)
    ensures AllFit(s, off, c, upper) ==> Clear(s, off, raise + (free - xlower))
  {
    hide Meets, Distance, Full, ForceLower, Fits, AllUnravelled, NonVoid;
    if AllFit(s, off, c, upper) {
      forall j | 0 <= j < |off|
        ensures !Meets(s, off[j], raise + (free - xlower))
      {
        if active[j] {
          var L := ThreadsFor(s, B, s.numBinary, N, ForceLower(s, {}, off[j], raise));
          HitsPart(N, L, xlower);
          NoClash(s, off[j], raise);
          if Meets(s, off[j], raise + (free - xlower)) {
            MeetsMonotone(s, off[j], raise + (free - xlower), off[j], upper);
            NearerWider(s, off[j], c, raise);
            FitsWider(s, off[j], c, raise);
            ChoiceApart(s, off[j], raise, free, L, xlower);
          }
        } else {
          ShrunkApart(s, off[j], raise + free, raise + (free - xlower));
        }
      }
    }
  }

  lemma ChoiceRaises(raise: Cube, free: Cube, xlower: Cube)
    ensures raise <= raise + (free - xlower) && raise + (free - xlower) + {} <= raise + free
    ensures |free - (raise + (free - xlower))| <= |xlower|
  {
    SubsetCard(free - (raise + (free - xlower)), xlower);
  }

  lemma HitsPart(N: seq<Cube>, L: seq<Cube>, xlower: Cube)
    requires HitsSets(N, xlower) && forall i :: 0 <= i < |L| ==> L[i] in N
    ensures HitsSets(L, xlower)
  {
    forall i | 0 <= i < |L| && L[i] != {}
      ensures L[i] * xlower != {}
    {
      var k :| 0 <= k < |N| && N[k] == L[i];
    }
  }

  /** A cube that has grown still fits. */
  lemma FitsWider(s: Space, q: Cube, a: Cube, b: Cube)
    requires a <= b && Fits(s, q, a)
    ensures Fits(s, q, b)
  {
    forall v | 0 <= v < s.numBinary && b * Mask(s, v) == {}
      ensures !(Mask(s, v) <= q)
    {
      assert a * Mask(s, v) <= b * Mask(s, v);
    }
  }

  /** A cube that has grown is no farther away. */
  lemma NearerWider(s: Space, q: Cube, a: Cube, b: Cube)
    requires a <= b
    ensures Distance(s, q, b) <= Distance(s, q, a)
  {
    forall v | v in Clashes(s, q, b)
      ensures v in Clashes(s, q, a)
    {
      assert q * a * Mask(s, v) <= q * b * Mask(s, v);
    }
    SubsetCard(Clashes(s, q, b), Clashes(s, q, a));
  }

  lemma ShrunkApart(s: Space, q: Cube, upper: Cube, upper': Cube)
    requires !Meets(s, q, upper) && upper' <= upper
    ensures !Meets(s, q, upper')
  {
    hide Meets;
    if Meets(s, q, upper') {
      MeetsMonotone(s, q, upper', q, upper);
    }
  }

  lemma ThreadsFor(s: Space, B: seq<Cube>, start: nat, N: seq<Cube>, c: Cube) returns (L: seq<Cube>)
    requires AllUnravelled(s, B, start, N) && c in B
    ensures Unravelled(s, c, start, |s.sizes|, L) && forall i :: 0 <= i < |L| ==> L[i] in N
  {
    hide Unravelled, Thread;
    var i :| 0 <= i < |B| && B[i] == c;
    assert HasThreads(s, B[i], start, N);
    L :| Unravelled(s, c, start, |s.sizes|, L) && forall i :: 0 <= i < |L| ==> L[i] in N;
  }

  // ---- the choice is a least one in the easy cases

  /** r is one of the sets that B unravels into. */
  ghost predicate IsThread(s: Space, B: seq<Cube>, r: Cube) {
    exists i :: 0 <= i < |B| && Thread(s, B[i], s.numBinary, |s.sizes|, r)
  }

  ghost predicate HoldsSet(C: seq<Cube>, r: Cube) {
    exists k :: 0 <= k < |C| && C[k] <= r
  }

  /** C has sets that B unravels into, and each such set contains one of them. */
  ghost predicate SetsCore(s: Space, B: seq<Cube>, C: seq<Cube>) {
    && (forall k :: 0 <= k < |C| ==> C[k] != {} && C[k] <= Full(s) && IsThread(s, B, C[k]))
    && (forall r :: IsThread(s, B, r) && r != {} ==> HoldsSet(C, r))
  }

  /** No set of parts that meets all of those is smaller than x, if they make up stars,
      paths and cycles. */
  ghost predicate LeastFor(s: Space, B: seq<Cube>, x: Cube) {
    forall C, c :: SetsCore(s, B, C) && EasySets(s, C) && c <= Full(s) && HitsSets(C, c) ==> |x| <= |c|
  }

  ghost predicate EasySets(s: Space, C: seq<Cube>)
    requires forall k :: 0 <= k < |C| ==> C[k] <= Full(s)
  {
    exists rows :: RowsOf(s, C, |C|, rows) && Stars.Easy(rows)
  }

  /** With few sets to meet everything free is raised but for the chosen parts, and they
      are a least choice. */
  ghost predicate LeastChosen(s: Space, off: seq<Cube>, active: seq<bool>, raise0: Cube, free0: Cube, chosen: Cube,
      raise: Cube)
    requires |active| == |off|
  {
    SetsToMeet(s, off, active, raise0) <= 500 ==>
      raise == raise0 + (free0 - chosen) && LeastFor(s, LowerSetsOf(s, off, active, raise0, |off|), chosen)
  }

  /** Every thread is among the unravelled sets. */
  lemma ThreadListed(s: Space, c: Cube, L: seq<Cube>, r: Cube) returns (i: nat)
    requires c <= Full(s) && Unravelled(s, c, s.numBinary, |s.sizes|, L) && Thread(s, c, s.numBinary, |s.sizes|, r)
    ensures i < |L| && L[i] == r
  {
    hide Full, Mask, Chosen;
    forall u | 0 <= u < |s.sizes| && Chosen(s, c, s.numBinary, u)
      ensures c * r * Mask(s, u) != {}
    {
      var p := Member(r * Mask(s, u));
      assert p in c * r * Mask(s, u);
    }
    assert Offers(s, c, s.numBinary, |s.sizes|, r);
    i :| 0 <= i < |L| && Picks(s, c, s.numBinary, |s.sizes|, r, L[i]);
    forall u | 0 <= u < |s.sizes|
      ensures L[i] * Mask(s, u) == r * Mask(s, u)
    {
      if Chosen(s, c, s.numBinary, u) {
        OnlyOne(L[i] * Mask(s, u), r * Mask(s, u));
      }
    }
    SameByVariables(s, L[i], r);
  }

  lemma OnlyOne(a: Cube, b: Cube)
    requires a <= b && |a| == 1 && |b| == 1
    ensures a == b
  {
    SubsetCard(b - a, b);
    assert |b - a| == |b| - |a|;
  }

  lemma SameByVariables(s: Space, a: Cube, b: Cube)
    requires a <= Full(s) && b <= Full(s) && forall u :: 0 <= u < |s.sizes| ==> a * Mask(s, u) == b * Mask(s, u)
    ensures a == b
  {
    forall p
      ensures p in a <==> p in b
    {
      if p in a || p in b {
        assert p in Full(s) && p in Mask(s, p.v);
        assert p in a * Mask(s, p.v) <==> p in b * Mask(s, p.v);
      }
    }
  }

  /** The sets of C are the core of the matrix of the unravelled sets. */
  lemma SetsAreCore(s: Space, B: seq<Cube>, N: seq<Cube>, C: seq<Cube>, rowsN: Covering.Rows, rowsC: Covering.Rows)
    requires (forall i :: 0 <= i < |B| ==> B[i] <= Full(s)) && forall i :: 0 <= i < |N| ==> N[i] <= Full(s)
    requires AllUnravelled(s, B, s.numBinary, N) && SetsCore(s, B, C)
    requires RowsOf(s, N, |N|, rowsN) && RowsOf(s, C, |C|, rowsC)
    ensures Cores.CoreOf(rowsN, rowsC)
  {
    hide Full, IsThread, HoldsSet, Bits, AllUnravelled, Cores.HasRow, Cores.HoldsRow, RowsOf, SetsCore;
    forall k | k in rowsC
      ensures Cores.HasRow(rowsN, rowsC[k])
    {
      SetAsRow(s, B, N, C, rowsN, rowsC, k);
    }
    forall i | i in rowsN
      ensures Cores.HoldsRow(rowsC, rowsN[i])
    {
      RowHoldsSet(s, B, N, C, rowsN, rowsC, i);
    }
  }

  lemma SetAsRow(s: Space, B: seq<Cube>, N: seq<Cube>, C: seq<Cube>, rowsN: Covering.Rows, rowsC: Covering.Rows, k: nat)
    requires (forall i :: 0 <= i < |B| ==> B[i] <= Full(s)) && forall i :: 0 <= i < |N| ==> N[i] <= Full(s)
    requires AllUnravelled(s, B, s.numBinary, N) && SetsCore(s, B, C)
    requires RowsOf(s, N, |N|, rowsN) && RowsOf(s, C, |C|, rowsC) && k in rowsC
    ensures Cores.HasRow(rowsN, rowsC[k])
  {
    hide Full, IsThread, HoldsSet, Bits, AllUnravelled, Cores.HasRow;
    var i := ThreadIn(s, B, N, C[k]);
    Cores.HasNow(rowsN, i);
  }

  lemma RowHoldsSet(s: Space, B: seq<Cube>, N: seq<Cube>, C: seq<Cube>, rowsN: Covering.Rows, rowsC: Covering.Rows,
      i: nat)
    requires (forall j :: 0 <= j < |B| ==> B[j] <= Full(s)) && forall j :: 0 <= j < |N| ==> N[j] <= Full(s)
    requires AllUnravelled(s, B, s.numBinary, N) && SetsCore(s, B, C)
    requires RowsOf(s, N, |N|, rowsN) && RowsOf(s, C, |C|, rowsC) && i in rowsN
    ensures Cores.HoldsRow(rowsC, rowsN[i])
  {
    hide Full, Thread, Bits, HasThreads, Cores.HoldsRow;
    assert N[i] in N;
    assert IsThread(s, B, N[i]);
    assert HoldsSet(C, N[i]);
    var k :| 0 <= k < |C| && C[k] <= N[i];
    BitsInside(s, C[k], N[i]);
    Cores.HoldsNow(rowsC, rowsN[i], k);
  }

  lemma ThreadIn(s: Space, B: seq<Cube>, N: seq<Cube>, r: Cube) returns (i: nat)
    requires (forall i :: 0 <= i < |B| ==> B[i] <= Full(s)) && AllUnravelled(s, B, s.numBinary, N) && IsThread(s, B, r)
    ensures i < |N| && N[i] == r
  {
    hide Full, Thread, Unravelled;
    var b :| 0 <= b < |B| && Thread(s, B[b], s.numBinary, |s.sizes|, r);
    var L := ThreadsFor(s, B, s.numBinary, N, B[b]);
    var j := ThreadListed(s, B[b], L, r);
    i :| 0 <= i < |N| && N[i] == L[j];
  }

  lemma BitsInside(s: Space, a: Cube, b: Cube)
    requires a <= b <= Full(s)
    ensures Bits(s, a) <= Bits(s, b)
  {
    hide Full, BitOf;
  }

  lemma HitsThrough(s: Space, B: seq<Cube>, N: seq<Cube>, C: seq<Cube>, c: Cube)
    requires AllUnravelled(s, B, s.numBinary, N) && SetsCore(s, B, C) && HitsSets(C, c)
    ensures HitsSets(N, c)
  {
    hide Full, Thread, HasThreads;
    forall i | 0 <= i < |N| && N[i] != {}
      ensures N[i] * c != {}
    {
      assert N[i] in N;
      assert IsThread(s, B, N[i]);
      assert HoldsSet(C, N[i]);
      var k :| 0 <= k < |C| && C[k] <= N[i];
      var p := Member(C[k] * c);
      assert p in N[i] * c;
    }
  }

  lemma LeastChoice(s: Space, B: seq<Cube>, N: seq<Cube>, x: Cube)
    requires (forall i :: 0 <= i < |B| ==> B[i] <= Full(s)) && forall i :: 0 <= i < |N| ==> N[i] <= Full(s)
    requires AllUnravelled(s, B, s.numBinary, N)
    requires forall rows :: RowsOf(s, N, |N|, rows) && Cores.EasyCore(rows) ==>
      forall c :: c <= Full(s) && HitsSets(N, c) ==> |x| <= |c|
    ensures LeastFor(s, B, x)
  {
    hide Full, AllUnravelled, IsThread, HoldsSet, HitsSets, RowsOf, Stars.Easy, Cores.CoreOf;
    forall C, c | SetsCore(s, B, C) && EasySets(s, C) && c <= Full(s) && HitsSets(C, c)
      ensures |x| <= |c|
    {
      var rowsC :| RowsOf(s, C, |C|, rowsC) && Stars.Easy(rowsC);
      var rowsN := AllRows(s, N, |N|);
      SetsAreCore(s, B, N, C, rowsN, rowsC);
      assert Cores.EasyCore(rowsN);
      HitsThrough(s, B, N, C, c);
    }
  }

  lemma AllRows(s: Space, N: seq<Cube>, n: nat) returns (rows: Covering.Rows)
    requires n <= |N| && forall i :: 0 <= i < |N| ==> N[i] <= Full(s)
    ensures RowsOf(s, N, n, rows)
  {
    hide Full, Bits;
    rows := map j: nat | j < n && N[j] != {} :: Bits(s, N[j]);
  }

  /** What a cube that keeps away from the active OFF-set leaves out meets all the
      sets, */
  lemma ClearHits(s: Space, off: seq<Cube>, active: seq<bool>, raise: Cube, C: seq<Cube>, x: Cube)
    requires |active| == |off| && raise <= x <= Full(s) && Apart(s, off, active, x)
    requires forall j :: 0 <= j < |off| && active[j] ==> off[j] <= Full(s) && NonVoid(s, off[j])
    requires SetsCore(s, LowerSetsOf(s, off, active, raise, |off|), C)
    ensures HitsSets(C, Full(s) - x)
  {
    hide Full, Thread, Meets, ForceLower, NonVoid;
    forall k | 0 <= k < |C| && C[k] != {}
      ensures C[k] * (Full(s) - x) != {}
    {
      var B := LowerSetsOf(s, off, active, raise, |off|);
      var i :| 0 <= i < |B| && Thread(s, B[i], s.numBinary, |s.sizes|, C[k]);
      assert B[i] in B;
      var j := LowerSetFrom(s, off, active, raise, |off|, B[i]);
      ThreadLeftOut(s, off[j], raise, x, C[k]);
    }
  }

  lemma {:induction false} LowerSetFrom(s: Space, off: seq<Cube>, active: seq<bool>, raise: Cube, n: nat, b: Cube)
      returns (j: nat)
    requires |active| == |off| && n <= |off| && b in LowerSetsOf(s, off, active, raise, n)
    ensures j < n && active[j] && b == ForceLower(s, {}, off[j], raise)
  {
    hide ForceLower;
    if active[n - 1] && b == ForceLower(s, {}, off[n - 1], raise) {
      j := n - 1;
    } else {
      j := LowerSetFrom(s, off, active, raise, n - 1, b);
    }
  }

  lemma ThreadLeftOut(s: Space, q: Cube, raise: Cube, x: Cube, r: Cube)
    requires q <= Full(s) && NonVoid(s, q) && raise <= x && !Meets(s, q, x)
    requires Thread(s, ForceLower(s, {}, q, raise), s.numBinary, |s.sizes|, r)
    ensures r * (Full(s) - x) != {}
  {
    hide Full, Mask, ForceLower, Thread;
    var v := Member(Clashes(s, q, x));
    var lower := ForceLower(s, {}, q, raise);
    assert q * raise * Mask(s, v) <= q * x * Mask(s, v);
    assert v in Clashes(s, q, raise);
    var p0 := Member(q * Mask(s, v));
    InVariable(s, v, p0);
    assert p0 in lower * Mask(s, v);
    var p := ThreadPart(s, lower, r, v);
    InVariable(s, v, p);
    assert p in q && p !in q * x * Mask(s, v);
    assert p in r * (Full(s) - x);
  }

  lemma InVariable(s: Space, v: nat, p: Part)
    requires v < |s.sizes| && p in Mask(s, v)
    ensures p.v == v && p in Full(s)
  {
  }

  lemma ThreadPart(s: Space, lower: Cube, r: Cube, v: nat) returns (p: Part)
    requires v < |s.sizes| && lower * Mask(s, v) != {} && Thread(s, lower, s.numBinary, |s.sizes|, r)
    ensures p in r && p in lower && p in Mask(s, v)
  {
    hide Chosen, Mask;
    if Chosen(s, lower, s.numBinary, v) {
      assert |r * Mask(s, v)| == 1;
    } else {
      assert r * Mask(s, v) == lower * Mask(s, v);
    }
    p := Member(r * Mask(s, v));
  }

  /** so a least choice leaves out no more parts than such a cube must. */
  lemma ChoiceLeast(s: Space, off: seq<Cube>, active: seq<bool>, raise: Cube, chosen: Cube, C: seq<Cube>, x: Cube)
    requires |active| == |off| && raise <= x <= Full(s) && Apart(s, off, active, x)
    requires forall j :: 0 <= j < |off| && active[j] ==> off[j] <= Full(s) && NonVoid(s, off[j])
    requires LeastFor(s, LowerSetsOf(s, off, active, raise, |off|), chosen)
    requires SetsCore(s, LowerSetsOf(s, off, active, raise, |off|), C) && EasySets(s, C)
    ensures |x| + |chosen| <= |Full(s)|
  {
    hide Full, SetsCore, HitsSets, EasySets, LowerSetsOf, Apart;
    ClearHits(s, off, active, raise, C, x);
    assert |Full(s) - x| == |Full(s)| - |x|;
  }

  lemma ChoiceApart(s: Space, q: Cube, raise: Cube, free: Cube, L: seq<Cube>, xlower: Cube)
    requires q <= Full(s) && !Meets(s, q, raise) && Fits(s, q, raise)
    requires Unravelled(s, ForceLower(s, {}, q, raise), s.numBinary, |s.sizes|, L)
    requires HitsSets(L, xlower)
    ensures !Meets(s, q, raise + (free - xlower))
  {
    hide Full, Mask, Meets, Fits, ForceLower, Thread, Picks, Chosen, Clashes;
    var lower := ForceLower(s, {}, q, raise);
    var n := |s.sizes|;
    if Meets(s, q, raise + (free - xlower)) {
      var pick := lower - xlower;
      forall v | 0 <= v < n && v in Clashes(s, q, raise)
        ensures lower * pick * Mask(s, v) != {}
      {
        ClashResolved(s, q, raise, free, xlower, v);
      }
      PickOffers(s, q, raise, pick);
      var i :| 0 <= i < |L| && Picks(s, lower, s.numBinary, n, pick, L[i]);
      assert Thread(s, lower, s.numBinary, n, L[i]);
      PickedUnhit(s, q, raise, xlower, L[i]);
    }
  }

  /** If the cubes still meet, some part of each clashing variable is neither
      raised nor lowered. */
  lemma ClashResolved(s: Space, q: Cube, raise: Cube, free: Cube, xlower: Cube, v: nat)
    requires v in Clashes(s, q, raise) && Meets(s, q, raise + (free - xlower))
    ensures ForceLower(s, {}, q, raise) * (ForceLower(s, {}, q, raise) - xlower) * Mask(s, v) != {}
  {
    assert v !in Clashes(s, q, raise + (free - xlower));
    var p := Member(q * (raise + (free - xlower)) * Mask(s, v));
    assert p !in q * raise * Mask(s, v);
    assert p in ForceLower(s, {}, q, raise) * (ForceLower(s, {}, q, raise) - xlower) * Mask(s, v);
  }

  lemma PickOffers(s: Space, q: Cube, raise: Cube, pick: Cube)
    requires forall v :: 0 <= v < |s.sizes| && v in Clashes(s, q, raise) ==>
      ForceLower(s, {}, q, raise) * pick * Mask(s, v) != {}
    ensures Offers(s, ForceLower(s, {}, q, raise), s.numBinary, |s.sizes|, pick)
  {
    var lower := ForceLower(s, {}, q, raise);
    forall v | 0 <= v < |s.sizes| && Chosen(s, lower, s.numBinary, v)
      ensures lower * pick * Mask(s, v) != {}
    {
      var p := Member(lower * Mask(s, v));
      assert p.v in Clashes(s, q, raise);
    }
  }

  /** The thread that follows the unlowered parts has none of the lowered ones,
      though it is not empty. */
  lemma PickedUnhit(s: Space, q: Cube, raise: Cube, xlower: Cube, r: Cube)
    requires q <= Full(s) && !Meets(s, q, raise) && Fits(s, q, raise)
    requires forall v :: 0 <= v < |s.sizes| && v in Clashes(s, q, raise) ==>
      ForceLower(s, {}, q, raise) * (ForceLower(s, {}, q, raise) - xlower) * Mask(s, v) != {}
    requires Thread(s, ForceLower(s, {}, q, raise), s.numBinary, |s.sizes|, r)
    requires Picks(s, ForceLower(s, {}, q, raise), s.numBinary, |s.sizes|, ForceLower(s, {}, q, raise) - xlower, r)
    ensures r != {} && r * xlower == {}
  {
    hide Full, Mask, Fits, ForceLower, Chosen, Clashes;
    var lower := ForceLower(s, {}, q, raise);
    forall p | p in r
      ensures p !in xlower
    {
      assert p in lower && p.v in Clashes(s, q, raise) && p.v < |s.sizes|;
      assert p in Full(s);
      InMask(s, p);
      if !Chosen(s, lower, s.numBinary, p.v) {
        SinglePart(s, q, raise, p.v);
      }
      PartUnhit(s, lower, lower - xlower, r, p);
    }
    var v := Member(Clashes(s, q, raise));
    ThreadKeeps(s, lower, r, v);
  }

  lemma ThreadKeeps(s: Space, lower: Cube, r: Cube, v: nat)
    requires v < |s.sizes| && lower * Mask(s, v) != {}
    requires Thread(s, lower, s.numBinary, |s.sizes|, r)
    ensures r != {}
  {
    hide Chosen, Mask;
    if Chosen(s, lower, s.numBinary, v) {
      assert |r * Mask(s, v)| == 1;
    } else {
      assert r * Mask(s, v) == lower * Mask(s, v);
    }
    var p := Member(r * Mask(s, v));
  }

  lemma PartUnhit(s: Space, lower: Cube, pick: Cube, r: Cube, p: Part)
    requires p.v < |s.sizes| && p in r && p in lower && p in Mask(s, p.v)
    requires lower * pick * Mask(s, p.v) != {}
    requires Picks(s, lower, s.numBinary, |s.sizes|, pick, r)
    requires !Chosen(s, lower, s.numBinary, p.v) ==> |lower * Mask(s, p.v)| <= 1
    ensures p in pick
  {
    hide Chosen, Mask;
    assert p in r * Mask(s, p.v);
    if !Chosen(s, lower, s.numBinary, p.v) {
      var p' := Member(lower * pick * Mask(s, p.v));
      OneAtMost(lower * Mask(s, p.v), p, p');
    }
  }

  lemma OneAtMost<T>(a: set<T>, x: T, y: T)
    requires |a| <= 1 && x in a && y in a
    ensures x == y
  {
    SubsetCard({x}, a);
    SingletonCard(a, x, y);
  }

  /** A variable that is not unravelled has at most one part to lower. */
  lemma SinglePart(s: Space, q: Cube, raise: Cube, v: nat)
    requires q <= Full(s) && v in Clashes(s, q, raise) && Fits(s, q, raise)
    requires !Chosen(s, ForceLower(s, {}, q, raise), s.numBinary, v)
    ensures |ForceLower(s, {}, q, raise) * Mask(s, v)| <= 1
  {
    if v < s.numBinary {
      var p := MissingValue(s, q, raise, v);
      forall p' | p' in ForceLower(s, {}, q, raise) * Mask(s, v)
        ensures p' == Part(v, 1 - p.k)
      {
        assert p' != p;
      }
      SubsetCard(ForceLower(s, {}, q, raise) * Mask(s, v), {Part(v, 1 - p.k)});
    }
  }

  /** A value of a clashing binary variable that q does not have. */
  lemma MissingValue(s: Space, q: Cube, raise: Cube, v: nat) returns (p: Part)
    requires v < s.numBinary && v in Clashes(s, q, raise) && Fits(s, q, raise)
    ensures p in Mask(s, v) && p !in q
  {
    if raise * Mask(s, v) == {} {
      p :| p in Mask(s, v) && p !in q;
    } else {
      p := Member(raise * Mask(s, v));
      assert p !in q * raise * Mask(s, v);
    }
  }

  /** With no OFF-set cube active, everything still free can be raised. */
  lemma NoneLeft(s: Space, off: seq<Cube>, active: seq<bool>, upper: Cube)
    requires |active| == |off| && Cleared(s, off, active, upper) && CountTrue(active) == 0
    ensures Clear(s, off, upper)
  {
    hide Meets;
  }

  lemma ApartStart(s: Space, off: seq<Cube>, active0: seq<bool>, active: seq<bool>, raise: Cube, upper: Cube)
    requires |active0| == |active| == |off| && raise <= upper
    requires Cleared(s, off, active, upper)
    ensures Clear(s, off, raise) ==> Apart(s, off, active, raise)
    ensures Apart(s, off, active, raise) ==> Clear(s, off, raise)
  {
    hide Meets;
    if Apart(s, off, active, raise) {
      ClearNow(s, off, active, raise, upper);
    }
  }

  lemma SomethingFree(s: Space, off: seq<Cube>, offActive: seq<bool>, on: seq<Cube>, onActive: seq<bool>, raise: Cube,
      free: Cube)
    requires |offActive| == |off| && |onActive| == |on| && CountTrue(onActive) > 0
    requires Cleared(s, off, offActive, raise + free) && Far(s, off, offActive, raise)
    requires Reach(on, onActive, raise + free) && AllBlocked(s, off, on, onActive, raise)
    ensures free != {}
  {
    hide Blocked, Far, Cleared, Clear;
    var i :| 0 <= i < |on| && onActive[i];
    FarApart(s, off, offActive, raise);
    ClearNow(s, off, offActive, raise, raise + free);
    BlockedLeavesFree(s, off, raise, free, on[i]);
  }

  lemma NoActive(s: Space, off: seq<Cube>, on: seq<Cube>, active: seq<bool>, raise: Cube)
    requires |active| == |on| && CountTrue(active) == 0
    ensures AllBlocked(s, off, on, active, raise)
  {
    hide Blocked;
  }

  lemma InsideStart(on: seq<Cube>, raise: Cube, active: seq<bool>, covered: seq<bool>)
    requires |active| == |covered| == |on|
    ensures forall upper :: CoveredInside(on, raise, upper, active, active, covered, covered)
  {
  }
}
