/** Expanding cubes against the OFF-set.

  An Expansion is the working state of expanding one cube: the cube grows in
  raise, free holds the parts not decided yet, and the flags say which OFF-set
  cubes are still in the way and which ON-set cubes could still be covered.
 */
module Expand {
  import opened Cubes
  import opened Counting
  import opened Families
  import opened Raising
  import opened Unravel

  /** How expanding can end: well, by finding a cube that meets the OFF-set, or
      by having to raise a part when none is free. */
  datatype Outcome = Done | NotOrthogonal | NoFreePart

  class Expansion {
    const s: Space
    const off: seq<Cube>
    const on: seq<Cube>
    var offActive: seq<bool>
    var offCount: nat
    var onActive: seq<bool>
    var onCount: nat
    var covered: seq<bool>
    var raise: Cube
    var free: Cube
    var superCube: Cube
    var numCovered: nat
    const coveredBefore: nat
    ghost var forced: bool

    /** The bookkeeping is right: the counts are those of the flags, and no part
        is both raised and free. */
    ghost predicate Shape()
      reads this
    {
      && |offActive| == |off| && offCount == CountTrue(offActive)
      && |onActive| == |on| && onCount == CountTrue(onActive)
      && |covered| == |on| && CountTrue(covered) == coveredBefore + numCovered
      && (forall i :: 0 <= i < |on| && onActive[i] ==> !covered[i])
      && raise <= Full(s) && free <= Full(s) && raise !! free && superCube <= raise
      && (forall j :: 0 <= j < |off| ==> off[j] <= Full(s))
      && (forall i :: 0 <= i < |on| ==> on[i] <= Full(s))
    }

    /** Nothing outside raise and free can be reached any more: OFF-set cubes that
        are not active stay clear of them, and active cubes are in reach. */
    ghost predicate Valid()
      reads this
    {
      && Shape()
      && Cleared(s, off, offActive, raise + free)
      && Near(s, off, offActive, raise + free)
      && Lasting(s, off, offActive, raise + free, forced)
      && Reach(on, onActive, raise + free)
    }

    /** Start from the cube c, with every OFF-set cube active and the candidates
        among the ON-set cubes (setup_BB_CC and the start of expand1). */
    constructor (s: Space, off: seq<Cube>, on: seq<Cube>, candidate: seq<bool>, covered: seq<bool>, c: Cube)
      requires c <= Full(s) && |candidate| == |covered| == |on|
      requires forall i :: 0 <= i < |on| && candidate[i] ==> !covered[i]
      requires forall j :: 0 <= j < |off| ==> off[j] <= Full(s)
      requires forall i :: 0 <= i < |on| ==> on[i] <= Full(s)
      ensures this.s == s && this.off == off && this.on == on && this.onActive == candidate && this.covered == covered
      ensures raise == c && free == Full(s) - c && superCube == c && numCovered == 0
      ensures |offActive| == |off| && forall j :: 0 <= j < |off| ==> offActive[j]
      ensures Valid() && !forced
    {
      hide Full, Meets, NonVoid, Cleared, Near, Lasting, Reach;
      this.s, this.off, this.on := s, off, on;
      offActive := seq(|off|, _ => true);
      offCount := |off|;
      onActive := candidate;
      onCount := CountTrue(candidate);
      this.covered := covered;
      coveredBefore := CountTrue(covered);
      numCovered := 0;
      forced := false;
      raise, free, superCube := c, Full(s) - c, c;
      new;
      StartValid(s, off, on, offActive, candidate, c, Full(s) - c);
      LastingStart(s, off, offActive, c);
    }

    /** Deactivate an OFF-set cube. */
    method DropOff(j: nat)
      requires Shape() && j < |off| && offActive[j]
      modifies `offActive, `offCount
      ensures Shape() && offActive == old(offActive)[j := false]
    {
      CountUpdate(offActive, j, false);
      SomeActive(offActive, j);
      offCount := offCount - 1;
      offActive := offActive[j := false];
    }

    /** Deactivate an ON-set cube. */
    method DropOn(i: nat)
      requires Shape() && i < |on| && onActive[i]
      modifies `onActive, `onCount
      ensures Shape() && onActive == old(onActive)[i := false]
    {
      CountUpdate(onActive, i, false);
      SomeActive(onActive, i);
      onCount := onCount - 1;
      onActive := onActive[i := false];
    }

    /** Deactivate the OFF-set cubes that no further expansion can meet and the
        ON-set cubes that none can cover. */
    method ElimLowering()
      requires Shape() && Cleared(s, off, offActive, raise + free) && (AllVoid(s, off) ==> forced)
      modifies `offActive, `offCount, `onActive, `onCount
      ensures Valid()
      ensures forall j :: 0 <= j < |off| ==> (offActive[j] <==> old(offActive[j]) && Meets(s, off[j], raise + free))
      ensures forall i :: 0 <= i < |on| ==> (onActive[i] <==> old(onActive[i]) && on[i] <= raise + free)
    {
      hide Meets, Cleared, Near, Lasting, Full, CountTrue;
      var r := raise + free;
      var j := 0;
      while j < |off|
        invariant 0 <= j <= |off| && Shape() && r == raise + free
        invariant forall k :: 0 <= k < j ==> (offActive[k] <==> old(offActive[k]) && Meets(s, off[k], r))
        invariant forall k :: j <= k < |off| ==> offActive[k] == old(offActive[k])
        invariant onActive == old(onActive)
      {
        if offActive[j] && !Meets(s, off[j], r) {
          DropOff(j);
        }
        j := j + 1;
      }
      ElimKeeps(s, off, old(offActive), offActive, r);
      LastingReach(s, off, offActive, r, forced);
      var i := 0;
      while i < |on|
        invariant 0 <= i <= |on| && Shape() && r == raise + free
        invariant forall k :: 0 <= k < i ==> (onActive[k] <==> old(onActive[k]) && on[k] <= r)
        invariant forall k :: i <= k < |on| ==> onActive[k] == old(onActive[k])
        invariant Cleared(s, off, offActive, r) && Near(s, off, offActive, r) && Lasting(s, off, offActive, r, forced)
        invariant forall k :: 0 <= k < |off| ==> (offActive[k] <==> old(offActive[k]) && Meets(s, off[k], r))
      {
        if onActive[i] && !(on[i] <= r) {
          DropOn(i);
        }
        i := i + 1;
      }
    }

    /** Lower every free part that would make the cube meet the OFF-set, and only
        those; fails when the cube meets it already. */
    method EssenParts() returns (ok: bool)
      requires Valid()
      modifies `offActive, `offCount, `onActive, `onCount, `free
      ensures ok <==> old(Apart(s, off, offActive, raise))
      ensures ok ==> Valid() && Far(s, off, offActive, raise) && free <= old(free)
      ensures ok ==> forall p :: p in old(free) ==> (p in free <==> !Blocked(s, off, raise, {p}))
      ensures ok ==> Dropped(on, raise + free, old(onActive), onActive)
      ensures ok ==> Lost(s, off, raise, raise, {}, old(raise + free), raise + free)
      ensures old(Far(s, off, offActive, raise)) ==> free == old(free) && offActive == old(offActive)
    {
      hide Meets, Cleared, Near, Lasting, Far, Full, CountTrue, Round, Distance, Blocked, ForceLower, Lost;
      var xlower := {};
      var k := 0;
      ghost var act0 := offActive;
      RoundStart(s, off, act0, raise, free);
      while k < |off|
        invariant 0 <= k <= |off| && Shape() && act0 == old(offActive)
        invariant raise == old(raise) && free == old(free) && onActive == old(onActive)
        invariant Round(s, off, act0, offActive, raise, free, k, xlower)
        invariant AllVoid(s, off) ==> xlower == {}
        invariant Far(s, off, act0, raise) ==> xlower == {} && offActive == act0
      {
        RoundNow(s, off, act0, offActive, raise, free, k, xlower);
        if offActive[k] {
          var dist := Distance(s, off[k], raise);
          FarAt(s, off, act0, raise, k);
          if dist > 1 {
            RoundFar(s, off, act0, offActive, raise, free, k, xlower);
          } else if dist == 0 {
            NoClash(s, off[k], raise);
            return false;
          } else {
            RoundNear(s, off, act0, offActive, raise, free, k, xlower);
            VoidLowersNoMore(s, off, k, raise, xlower);
            xlower := ForceLower(s, xlower, off[k], raise);
            DropOff(k);
          }
        } else {
          RoundSkip(s, off, act0, offActive, raise, free, k, xlower);
        }
        k := k + 1;
      }
      RoundEnd(s, off, act0, offActive, raise, free, xlower);
      ok := true;
      if xlower != {} {
        ghost var act1 := offActive;
        free := free - xlower;
        ElimLowering();
        FarSubset(s, off, act1, offActive, raise);
      } else {
        NearSubset(s, off, act0, offActive, raise + free);
        LastingRound(s, off, act0, offActive, raise, raise + free, forced);
        assert free - xlower == free;
      }
      LostBlocked(s, off, act0, raise, old(free), free);
    }

    /** Raise the free parts that no active OFF-set cube has. */
    method EssenRaising()
      requires Valid()
      modifies `raise, `free
      ensures Valid() && old(raise) <= raise && raise + free == old(raise + free)
      ensures forall p :: p in raise <==> p in old(raise) || (p in old(free) && !Seen(off, offActive, |off|, p))
      ensures old(Far(s, off, offActive, raise)) ==> Far(s, off, offActive, raise)
    {
      hide Meets, Cleared, Near, Lasting, Far, Full, CountTrue, Distance;
      var xraise := {};
      var j := 0;
      while j < |off|
        invariant 0 <= j <= |off|
        invariant forall p :: p in xraise <==> Seen(off, offActive, j, p)
      {
        if offActive[j] {
          xraise := xraise + off[j];
        }
        j := j + 1;
      }
      xraise := free - xraise;
      UnseenFar(s, off, offActive, raise, xraise);
      assert raise + free == (raise + xraise) + (free - xraise);
      raise, free := raise + xraise, free - xraise;
    }

    /** Whether covering c as well keeps the cube clear of the active OFF-set
        cubes; if so, the parts that would then have to be lowered. */
    method FeasiblyCovered(c: Cube) returns (feasible: bool, newLower: Cube)
      requires Valid()
      ensures feasible <==> Apart(s, off, offActive, raise + c)
      ensures feasible ==>
        forall p :: p in Full(s) ==> (p in newLower <==> Hindered(s, off, offActive, |off|, raise + c, p))
      ensures newLower <= Full(s) && newLower !! c
    {
      hide Meets, Cleared, Near, Lasting, Far, Full, CountTrue, Distance, ForceLower, Hindered;
      var r := raise + c;
      newLower := {};
      NoneHindered(s, off, offActive, r);
      var j := 0;
      while j < |off|
        invariant 0 <= j <= |off|
        invariant forall p :: p in Full(s) ==> (p in newLower <==> Hindered(s, off, offActive, j, r, p))
        invariant forall k :: 0 <= k < j && offActive[k] ==> !Meets(s, off[k], r)
        invariant newLower <= Full(s) && newLower !! c
      {
        if offActive[j] {
          var dist := Distance(s, off[j], r);
          NoClash(s, off[j], r);
          if dist == 0 {
            return false, newLower;
          } else if dist == 1 {
            HinderedNear(s, off, offActive, j, r, newLower);
            LowerOutside(s, newLower, off[j], raise, c);
            newLower := ForceLower(s, newLower, off[j], r);
          } else {
            HinderedFar(s, off, offActive, j, r);
          }
        } else {
          HinderedSkip(s, off, offActive, j, r);
        }
        j := j + 1;
      }
      feasible := true;
    }

    /** Go through the cubes that may be covered: take the ones that are, and keep
        the ones that feasibly could be. */
    method CheckFeasible(feas: seq<nat>) returns (kept: seq<nat>, lower: seq<Cube>)
      requires Valid() && forall k :: 0 <= k < |feas| ==> feas[k] < |on|
      modifies `onActive, `onCount, `covered, `superCube, `numCovered
      ensures Valid() && Feasible(s, off, offActive, on, onActive, raise, kept, lower)
      ensures forall k :: 0 <= k < |kept| ==> kept[k] < |on|
      ensures forall i :: 0 <= i < |on| && onActive[i] && i in feas ==> i in kept || Blocked(s, off, raise, on[i])
      ensures Taken(on, raise, feas, old(onActive), onActive, old(covered), covered)
    {
      hide Meets, Cleared, Near, Lasting, Far, Full, CountTrue, Distance, Apart, Blocked, Taken;
      kept, lower := [], [];
      TakenStart(on, raise, onActive, covered);
      var k := 0;
      while k < |feas|
        invariant 0 <= k <= |feas| && Valid() && |lower| == |kept|
        invariant forall n :: 0 <= n < |kept| ==> kept[n] < |on| && onActive[kept[n]] && !(on[kept[n]] <= raise)
        invariant forall n :: 0 <= n < |kept| ==>
          Apart(s, off, offActive, raise + on[kept[n]]) && lower[n] !! on[kept[n]]
        invariant forall i :: 0 <= i < |on| && onActive[i] && i in feas[..k] ==>
          i in kept || Blocked(s, off, raise, on[i])
        invariant Taken(on, raise, feas[..k], old(onActive), onActive, old(covered), covered)
      {
        var i := feas[k];
        assert feas[..k + 1] == feas[..k] + [i];
        TakenStep(on, raise, feas[..k], i, old(onActive), onActive, old(covered), covered);
        if onActive[i] {
          if on[i] <= raise {
            TakeCovered(i);
          } else {
            var feasible, newLower := FeasiblyCovered(on[i]);
            if feasible {
              kept, lower := kept + [i], lower + [newLower];
            } else {
              ApartBlocked(s, off, offActive, raise, on[i]);
            }
          }
        }
        k := k + 1;
      }
      assert feas[..k] == feas;
    }

    /** The cube is covered by what has been raised. */
    method TakeCovered(i: nat)
      requires Valid() && i < |on| && onActive[i] && on[i] <= raise
      modifies `onActive, `onCount, `covered, `superCube, `numCovered
      ensures Valid() && onActive == old(onActive)[i := false] && covered == old(covered)[i := true]
    {
      hide Meets, Cleared, Near, Lasting, Full, CountTrue;
      numCovered := numCovered + 1;
      superCube := superCube + on[i];
      CountUpdate(covered, i, true);
      CountUpdate(onActive, i, false);
      SomeActive(onActive, i);
      onCount := onCount - 1;
      onActive := onActive[i := false];
      covered := covered[i := true];
    }

    /** Raise the parts of c, all of them raised or free. */
    method Raise(c: Cube)
      requires Valid() && c <= raise + free
      modifies `raise, `free
      ensures Valid() && raise == old(raise) + c && free == old(free) - c && raise + free == old(raise + free)
    {
      hide Meets, Cleared, Near, Lasting, Full, CountTrue;
      assert raise + free == (raise + c) + (free - (raise + c));
      raise := raise + c;
      free := free - raise;
    }

    /** Of the feasible cubes, one after which most of them stay feasible, and of
        those one that raises the fewest parts. */
    method BestFeasible(kept: seq<nat>, lower: seq<Cube>) returns (bestFeas: nat)
      requires |kept| == |lower| && kept != [] && forall k :: 0 <= k < |kept| ==> kept[k] < |on|
      requires forall k :: 0 <= k < |kept| ==> lower[k] !! on[kept[k]]
      ensures BestOf(on, kept, lower, free, bestFeas)
    {
      hide Compatible;
      var best: int := -1;
      var bestCount, bestSize := 0, 9999;
      var i := 0;
      while i < |kept|
        invariant 0 <= i <= |kept|
        invariant i == 0 ==> bestCount == 0
        invariant i > 0 ==>
          0 <= best < i && bestCount == Compatible(on, kept, |kept|, lower[best]) && bestSize == |on[kept[best]] * free|
        invariant forall k :: 0 <= k < i ==> Compatible(on, kept, |kept|, lower[k]) <= bestCount
        invariant forall k :: 0 <= k < i && Compatible(on, kept, |kept|, lower[k]) == bestCount ==>
          bestSize <= |on[kept[k]] * free|
      {
        var size := |on[kept[i]] * free|;
        var count := CountCompatible(kept, lower[i]);
        CompatibleSelf(on, kept, |kept|, lower[i], i);
        if count > bestCount {
          bestCount, best, bestSize := count, i, size;
        } else if count == bestCount && size < bestSize {
          best, bestSize := i, size;
        }
        i := i + 1;
      }
      bestFeas := best;
    }

    method CountCompatible(kept: seq<nat>, lower: Cube) returns (count: nat)
      requires forall k :: 0 <= k < |kept| ==> kept[k] < |on|
      ensures count == Compatible(on, kept, |kept|, lower)
    {
      count := 0;
      var j := 0;
      while j < |kept|
        invariant 0 <= j <= |kept| && count == Compatible(on, kept, j, lower)
      {
        if lower !! on[kept[j]] {
          count := count + 1;
        }
        j := j + 1;
      }
    }

    /** Raise what the best feasible cube needs. */
    method CoverBest(kept: seq<nat>, lower: seq<Cube>)
      requires Valid()
      requires kept != [] && Feasible(s, off, offActive, on, onActive, raise, kept, lower)
      modifies `offActive, `offCount, `onActive, `onCount, `raise, `free
      ensures Valid() && Far(s, off, offActive, raise)
      ensures old(raise) <= raise && raise + free <= old(raise + free) && |free| < |old(free)|
      ensures Dropped(on, raise + free, old(onActive), onActive)
      ensures Lost(s, off, raise, raise, {}, old(raise + free), raise + free)
      ensures exists b :: 0 <= b < |kept| && BestOf(on, kept, lower, old(free), b) && raise == old(raise) + on[kept[b]]
    {
      hide Meets, Cleared, Near, Lasting, Far, Full, CountTrue, Distance, Apart, Compatible, Lost, Dropped;
      var best := BestFeasible(kept, lower);
      var c := on[kept[best]];
      StrictlyFewer(raise, free, c);
      Raise(c);
      var ok := EssenParts();
      SubsetCard(free, old(free) - c);
    }

    method ActiveList() returns (feas: seq<nat>)
      requires Valid()
      ensures forall k :: 0 <= k < |feas| ==> feas[k] < |on|
      ensures forall i :: 0 <= i < |on| && onActive[i] ==> i in feas
    {
      hide Cleared, Near, Lasting, Reach, Full, CountTrue;
      feas := [];
      var n := 0;
      while n < |on|
        invariant 0 <= n <= |on|
        invariant forall k :: 0 <= k < |feas| ==> feas[k] < |on|
        invariant forall i :: 0 <= i < n && onActive[i] ==> i in feas
      {
        if onActive[n] {
          feas := feas + [n];
        }
        n := n + 1;
      }
    }

    /** Raise what nothing forbids, take the cubes this covers, and list those that
        still could be covered. */
    method RaiseAndCheck(feas: seq<nat>) returns (kept: seq<nat>, lower: seq<Cube>)
      requires Valid() && Far(s, off, offActive, raise)
      requires (forall k :: 0 <= k < |feas| ==> feas[k] < |on|) && Pending(s, off, on, onActive, raise, feas)
      modifies `onActive, `onCount, `covered, `superCube, `numCovered, `raise, `free
      ensures Valid() && Far(s, off, offActive, raise) && Feasible(s, off, offActive, on, onActive, raise, kept, lower)
      ensures old(raise) <= raise && raise + free == old(raise + free) && |free| <= |old(free)|
      ensures (forall k :: 0 <= k < |kept| ==> kept[k] < |on|) && Pending(s, off, on, onActive, raise, kept)
      ensures CoveredInside(on, raise, raise + free, old(onActive), onActive, old(covered), covered)
    {
      hide Meets, Cleared, Near, Lasting, Reach, Far, Full, CountTrue, Distance, Blocked, Taken, Feasible,
        CoveredInside, Pending;
      EssenRaising();
      SubsetCard(free, old(free));
      kept, lower := CheckFeasible(feas);
      TakenInside(on, raise, feas, old(onActive), onActive, old(covered), covered);
      PendingStep(s, off, on, old(onActive), onActive, old(raise), raise, feas, kept);
    }

    /** One round of select_feasible: raise what nothing forbids, take the cubes
        this covers, and if some others still could be, cover the best of them. */
    method FeasibleRound(feas: seq<nat>) returns (kept: seq<nat>)
      requires Valid() && Far(s, off, offActive, raise)
      requires (forall k :: 0 <= k < |feas| ==> feas[k] < |on|) && Pending(s, off, on, onActive, raise, feas)
      modifies `offActive, `offCount, `onActive, `onCount, `covered, `superCube, `numCovered, `raise, `free
      ensures Valid() && Far(s, off, offActive, raise)
      ensures old(raise) <= raise && raise + free <= old(raise + free)
      ensures (forall k :: 0 <= k < |kept| ==> kept[k] < |on|) && Pending(s, off, on, onActive, raise, kept)
      ensures kept == [] || |free| < |old(free)|
      ensures CoveredInside(on, raise, raise + free, old(onActive), onActive, old(covered), covered)
      ensures Lost(s, off, old(raise), raise, {}, old(raise + free), raise + free)
    {
      hide Meets, Cleared, Near, Lasting, Reach, Far, Full, CountTrue, Distance, Apart, Blocked, Taken, Feasible,
        CoveredInside, Pending, Lost;
      var lower;
      kept, lower := RaiseAndCheck(feas);
      NothingLost(s, off, old(raise), raise, old(raise + free), raise + free);
      if kept != [] {
        ghost var raise1, upper1, active1 := raise, raise + free, onActive;
        CoverBest(kept, lower);
        InsideGrows(on, raise1, raise, upper1, raise + free, old(onActive), active1, onActive, old(covered), covered);
        LostTrans(s, off, old(raise), raise, raise1, raise, {}, old(raise + free), upper1, raise + free);
        PendingStep(s, off, on, active1, onActive, raise1, raise, kept, kept);
      }
    }

    /** Cover as many ON-set cubes as possible, until each of those left would run
        into the OFF-set. */
    method SelectFeasible()
      requires Valid() && Far(s, off, offActive, raise)
      modifies `offActive, `offCount, `onActive, `onCount, `covered, `superCube, `numCovered, `raise, `free
      ensures Valid() && Far(s, off, offActive, raise)
      ensures old(raise) <= raise && raise + free <= old(raise + free)
      ensures AllBlocked(s, off, on, onActive, raise)
      ensures CoveredInside(on, raise, raise + free, old(onActive), onActive, old(covered), covered)
      ensures Lost(s, off, old(raise), raise, {}, old(raise + free), raise + free)
    {
      hide Meets, Cleared, Near, Lasting, Reach, Far, Full, CountTrue, Distance, Blocked, CoveredInside, Pending,
        AllBlocked, Lost;
      var feas: seq<nat> := ActiveList();
      SelectStart(s, off, on, onActive, covered, raise, feas);
      NothingLost(s, off, raise, raise, raise + free, raise + free);
      while true
        invariant Valid() && Far(s, off, offActive, raise)
        invariant old(raise) <= raise && raise + free <= old(raise + free)
        invariant (forall k :: 0 <= k < |feas| ==> feas[k] < |on|) && Pending(s, off, on, onActive, raise, feas)
        invariant CoveredInside(on, raise, raise + free, old(onActive), onActive, old(covered), covered)
        invariant Lost(s, off, old(raise), raise, {}, old(raise + free), raise + free)
        decreases |free|
      {
        ghost var raise0, upper0, active0, covered0 := raise, raise + free, onActive, covered;
        feas := FeasibleRound(feas);
        CoveredTrans(on, raise0, raise, upper0, raise + free, old(onActive), active0, onActive, old(covered), covered0,
          covered);
        LostTrans(s, off, old(raise), raise0, raise0, raise, {}, old(raise + free), upper0, raise + free);
        if feas == [] {
          NonePending(s, off, on, onActive, raise);
          return;
        }
      }
    }

    /** A free part that the most active ON-set cubes have; none if nothing is
        free. */
    method MostFrequent() returns (found: bool, best: Part)
      requires Valid()
      ensures found <==> free != {}
      ensures found ==> best in free
      ensures found ==> MostOften(on, onActive, free, best)
    {
      hide Cleared, Near, Lasting, Reach, CountTrue, Frequency;
      found, best := false, Part(0, 0);
      var bestCount: int := -1;
      var v := 0;
      while v < |s.sizes|
        invariant 0 <= v <= |s.sizes|
        invariant found ==> best in free && bestCount == Frequency(on, onActive, |on|, best)
        invariant !found ==> bestCount == -1
        invariant forall p :: p in free && p.v < v ==> found && Frequency(on, onActive, |on|, p) <= bestCount
      {
        var k := 0;
        while k < s.sizes[v]
          invariant 0 <= k <= s.sizes[v]
          invariant found ==> best in free && bestCount == Frequency(on, onActive, |on|, best)
          invariant !found ==> bestCount == -1
          invariant forall p :: p in free && (p.v < v || (p.v == v && p.k < k)) ==>
            found && Frequency(on, onActive, |on|, p) <= bestCount
        {
          if Part(v, k) in free {
            var count := CountParts(Part(v, k));
            if count > bestCount {
              found, best, bestCount := true, Part(v, k), count;
            }
          }
          k := k + 1;
        }
        v := v + 1;
      }
      AllBelow(s, free);
    }

    method CountParts(p: Part) returns (count: nat)
      requires Valid()
      ensures count == Frequency(on, onActive, |on|, p)
    {
      hide Cleared, Near, Lasting, Reach, CountTrue, Full;
      count := 0;
      var i := 0;
      while i < |on|
        invariant 0 <= i <= |on| && count == Frequency(on, onActive, i, p)
      {
        if onActive[i] && p in on[i] {
          count := count + 1;
        }
        i := i + 1;
      }
    }

    /** Raise the most frequent free part, and lower what that forces low; fails
        only if nothing is free. */
    method RaiseFrequent() returns (found: bool)
      requires Valid() && Far(s, off, offActive, raise)
      modifies `offActive, `offCount, `onActive, `onCount, `raise, `free
      ensures Valid() && Far(s, off, offActive, raise)
      ensures found <==> old(free) != {}
      ensures old(raise) <= raise && raise + free <= old(raise + free)
      ensures found ==> |free| < |old(free)|
      ensures Dropped(on, raise + free, old(onActive), onActive)
      ensures Lost(s, off, old(raise), raise, {}, old(raise + free), raise + free)
      ensures found ==> exists best :: MostOften(on, old(onActive), old(free), best) && raise == old(raise) + {best}
    {
      hide Meets, Cleared, Near, Lasting, Far, Full, CountTrue, Distance, Apart, MostOften, Lost;
      var best;
      found, best := MostFrequent();
      NothingLost(s, off, raise, raise, raise + free, raise + free);
      if found {
        FreePart(s, free, best);
        FarRaise(s, off, offActive, raise, best);
        StrictlyFewer(raise, free, {best});
        Raise({best});
        var ok := EssenParts();
        LostTrans(s, off, old(raise), raise, old(raise), raise, {}, old(raise + free), old(raise + free), raise + free);
        SubsetCard(free, old(free) - {best});
      }
    }

    /** Every OFF-set cube out of reach, one way or the other. */
    ghost predicate Settled(c: Cube, upper: Cube)
      reads this
    {
      && offCount == 0 && free == {}
      && (AllFit(s, off, c, upper) ==> Clear(s, off, raise))
    }

    /** The little of Settled and Valid that the covering needs. */
    lemma Outline(c: Cube, upper: Cube)
      ensures Settled(c, upper) ==> offCount == 0 && free == {}
      ensures Valid() ==> |offActive| == |off| && |onActive| == |on|
    {
    }

    /** The sets of parts to lower are one for each active OFF-set cube; where the
        OFF-set stalls there are too many of them. */
    lemma LowerSetsGood(B: seq<Cube>)
      requires Valid() && |offActive| == |off| && B == LowerSetsOf(s, off, offActive, raise, |off|)
      ensures |B| == offCount && forall i :: 0 <= i < |B| ==> B[i] <= Full(s) && IsLowerSet(s, off, raise, B[i])
      ensures forall j :: 0 <= j < |off| && offActive[j] ==> ForceLower(s, {}, off[j], raise) in B
      ensures !forced && Stalls(s, off) ==> |B| > 500
    {
      hide Meets, Cleared, Near, Lasting, Reach, Far, Full, CountTrue, Distance, ForceLower, NonVoid, Stalls,
        IsLowerSet, LowersFor, LowerSetsOf;
      LowersAll(s, off, offActive, raise, |off|);
      LowersEnd(s, off, offActive, raise, B);
      if !forced && Stalls(s, off) {
        StalledActive(s, off, offActive, raise + free);
      }
    }

    /** When there are too many sets to meet and nothing is free, the OFF-set stalls. */
    lemma StallsIfEmpty(B: seq<Cube>)
      requires Valid() && Far(s, off, offActive, raise) && offCount > 0
      requires |B| == offCount && forall i :: 0 <= i < |B| ==> IsLowerSet(s, off, raise, B[i])
      requires Expansions(s, B, s.numBinary) > 500
      ensures free == {} ==> !forced && Stalls(s, off)
    {
      hide Meets, Cleared, Near, Lasting, Reach, Far, Full, CountTrue, Distance, NonVoid, Stalls, IsLowerSet,
        Expansions;
      if free == {} {
        assert raise + free == raise;
        StallsNow(s, off, offActive, raise, forced, B);
      }
    }

    /** Deal with the OFF-set cubes left: lower a set of parts that keeps all of
        them away, raise the rest, and be done; or raise a single part, if there
        would be too many sets to meet.  That fails only where the OFF-set stalls,
        and there nothing but single parts can be raised. */
    method CoverOffset(ghost c: Cube, ghost upper: Cube) returns (found: bool, ghost chosen: Cube)
      requires Valid() && Far(s, off, offActive, raise) && offCount > 0 && c <= raise && raise + free <= upper
      modifies `offActive, `offCount, `onActive, `onCount, `raise, `free
      ensures old(raise) <= raise && raise + free <= old(raise + free)
      ensures !found ==> !forced && Stalls(s, off)
      ensures found ==> Settled(c, upper) || (Valid() && Far(s, off, offActive, raise) && |free| < |old(free)|)
      ensures found && !forced && Stalls(s, off) ==> Valid() && Far(s, off, offActive, raise) && |free| < |old(free)|
      ensures old(SetsToMeet(s, off, offActive, raise)) <= 500 ==>
        offCount == 0 && free == {} && |old(free) - raise| <= old(SetsToMeet(s, off, offActive, raise))
      ensures LeastChosen(s, off, old(offActive), old(raise), old(free), chosen, raise)
      ensures |onActive| == |on| && forall i :: 0 <= i < |on| && onActive[i] ==> old(onActive[i])
      ensures |chosen| <= 500 && (chosen != {} ==> offCount == 0)
      ensures Lost(s, off, old(raise), raise, chosen, old(raise + free), raise + free)
    {
      hide Meets, Cleared, Near, Lasting, Reach, Far, Full, CountTrue, Distance, ForceLower, NonVoid, AllFit, Clear,
        Stalls, IsLowerSet, LowersFor, LowerSetsOf, Expansions, Valid, Settled, Lost, LeastFor;
      Outline(c, upper);
      chosen := {};
      var B := LowerSets();
      LowerSetsGood(B);
      var many := TooMany(s, B);
      if many {
        StallsIfEmpty(B);
        found := RaiseFrequent();
        Outline(c, upper);
      } else {
        chosen := LowerChoice(c, upper, B);
        found := true;
        Outline(c, upper);
      }
    }

    /** Keep away the OFF-set cubes left by lowering a set of parts that meets all the
        unravelled sets. */
    method LowerChoice(ghost c: Cube, ghost upper: Cube, B: seq<Cube>) returns (ghost chosen: Cube)
      requires Valid() && Far(s, off, offActive, raise) && c <= raise && raise + free <= upper
      requires forall i :: 0 <= i < |B| ==> B[i] <= Full(s) && IsLowerSet(s, off, raise, B[i])
      requires forall j :: 0 <= j < |off| && offActive[j] ==> ForceLower(s, {}, off[j], raise) in B
      modifies `offCount, `raise, `free
      ensures Settled(c, upper) && old(raise) <= raise && raise + free <= old(raise + free)
      ensures |old(free) - raise| <= Expansions(s, B, s.numBinary)
      ensures |chosen| <= Expansions(s, B, s.numBinary)
      ensures LeastFor(s, B, chosen) && raise == old(raise) + (old(free) - chosen) && free == {}
      ensures Lost(s, off, old(raise), raise, chosen, old(raise + free), raise + free)
    {
      hide Meets, Cleared, Near, Lasting, Reach, Far, Full, CountTrue, Distance, ForceLower, AllUnravelled, Clear,
        AllFit, Expansions, Lost, IsLowerSet, Cores.EasyCore, RowsOf, HitsSets, InSome, LeastFor;
      var N := UnravelSets(s, B, s.numBinary);
      UnravelledInside(s, B, s.numBinary, N);
      var xlower := SmMinimumCover(s, N);
      LeastChoice(s, B, N, xlower);
      ChoiceClears(s, off, offActive, raise, free, c, upper, B, N, xlower);
      ChoiceRaises(raise, free, xlower);
      LostChosen(s, off, raise, free, B, N, xlower);
      chosen := xlower;
      raise := raise + (free - xlower);
      free := {};
      assert raise + free == raise;
      offCount := 0;
    }

    /** For each active OFF-set cube, the parts that have to be lowered in one of
        the variables where it does not meet the cube. */
    method LowerSets() returns (B: seq<Cube>)
      requires Valid()
      ensures B == LowerSetsOf(s, off, offActive, raise, |off|)
    {
      hide Meets, Cleared, Near, Lasting, Reach, Full, ForceLower;
      B := [];
      var j := 0;
      while j < |off|
        invariant 0 <= j <= |off|
        invariant B == LowerSetsOf(s, off, offActive, raise, j)
      {
        if offActive[j] {
          B := B + [ForceLower(s, {}, off[j], raise)];
        }
        j := j + 1;
      }
    }

    /** Take the parts that must not be raised out of the free ones. */
    method LowerFirst(initLower: Cube)
      requires Valid() && !forced
      modifies `offActive, `offCount, `onActive, `onCount, `free, `forced
      ensures Valid() && free == old(free) - initLower && (forced <==> initLower != {})
      ensures initLower == {} ==> offActive == old(offActive) && onCount == old(onCount)
      ensures Dropped(on, raise + free, old(onActive), onActive)
    {
      hide Meets, Cleared, Near, Lasting, Full, CountTrue;
      if initLower != {} {
        ClearedShrinks(s, off, offActive, raise + free, raise + (free - initLower));
        free := free - initLower;
        forced := true;
        ElimLowering();
      }
    }

    /** Cover the ON-set cubes that can be covered, then raise part after part until
        none of the others is in reach.  There is always a part left to raise. */
    method CoverOnset()
      requires Valid() && Far(s, off, offActive, raise)
      modifies `offActive, `offCount, `onActive, `onCount, `covered, `superCube, `numCovered, `raise, `free
      ensures Valid() && Far(s, off, offActive, raise) && onCount == 0
      ensures old(raise) <= raise && raise + free <= old(raise + free)
      ensures CoveredInside(on, raise, raise + free, old(onActive), onActive, old(covered), covered)
      ensures Lost(s, off, old(raise), raise, {}, old(raise + free), raise + free)
      ensures old(onCount) == 0 ==> raise == old(raise) && free == old(free) && offActive == old(offActive)
    {
      hide Meets, Cleared, Near, Lasting, Reach, Far, Full, CountTrue, Distance, CoveredInside, AllBlocked, Lost,
        Dropped;
      InsideStart(on, raise, onActive, covered);
      NothingLost(s, off, raise, raise, raise + free, raise + free);
      if onCount > 0 {
        SelectFeasible();
      } else {
        NoActive(s, off, on, onActive, raise);
      }
      while onCount > 0
        invariant Valid() && Far(s, off, offActive, raise)
        invariant old(raise) <= raise && raise + free <= old(raise + free)
        invariant AllBlocked(s, off, on, onActive, raise)
        invariant CoveredInside(on, raise, raise + free, old(onActive), onActive, old(covered), covered)
        invariant Lost(s, off, old(raise), raise, {}, old(raise + free), raise + free)
        invariant old(onCount) == 0 ==>
          onCount == 0 && raise == old(raise) && free == old(free) && offActive == old(offActive)
        decreases |free|
      {
        ghost var raise0, upper0, active0 := raise, raise + free, onActive;
        SomethingFree(s, off, offActive, on, onActive, raise, free);
        var found := RaiseFrequent();
        StillDropped(on, raise + free, active0, onActive);
        AllBlockedGrows(s, off, on, active0, raise0, onActive, raise);
        InsideGrows(on, raise0, raise, upper0, raise + free, old(onActive), active0, onActive, old(covered), covered);
        LostTrans(s, off, old(raise), raise0, raise0, raise, {}, old(raise + free), upper0, raise + free);
      }
    }

    /** With no OFF-set cube in reach, everything left can be raised. */
    lemma RestClear(c: Cube, upper: Cube)
      requires Settled(c, upper) || (Valid() && Far(s, off, offActive, raise))
      requires offCount == 0
      ensures AllFit(s, off, c, upper) ==> Clear(s, off, raise + free)
    {
      hide Meets, Near, Lasting, Reach, Far, Full, Distance, NonVoid, AllFit, Clear;
      if Settled(c, upper) {
        assert raise + free == raise;
      } else {
        NoneLeft(s, off, offActive, raise + free);
      }
    }

    /** An OFF-set that stalls stays in reach. */
    lemma StillInReach()
      requires Valid() && !forced && Stalls(s, off)
      ensures offCount > 0
    {
      hide Meets, Near, Reach, Full, Distance, NonVoid, Stalls;
      StalledActive(s, off, offActive, raise + free);
    }

    /** Deal with the OFF-set cubes still in the way and raise everything left. */
    method CoverRest(ghost c: Cube, ghost upper: Cube) returns (found: bool, ghost chosen: Cube)
      requires Valid() && Far(s, off, offActive, raise) && c <= raise && raise + free <= upper
      modifies `offActive, `offCount, `onActive, `onCount, `raise, `free
      ensures !found <==> !forced && Stalls(s, off)
      ensures old(raise) <= raise <= old(raise + free)
      ensures found && AllFit(s, off, c, upper) ==> Clear(s, off, raise)
      ensures old(SetsToMeet(s, off, offActive, raise)) <= 500 ==>
        |old(free) - raise| <= old(SetsToMeet(s, off, offActive, raise))
      ensures |onActive| == |on| && forall i :: 0 <= i < |on| && onActive[i] ==> old(onActive[i])
      ensures |chosen| <= 500 && (found ==> Lost(s, off, old(raise), raise, chosen, old(raise + free), raise))
    {
      hide Meets, Cleared, Near, Lasting, Reach, Far, Full, CountTrue, Distance, NonVoid, AllFit, Clear, Stalls,
        SetsToMeet, Settled, Valid, Lost;
      chosen := {};
      NothingLost(s, off, raise, raise, raise + free, raise + free);
      Outline(c, upper);
      ghost var untouched, sets := true, SetsToMeet(s, off, offActive, raise);
      while offCount > 0
        invariant Settled(c, upper) || (Valid() && |offActive| == |off| && Far(s, off, offActive, raise))
        invariant !forced && Stalls(s, off) ==> Valid() && |offActive| == |off| && Far(s, off, offActive, raise)
        invariant untouched ==> offActive == old(offActive) && raise == old(raise) && free == old(free)
        invariant !untouched && sets <= 500 ==> offCount == 0 && |old(free) - raise| <= sets
        invariant |onActive| == |on| && forall i :: 0 <= i < |on| && onActive[i] ==> old(onActive[i])
        invariant old(raise) <= raise && raise + free <= old(raise + free)
        invariant |chosen| <= 500 && (chosen != {} ==> offCount == 0)
        invariant Lost(s, off, old(raise), raise, chosen, old(raise + free), raise + free)
        decreases |free|, offCount
      {
        ghost var raise0, upper0 := raise, raise + free;
        Outline(c, upper);
        found, chosen := CoverOffset(c, upper);
        LostTrans(s, off, old(raise), raise0, raise0, raise, chosen, old(raise + free), upper0, raise + free);
        Outline(c, upper);
        untouched := false;
        if !found {
          return;
        }
      }
      if !forced && Stalls(s, off) {
        StillInReach();
      }
      RestClear(c, upper);
      FewerMissing(old(free), raise, free);
      LostRaised(s, off, old(raise), raise, raise + free, chosen, old(raise + free), raise + free);
      raise := raise + free;
      found := true;
    }

    /** Take the parts that must not be raised out of the free ones, and lower those
        that the OFF-set forces low. */
    method Prepare(initLower: Cube) returns (ok: bool)
      requires Valid() && !forced && free == Full(s) - raise
      modifies `offActive, `offCount, `onActive, `onCount, `free, `forced
      ensures !ok ==> !Clear(s, off, raise) && !Stalls(s, off)
      ensures ok ==> Valid() && Far(s, off, offActive, raise) && (forced <==> initLower != {})
      ensures ok ==> raise + free <= raise + (Full(s) - initLower)
      ensures ok ==> Dropped(on, raise + free, old(onActive), onActive)
      ensures ok ==> Lost(s, off, raise, raise, {}, raise + (Full(s) - initLower), raise + free)
      ensures ok && Quiet(s, off, old(offActive), raise, initLower) ==>
        offActive == old(offActive) && free == old(free) && (old(onCount) == 0 ==> onCount == 0)
    {
      hide Meets, Cleared, Near, Lasting, Reach, Far, Full, CountTrue, Distance, Apart, NonVoid, Clear, AllVoid,
        SetsToMeet, Lost;
      assert raise + (free - initLower) == raise + (Full(s) - initLower);
      LowerFirst(initLower);
      ApartStart(s, off, offActive, offActive, raise, raise + free);
      if Stalls(s, off) {
        AllVoidApart(s, off, offActive, raise);
      }
      ghost var active1 := onActive;
      ok := EssenParts();
      if ok && onCount > 0 {
        StillSome(onActive, active1);
      }
    }

    /** Expand the cube the state was set up with (expand1).  On success the result
        keeps clear of the whole OFF-set, provided the cube fits it.  It asks for a
        part when none is free exactly if the OFF-set stalls and no part was
        lowered at the start.  When nothing is lowered by force and nothing can be
        covered, the result lacks no more parts than there are sets to meet. */
    method Expand1(initLower: Cube) returns (outcome: Outcome, overExpanded: Cube)
      requires Valid() && !forced && free == Full(s) - raise
      modifies this
      ensures outcome == NotOrthogonal ==> !Clear(s, off, old(raise))
      ensures outcome == NoFreePart <==> initLower == {} && Stalls(s, off)
      ensures outcome == Done ==> old(raise) <= raise <= old(raise) + (Full(s) - initLower)
      ensures outcome == Done && AllFit(s, off, old(raise), old(raise) + (Full(s) - initLower)) ==> Clear(s, off, raise)
      ensures outcome == Done && Quiet(s, off, old(offActive), old(raise), initLower) && old(onCount) == 0 ==>
        |Full(s) - raise| <= SetsToMeet(s, off, old(offActive), old(raise))
      ensures outcome == Done ==> CoveredInside(on, raise, raise, old(onActive), onActive, old(covered), covered)
      ensures outcome == Done ==> forall i :: 0 <= i < |on| ==> !onActive[i]
      ensures outcome == Done ==> Grounded(s, off, old(raise), raise, initLower)
      ensures outcome == Done ==> forall i :: 0 <= i < |on| && old(onActive[i]) ==>
        covered[i] || Blocked(s, off, raise, on[i]) || !(on[i] <= old(raise) + (Full(s) - initLower))
    {
      hide Meets, Cleared, Near, Lasting, Reach, Far, Full, CountTrue, Distance, Apart, NonVoid, AllFit, Clear,
        CoveredInside, Settled, Stalls, SetsToMeet, Quiet, Lost, Dropped, Blocked, Grounded;
      ghost var c, upper := raise, raise + (Full(s) - initLower);
      overExpanded := {};
      InsideStart(on, raise, old(onActive), covered);
      var ok := Prepare(initLower);
      if !ok {
        return NotOrthogonal, overExpanded;
      }
      overExpanded := raise + free;
      ghost var active1, upper1 := onActive, raise + free;
      CoverOnset();
      InsideGrows(on, c, raise, upper, upper1, old(onActive), old(onActive), active1, old(covered), old(covered));
      CoveredTrans(on, raise, raise, upper1, raise + free, old(onActive), active1, onActive, old(covered), old(covered),
        covered);
      LostTrans(s, off, c, c, c, raise, {}, upper, upper1, raise + free);
      ghost var raise1, active2, upper2, covered2 := raise, onActive, raise + free, covered;
      NoneActive(on, onActive, onCount);
      NotCoveredWhy(s, off, on, c, raise, upper, upper2, old(onActive), onActive, old(covered), covered);
      QuietFew(s, off, old(offActive), c, initLower);
      var found;
      ghost var chosen;
      found, chosen := CoverRest(c, upper);
      if !found {
        return NoFreePart, overExpanded;
      }
      DroppedNone(on, raise, active2, onActive);
      InsideGrows(on, raise1, raise, upper2, raise, old(onActive), active2, onActive, old(covered), covered);
      LostTrans(s, off, c, raise1, raise1, raise, chosen, upper, upper2, raise);
      GroundedNow(s, off, c, raise, initLower, chosen);
      StillBlocked(s, off, on, raise1, raise);
      MissingFree(s, c, raise);
      outcome := Done;
    }
  }

  // ---- expanding a cover

  function CubesOf(F: Cover): (r: seq<Cube>)
    ensures |r| == |F| && forall i :: 0 <= i < |F| ==> r[i] == F[i].cube
  {
    seq(|F|, i requires 0 <= i < |F| => F[i].cube)
  }

  function CoveredFlags(F: Cover): (r: seq<bool>)
    ensures |r| == |F| && forall i :: 0 <= i < |F| ==> r[i] == F[i].covered
  {
    seq(|F|, i requires 0 <= i < |F| => F[i].covered)
  }

  /** The cubes that might still be covered: not prime, and not covered yet. */
  function Candidates(F: Cover): (r: seq<bool>)
    ensures |r| == |F| && forall i :: 0 <= i < |F| ==> r[i] == !(F[i].covered || F[i].prime)
  {
    seq(|F|, i requires 0 <= i < |F| => !(F[i].covered || F[i].prime))
  }

  /** F' is F with the k-th cube expanded: it grew, outside the parts in fixed, it
      is marked prime, and the cubes now marked covered are those inside it that were
      neither prime nor covered. */
  ghost predicate Expanded(s: Space, F: Cover, k: nat, fixed: Cube, F': Cover)
    requires k < |F|
  {
    && |F'| == |F|
    && F[k].cube <= F'[k].cube <= F[k].cube + (Full(s) - fixed)
    && F'[k].prime && !F'[k].covered
    && (forall i :: 0 <= i < |F| && i != k ==>
          && F'[i] == F[i].(active := F'[i].active, covered := F'[i].covered)
          && (F[i].covered ==> F'[i].covered)
          && (F'[i].covered <==> F[i].covered || (!F[i].prime && F[i].cube <= F'[k].cube)))
  }

  /** The cube b can not be covered by the expanded cube c of b0 as well: it would run
      into the OFF-set, or has a part that must not be raised. */
  ghost predicate Beyond(s: Space, off: seq<Cube>, b0: Cube, c: Cube, fixed: Cube, b: Cube) {
    Blocked(s, off, c, b) || !(b <= b0 + (Full(s) - fixed))
  }

  /** Every cube that is neither prime nor covered after the k-th was expanded is
      beyond that. */
  ghost predicate Greedy(s: Space, R: Cover, F: Cover, k: nat, fixed: Cube, F': Cover)
    requires k < |F| == |F'|
  {
    forall i :: 0 <= i < |F| && i != k && !F[i].prime && !F'[i].covered ==>
      Beyond(s, CubesOf(R), F[k].cube, F'[k].cube, fixed, F[i].cube)
  }

  function AllTrue(n: nat): (r: seq<bool>)
    ensures |r| == n && forall i :: 0 <= i < n ==> r[i]
  {
    seq(n, _ => true)
  }

  /** There is no other cube that might be covered. */
  ghost predicate Alone(F: Cover, k: nat) {
    forall i :: 0 <= i < |F| && i != k ==> F[i].covered || F[i].prime
  }

  lemma NoCandidate(F: Cover, k: nat)
    requires Alone(F, k) && k < |F| && F[k].prime
    ensures CountTrue(Candidates(F)) == 0
  {
  }

  /** Expand the k-th cube of F against R. */
  method ExpandOne(s: Space, R: Cover, F: Cover, k: nat, initLower: Cube) returns (outcome: Outcome, F': Cover)
    requires Families.Valid(s, F) && Families.Valid(s, R) && k < |F| && !F[k].covered
    ensures outcome == NotOrthogonal ==> !Clear(s, CubesOf(R), F[k].cube)
    ensures outcome == NoFreePart <==> initLower == {} && Stalls(s, CubesOf(R))
    ensures outcome == Done ==> Expanded(s, F, k, initLower, F')
    ensures outcome == Done && AllFit(s, CubesOf(R), F[k].cube, F[k].cube + (Full(s) - initLower)) ==>
      Clear(s, CubesOf(R), F'[k].cube)
    ensures outcome == Done ==> Grounded(s, CubesOf(R), F[k].cube, F'[k].cube, initLower)
    ensures outcome == Done ==> Greedy(s, R, F, k, initLower, F')
    ensures outcome == Done && Alone(F, k) && Quiet(s, CubesOf(R), AllTrue(|R|), F[k].cube, initLower) ==>
      |Full(s) - F'[k].cube| <= SetsToMeet(s, CubesOf(R), AllTrue(|R|), F[k].cube)
  {
    hide Full, Meets, NonVoid, AllFit, Clear, Cleared, Near, Lasting, Reach, CountTrue, Stalls, Quiet, SetsToMeet,
      Grounded, Blocked;
    var F1 := F[k := F[k].(prime := true)];
    ValidCubes(s, F1);
    ValidCubes(s, R);
    var x := new Expansion(s, CubesOf(R), CubesOf(F1), Candidates(F1), CoveredFlags(F1), F[k].cube);
    assert x.offActive == AllTrue(|R|);
    if Alone(F, k) {
      NoCandidate(F1, k);
    }
    var over;
    outcome, over := x.Expand1(initLower);
    F' := F1;
    if outcome == Done {
      F' := Marked(F1, x.onActive, x.covered);
      F' := F'[k := F1[k].(cube := x.raise, prime := true, active := false, covered := false,
        nonEssen := F1[k].nonEssen || (x.numCovered == 0 && x.raise != over))];
      ExpandedNow(s, F, k, initLower, F1, x.raise, x.onActive, x.covered, F');
      GreedyNow(s, R, F, k, initLower, F1, x.raise, x.covered, F');
    }
  }

  lemma ValidCubes(s: Space, F: Cover)
    requires Families.Valid(s, F)
    ensures forall i :: 0 <= i < |F| ==> CubesOf(F)[i] <= Full(s)
  {
    hide Full;
  }

  function Marked(F: Cover, active: seq<bool>, covered: seq<bool>): (F': Cover)
    requires |active| == |covered| == |F|
    ensures |F'| == |F| && forall i :: 0 <= i < |F| ==> F'[i] == F[i].(active := active[i], covered := covered[i])
  {
    seq(|F|, i requires 0 <= i < |F| => F[i].(active := active[i], covered := covered[i]))
  }

  lemma ExpandedNow(s: Space, F: Cover, k: nat, fixed: Cube, F1: Cover, raise: Cube, active: seq<bool>,
      covered: seq<bool>, F': Cover)
    requires k < |F| && !F[k].covered && F1 == F[k := F[k].(prime := true)]
    requires F[k].cube <= raise <= F[k].cube + (Full(s) - fixed)
    requires CoveredInside(CubesOf(F1), raise, raise, Candidates(F1), active, CoveredFlags(F1), covered)
    requires forall i :: 0 <= i < |active| ==> !active[i]
    requires |F'| == |F| && F'[k].cube == raise && F'[k].prime && !F'[k].covered
    requires forall i :: 0 <= i < |F| && i != k ==> F'[i] == F1[i].(active := active[i], covered := covered[i])
    ensures Expanded(s, F, k, fixed, F')
  {
    hide Full;
  }

  lemma GreedyNow(s: Space, R: Cover, F: Cover, k: nat, fixed: Cube, F1: Cover, raise: Cube, covered: seq<bool>,
      F': Cover)
    requires k < |F| == |F'| == |covered| && F1 == F[k := F[k].(prime := true)] && F'[k].cube == raise
    requires forall i :: 0 <= i < |F| && i != k ==> F'[i].covered == covered[i] && (F[i].covered ==> F'[i].covered)
    requires forall i :: 0 <= i < |F1| && Candidates(F1)[i] ==>
      covered[i] || Blocked(s, CubesOf(R), raise, CubesOf(F1)[i]) ||
      !(CubesOf(F1)[i] <= F[k].cube + (Full(s) - fixed))
    ensures Greedy(s, R, F, k, fixed, F')
  {
    hide Full, Blocked;
    forall i | 0 <= i < |F| && i != k && !F[i].prime && !F'[i].covered
      ensures Beyond(s, CubesOf(R), F[k].cube, F'[k].cube, fixed, F[i].cube)
    {
      assert Candidates(F1)[i];
    }
  }

  /** The i-th cube of F0 is still in place, or parked inside a prime of F. */
  ghost predicate Parked(F0: Cover, F: Cover, i: nat)
    requires i < |F0| == |F|
  {
    if F[i].covered then exists j :: 0 <= j < |F| && !F[j].covered && F[j].prime && F0[i].cube <= F[j].cube
    else F0[i].cube <= F[i].cube
  }

  lemma ParkedStep(s: Space, F0: Cover, F: Cover, k: nat, fixed: Cube, F': Cover, i: nat)
    requires k < |F| == |F0| && i < |F| && !F[k].prime && !F[k].covered
    requires Expanded(s, F, k, fixed, F') && Parked(F0, F, i)
    ensures Parked(F0, F', i)
  {
    hide Full;
    if i != k && F'[i].covered {
      if F[i].covered {
        var j :| 0 <= j < |F| && !F[j].covered && F[j].prime && F0[i].cube <= F[j].cube;
        assert !F'[j].covered && F'[j].prime && F0[i].cube <= F'[j].cube;
      } else {
        assert F0[i].cube <= F'[k].cube;
      }
    }
  }

  /** How far the pass has come: the cubes from k on are as they were, those before
      are prime or covered, none has shrunk or taken a fixed part, and every cube
      is in place or parked inside a prime. */
  ghost predicate Progress(s: Space, F0: Cover, F: Cover, k: nat, fixed: Cube) {
    && |F| == |F0| && k <= |F|
    && (forall i :: k <= i < |F| ==> F[i].cube == F0[i].cube && F[i].prime == F0[i].prime)
    && (forall i :: 0 <= i < k ==> F[i].prime || F[i].covered)
    && (forall i :: 0 <= i < |F| ==> Parked(F0, F, i))
    && (forall i :: 0 <= i < |F| ==> F0[i].cube <= F[i].cube <= F0[i].cube + (Full(s) - fixed))
  }

  lemma ProgressStep(s: Space, F0: Cover, F: Cover, k: nat, fixed: Cube, F': Cover)
    requires Progress(s, F0, F, k, fixed) && k < |F| && !F[k].prime && !F[k].covered
    requires Expanded(s, F, k, fixed, F')
    ensures |F'| == |F| && Progress(s, F0, F', k + 1, fixed)
  {
    hide Full, Parked;
    forall i | 0 <= i < |F|
      ensures Parked(F0, F', i)
    {
      ParkedStep(s, F0, F, k, fixed, F', i);
    }
  }

  /** The a-th cube of F was expanded from that of F0 as far as it goes, and each cube
      after it that is still to be expanded or was expanded later is beyond it. */
  ghost predicate Tried(s: Space, R: Cover, F0: Cover, F: Cover, a: nat, fixed: Cube)
    requires a < |F0| == |F|
  {
    && Grounded(s, CubesOf(R), F0[a].cube, F[a].cube, fixed)
    && forall b :: a < b < |F| && !F0[b].prime && !F[b].covered ==>
      Beyond(s, CubesOf(R), F0[a].cube, F[a].cube, fixed, F0[b].cube)
  }

  /** So it is for all cubes expanded so far. */
  ghost predicate AllTried(s: Space, R: Cover, F0: Cover, F: Cover, k: nat, fixed: Cube) {
    |F| == |F0| && forall a :: 0 <= a < k && a < |F| && !F[a].covered ==>
      if F0[a].prime then F[a].cube == F0[a].cube else Tried(s, R, F0, F, a, fixed)
  }

  lemma TriedStep(s: Space, R: Cover, F0: Cover, F: Cover, k: nat, fixed: Cube, F': Cover)
    requires Progress(s, F0, F, k, fixed) && k < |F| && !F[k].prime && !F[k].covered
    requires AllTried(s, R, F0, F, k, fixed) && Expanded(s, F, k, fixed, F') && Greedy(s, R, F, k, fixed, F')
    requires Grounded(s, CubesOf(R), F[k].cube, F'[k].cube, fixed)
    ensures AllTried(s, R, F0, F', k + 1, fixed)
  {
    hide Full, Parked, Grounded, Beyond;
    forall a | 0 <= a <= k && !F'[a].covered
      ensures if F0[a].prime then F'[a].cube == F0[a].cube else Tried(s, R, F0, F', a, fixed)
    {
      if a < k {
        assert !F[a].covered && F'[a].cube == F[a].cube;
      }
    }
  }

  lemma TriedSkip(s: Space, R: Cover, F0: Cover, F: Cover, k: nat, fixed: Cube)
    requires Progress(s, F0, F, k, fixed) && k < |F| && AllTried(s, R, F0, F, k, fixed)
    requires F[k].prime || F[k].covered
    ensures AllTried(s, R, F0, F, k + 1, fixed)
  {
    hide Full, Parked, Grounded, Beyond, Tried;
  }

  /** orig names the cube of F0 that each cube of G comes from.  A cube that was prime
      has not changed; the others are expanded as far as they go, and of two of them
      one is beyond the other. */
  ghost predicate ThoroughBy(s: Space, R: Cover, F0: Cover, G: Cover, fixed: Cube, orig: seq<nat>) {
    && |orig| == |G| && (forall j :: 0 <= j < |G| ==> orig[j] < |F0|)
    && (forall j :: 0 <= j < |G| ==> F0[orig[j]].cube <= G[j].cube)
    && (forall j :: 0 <= j < |G| ==>
          if F0[orig[j]].prime then G[j].cube == F0[orig[j]].cube
          else Grounded(s, CubesOf(R), F0[orig[j]].cube, G[j].cube, fixed))
    && (forall i, j :: 0 <= i < |G| && 0 <= j < |G| && i != j && !F0[orig[i]].prime && !F0[orig[j]].prime ==>
          Split(s, R, F0[orig[i]].cube, G[i].cube, F0[orig[j]].cube, G[j].cube, fixed))
  }

  /** Of the two expanded cubes one was beyond the other. */
  ghost predicate Split(s: Space, R: Cover, a0: Cube, a: Cube, b0: Cube, b: Cube, fixed: Cube) {
    Beyond(s, CubesOf(R), a0, a, fixed, b0) || Beyond(s, CubesOf(R), b0, b, fixed, a0)
  }

  ghost predicate Thorough(s: Space, R: Cover, F0: Cover, G: Cover, fixed: Cube) {
    exists orig :: ThoroughBy(s, R, F0, G, fixed, orig)
  }

  lemma ThoroughEnd(s: Space, R: Cover, F0: Cover, F1: Cover, base: Cover, fixed: Cube, F: Cover, M: Cover, G: Cover,
      from: seq<nat>)
    requires multiset(F1) == multiset(F0) && |base| == |F1| == |F| == |M| && Progress(s, base, F, |F|, fixed)
    requires forall i :: 0 <= i < |base| ==> base[i] == F1[i].(covered := false, nonEssen := false)
    requires AllTried(s, R, base, F, |F|, fixed) && Activated(F, M) && Selected(M, G, from)
    requires forall i, j :: 0 <= i < j < |from| ==> from[i] != from[j]
    ensures Thorough(s, R, F0, G, fixed)
  {
    hide Full, Parked, Grounded, Beyond, Progress, AllTried;
    var place := Places(F0, F1);
    var orig := seq(|G|, j requires 0 <= j < |G| => place[from[j]]);
    forall j | 0 <= j < |G|
      ensures orig[j] < |F0| && F0[orig[j]].cube == base[from[j]].cube && F0[orig[j]].prime == base[from[j]].prime
      ensures !F[from[j]].covered && G[j].cube == F[from[j]].cube && base[from[j]].cube <= G[j].cube
      ensures if base[from[j]].prime then G[j].cube == base[from[j]].cube
              else Tried(s, R, base, F, from[j], fixed)
    {
      assert M[from[j]].active;
      assert F0[place[from[j]]] == F1[from[j]];
      TriedAt(s, R, base, F, fixed, from[j]);
    }
    forall i, j | 0 <= i < |G| && 0 <= j < |G| && i != j && !F0[orig[i]].prime && !F0[orig[j]].prime
      ensures Split(s, R, F0[orig[i]].cube, G[i].cube, F0[orig[j]].cube, G[j].cube, fixed)
    {
      assert from[i] != from[j];
      if from[i] < from[j] {
        assert Tried(s, R, base, F, from[i], fixed);
      } else {
        assert Tried(s, R, base, F, from[j], fixed);
      }
    }
    assert ThoroughBy(s, R, F0, G, fixed, orig);
  }

  lemma TriedAt(s: Space, R: Cover, F0: Cover, F: Cover, fixed: Cube, a: nat)
    requires AllTried(s, R, F0, F, |F|, fixed) && Progress(s, F0, F, |F|, fixed) && a < |F| && !F[a].covered
    ensures if F0[a].prime then F[a].cube == F0[a].cube else Tried(s, R, F0, F, a, fixed)
    ensures F0[a].cube <= F[a].cube
  {
    hide Full, Parked, Tried;
  }

  /** Where each cube of the sorted cover stands in the given one. */
  lemma Places(F0: Cover, F1: Cover) returns (place: seq<nat>)
    requires multiset(F1) == multiset(F0)
    ensures |place| == |F1| && forall i :: 0 <= i < |F1| ==> place[i] < |F0| && F0[place[i]] == F1[i]
  {
    place := [];
    while |place| < |F1|
      invariant |place| <= |F1|
      invariant forall i :: 0 <= i < |place| ==> place[i] < |F0| && F0[place[i]] == F1[i]
    {
      var c := F1[|place|];
      assert c in multiset(F1);
      assert c in F0;
      var k :| 0 <= k < |F0| && F0[k] == c;
      place := place + [k];
    }
  }

  lemma ClearStep(s: Space, F0: Cover, F: Cover, k: nat, fixed: Cube, F': Cover, R: Cover)
    requires k < |F| && Expanded(s, F, k, fixed, F') && Families.Disjoint(s, F, R)
    requires Clear(s, CubesOf(R), F'[k].cube)
    ensures Families.Disjoint(s, F', R)
  {
    hide Full, Meets;
    forall i, j | 0 <= i < |F'| && 0 <= j < |R|
      ensures !Meets(s, F'[i].cube, R[j].cube)
    {
      if i == k {
        assert !Meets(s, CubesOf(R)[j], F'[k].cube);
        MeetsSym(s, R[j].cube, F'[k].cube);
      } else {
        assert F'[i].cube == F[i].cube;
      }
    }
  }

  lemma MeetsSym(s: Space, a: Cube, b: Cube)
    ensures Meets(s, a, b) == Meets(s, b, a)
  {
    assert a * b == b * a;
  }

  lemma ClearAt(s: Space, F: Cover, R: Cover, k: nat)
    requires Families.Disjoint(s, F, R) && k < |F|
    ensures Clear(s, CubesOf(R), F[k].cube)
  {
    hide Meets;
    forall j | 0 <= j < |R|
      ensures !Meets(s, CubesOf(R)[j], F[k].cube)
    {
      MeetsSym(s, R[j].cube, F[k].cube);
    }
  }

  /** The parts of the sparse variables. */
  function SparseParts(s: Space, sparse: set<nat>): (c: Cube)
    ensures c <= Full(s)
    ensures forall p :: p in c <==> p in Full(s) && p.v in sparse
  {
    set p | p in Full(s) && p.v in sparse
  }

  /** What must not be raised. */
  function InitLower(s: Space, sparse: set<nat>, nonsparse: bool): Cube {
    if nonsparse then SparseParts(s, sparse) else {}
  }

  /** Expanding F0 gets stuck: the OFF-set stalls, nothing is lowered beforehand,
      and there is a cube to expand. */
  ghost predicate Stuck(s: Space, F: Cover, R: Cover, initLower: Cube) {
    initLower == {} && Stalls(s, CubesOf(R)) && exists i :: 0 <= i < |F| && !F[i].prime
  }

  /** Every cube that is to be expanded fits the OFF-set cubes in its reach at distance
      two or more. */
  ghost predicate PairsFit(s: Space, F: Cover, R: Cover, fixed: Cube) {
    forall i :: 0 <= i < |F| && !F[i].prime ==> AllFit(s, CubesOf(R), F[i].cube, F[i].cube + (Full(s) - fixed))
  }

  /** A cover that fits the OFF-set as a whole fits it cube by cube. */
  lemma FittingPairs(s: Space, F: Cover, R: Cover, fixed: Cube)
    requires Fitting(s, F, R)
    ensures PairsFit(s, F, R, fixed)
  {
    hide Full, AllFit, Fitting;
    forall i | 0 <= i < |F| && !F[i].prime
      ensures AllFit(s, CubesOf(R), F[i].cube, F[i].cube + (Full(s) - fixed))
    {
      FitAt(s, F, R, i, F[i].cube + (Full(s) - fixed));
    }
  }

  /** Expand each cube that is not prime or covered yet, then drop the covered
      ones. */
  method ExpandCover(s: Space, F0: Cover, R: Cover, sparse: set<nat>, nonsparse: bool)
      returns (outcome: Outcome, G: Cover)
    requires Families.Valid(s, F0) && Families.Valid(s, R)
    ensures outcome == NotOrthogonal ==> !Families.Disjoint(s, F0, R)
    ensures outcome == NoFreePart <==> Stuck(s, F0, R, InitLower(s, sparse, nonsparse))
    ensures outcome == Done ==> Families.Valid(s, G) && |G| <= |F0| && Inside(F0, G)
    ensures outcome == Done && Families.Disjoint(s, F0, R) && PairsFit(s, F0, R, InitLower(s, sparse, nonsparse)) ==>
      Families.Disjoint(s, G, R)
    ensures outcome == Done ==> Widened(s, F0, G, InitLower(s, sparse, nonsparse))
    ensures outcome == Done ==> AllPrime(G)
    ensures outcome == Done ==> Thorough(s, R, F0, G, InitLower(s, sparse, nonsparse))
  {
    hide Full, Meets, NonVoid, AllFit, Clear, Families.Valid, Families.Disjoint, Progress, Expanded, Inside, Widened,
      PairsFit, SparseParts, Stalls, Greedy, AllTried, Grounded, Thorough;
    var F1 := Reorder(F0);
    ReorderedFacts(s, F0, F1);
    var F := ResetFlags(F1);
    SameCubesFacts(s, F1, F);
    ghost var base := F;
    StartFacts(s, F0, F1, base, R);
    SamePrimes(F0, F1, base);
    var initLower := InitLower(s, sparse, nonsparse);
    ProgressStart(s, base, initLower);
    NoneTried(s, R, base, initLower);
    var k := 0;
    while k < |F|
      invariant 0 <= k <= |F| == |F0|
      invariant Progress(s, base, F, k, initLower) && AllTried(s, R, base, F, k, initLower)
      invariant Families.Disjoint(s, F0, R) && PairsFit(s, F0, R, initLower) ==> Families.Disjoint(s, F, R)
      invariant initLower == {} && Stalls(s, CubesOf(R)) ==> F == base && forall i :: 0 <= i < k ==> base[i].prime
    {
      ProgressAt(s, base, F, k, initLower);
      if !F[k].prime && !F[k].covered {
        var F';
        outcome, F' := ExpandOne(s, R, F, k, initLower);
        if Families.Disjoint(s, F0, R) {
          ClearAt(s, base, R, k);
        }
        if outcome != Done {
          return outcome, F;
        }
        ProgressStep(s, base, F, k, initLower, F');
        TriedStep(s, R, base, F, k, initLower, F');
        if Families.Disjoint(s, F0, R) && PairsFit(s, F0, R, initLower) {
          PairsFitAt(s, F0, F1, base, F, k, R, initLower);
          ClearStep(s, base, F, k, initLower, F', R);
        }
        F := F';
      } else {
        ProgressSkip(s, base, F, k, initLower);
        TriedSkip(s, R, base, F, k, initLower);
      }
      k := k + 1;
    }
    var M := ActivateUncovered(F);
    ghost var from;
    G, from := Inactive(M);
    outcome := Done;
    FinishFacts(s, F0, base, initLower, F, M, G, from, R);
    ThoroughEnd(s, R, F0, F1, base, initLower, F, M, G, from);
  }

  lemma NoneTried(s: Space, R: Cover, F: Cover, fixed: Cube)
    ensures AllTried(s, R, F, F, 0, fixed)
  {
  }

  /** Sorting and resetting the other flags keeps what is marked prime. */
  lemma SamePrimes(F0: Cover, F1: Cover, F: Cover)
    requires multiset(F1) == multiset(F0) && |F| == |F1| == |F0|
    requires forall i :: 0 <= i < |F| ==> F[i] == F1[i].(covered := false, nonEssen := false)
    ensures (exists i :: 0 <= i < |F0| && !F0[i].prime) <==> exists i :: 0 <= i < |F| && !F[i].prime
    ensures forall i :: 0 <= i < |F| ==> !F[i].covered
  {
    if i :| 0 <= i < |F0| && !F0[i].prime {
      assert F0[i] in multiset(F1);
      assert F0[i] in F1;
      var k :| 0 <= k < |F1| && F1[k] == F0[i];
      assert !F[k].prime;
    }
    if i :| 0 <= i < |F| && !F[i].prime {
      assert F1[i] in multiset(F0);
      assert F1[i] in F0;
      var k :| 0 <= k < |F0| && F0[k] == F1[i];
    }
  }

  method ResetFlags(F: Cover) returns (G: Cover)
    ensures |G| == |F| && forall i :: 0 <= i < |F| ==> G[i] == F[i].(covered := false, nonEssen := false)
  {
    G := F;
    var i := 0;
    while i < |F|
      invariant 0 <= i <= |F| == |G|
      invariant forall j :: 0 <= j < i ==> G[j] == F[j].(covered := false, nonEssen := false)
      invariant forall j :: i <= j < |F| ==> G[j] == F[j]
    {
      G := G[i := F[i].(covered := false, nonEssen := false)];
      i := i + 1;
    }
  }

  /** The cubes that are not covered are the active ones. */
  ghost predicate Activated(F: Cover, M: Cover) {
    |M| == |F| && forall i :: 0 <= i < |F| ==> M[i] == F[i].(active := !F[i].covered)
  }

  /** The cubes of G are active cubes of M, all of them. */
  ghost predicate Selected(M: Cover, G: Cover, from: seq<nat>) {
    && |from| == |G|
    && (forall j :: 0 <= j < |G| ==> from[j] < |M| && G[j] == M[from[j]] && G[j].active)
    && (forall i :: 0 <= i < |M| && M[i].active ==> i in from)
  }

  method ActivateUncovered(F: Cover) returns (G: Cover)
    ensures Activated(F, G)
  {
    G := F;
    var i := 0;
    while i < |F|
      invariant 0 <= i <= |F| == |G|
      invariant forall j :: 0 <= j < i ==> G[j] == F[j].(active := !F[j].covered)
      invariant forall j :: i <= j < |F| ==> G[j] == F[j]
    {
      G := G[i := F[i].(active := !F[i].covered)];
      i := i + 1;
    }
  }

  /** Every cube of G contains a cube of F and has no other fixed part. */
  ghost predicate Widened(s: Space, F: Cover, G: Cover, fixed: Cube) {
    forall j :: 0 <= j < |G| ==> Grown(s, F, fixed, G[j].cube)
  }

  ghost predicate Grown(s: Space, F: Cover, fixed: Cube, c: Cube) {
    exists i :: 0 <= i < |F| && F[i].cube <= c <= F[i].cube + (Full(s) - fixed)
  }

  /** Every cube is marked a prime that is active and not covered. */
  ghost predicate AllPrime(G: Cover) {
    forall i :: 0 <= i < |G| ==> G[i].prime && G[i].active && !G[i].covered
  }

  lemma ProgressStart(s: Space, F: Cover, fixed: Cube)
    requires forall i :: 0 <= i < |F| ==> !F[i].covered
    ensures Progress(s, F, F, 0, fixed)
  {
    hide Full;
  }

  lemma ProgressAt(s: Space, F0: Cover, F: Cover, k: nat, fixed: Cube)
    requires Progress(s, F0, F, k, fixed) && k < |F| && Families.Valid(s, F0)
    ensures F[k].cube == F0[k].cube && F[k].prime == F0[k].prime && Families.Valid(s, F)
  {
    hide Full, Parked;
    forall i | 0 <= i < |F|
      ensures F[i].cube <= Full(s)
    {
      assert F0[i].cube <= Full(s);
    }
  }

  lemma ProgressSkip(s: Space, F0: Cover, F: Cover, k: nat, fixed: Cube)
    requires Progress(s, F0, F, k, fixed) && k < |F| && (F[k].prime || F[k].covered)
    ensures Progress(s, F0, F, k + 1, fixed)
  {
    hide Full, Parked;
  }

  /** A cube of a cover that fits the OFF-set fits every cube of it. */
  lemma FitAt(s: Space, F: Cover, R: Cover, k: nat, upper: Cube)
    requires Fitting(s, F, R) && k < |F|
    ensures AllFit(s, CubesOf(R), F[k].cube, upper)
  {
    hide NonVoid, Mask, Meets, Distance;
    forall j, v | 0 <= j < |R| && Meets(s, R[j].cube, upper) && 0 <= v < s.numBinary && F[k].cube * Mask(s, v) == {}
      ensures !(Mask(s, v) <= R[j].cube)
    {
      VoidApart(s, R[j].cube, upper);
      assert !Valued(s, F, v);
      assert NoneFull(s, R, v);
    }
  }

  /** A cube about to be expanded is one of the given cubes, as it was. */
  lemma PairsFitAt(s: Space, F0: Cover, F1: Cover, base: Cover, F: Cover, k: nat, R: Cover, fixed: Cube)
    requires multiset(F1) == multiset(F0) && |base| == |F1| == |F| && k < |F| && !F[k].prime
    requires base[k] == F1[k].(covered := false, nonEssen := false) && F[k].cube == base[k].cube
    requires (F[k].prime <==> base[k].prime) && PairsFit(s, F0, R, fixed)
    ensures AllFit(s, CubesOf(R), F[k].cube, F[k].cube + (Full(s) - fixed))
  {
    hide Full, AllFit;
    assert F1[k] in multiset(F0);
    assert F1[k] in F0;
    var i :| 0 <= i < |F0| && F0[i] == F1[k];
    assert !F0[i].prime;
  }

  /** Sorting and resetting the flags changes nothing that matters. */
  lemma StartFacts(s: Space, F0: Cover, F1: Cover, F: Cover, R: Cover)
    requires multiset(F1) == multiset(F0) && |F1| == |F0| && |F| == |F1|
    requires forall i :: 0 <= i < |F| ==> F[i] == F1[i].(covered := false, nonEssen := false)
    ensures Inside(F0, F) && Inside(F, F0)
    ensures SameShapes(F, F0)
    ensures Families.Disjoint(s, F0, R) ==> Families.Disjoint(s, F, R)
  {
    hide Inside, Full, Families.Disjoint, Fitting, KeepsValues, Families.Valid, Has;
    ReorderedFacts(s, F0, F1);
    SameCubesFacts(s, F1, F);
    Families.InsideTrans(F0, F1, F);
    Families.InsideTrans(F, F1, F0);
    forall i | 0 <= i < |F|
      ensures IsShape(F[i].cube, F0)
    {
      assert F1[i] in F0;
      var j :| 0 <= j < |F0| && F0[j] == F1[i];
      assert F0[j].cube == F[i].cube;
    }
    if Families.Disjoint(s, F0, R) {
      InsideDisjoint(s, F, F0, R);
    }
  }

  lemma FinishFacts(s: Space, F0: Cover, base: Cover, fixed: Cube, F: Cover, M: Cover, G: Cover, from: seq<nat>,
      R: Cover)
    requires Progress(s, base, F, |F|, fixed) && Families.Valid(s, base) && Inside(F0, base)
    requires SameShapes(base, F0)
    requires Activated(F, M)
    requires Selected(M, G, from)
    ensures Families.Valid(s, G) && Inside(F0, G)
    ensures Widened(s, F0, G, fixed)
    ensures Families.Disjoint(s, F, R) ==> Families.Disjoint(s, G, R)
    ensures AllPrime(G)
  {
    hide Full, Meets, Families.Disjoint, Families.Valid, Inside, Widened, Progress, SameShapes;
    ProgressInside(s, base, fixed, F, M, G, from);
    Families.InsideTrans(F0, base, G);
    WidenedEnd(s, F0, base, fixed, F, M, G, from);
    ProgressValid(s, base, F, |F|, fixed);
    SameCubesFacts(s, F, M);
    InactiveFacts(s, M, G, from);
    Families.InsideTrans(G, M, F);
    if Families.Disjoint(s, F, R) {
      InsideDisjoint(s, G, F, R);
    }
    LeftPrime(s, base, fixed, F, M, G, from);
  }

  lemma LeftPrime(s: Space, base: Cover, fixed: Cube, F: Cover, M: Cover, G: Cover, from: seq<nat>)
    requires Progress(s, base, F, |F|, fixed)
    requires Activated(F, M)
    requires Selected(M, G, from)
    ensures AllPrime(G)
  {
    hide Full, Parked;
  }

  lemma ProgressInside(s: Space, base: Cover, fixed: Cube, F: Cover, M: Cover, G: Cover, from: seq<nat>)
    requires Progress(s, base, F, |F|, fixed)
    requires Activated(F, M)
    requires Selected(M, G, from)
    ensures Inside(base, G)
  {
    hide Full, Parked, Within;
    forall i | 0 <= i < |base|
      ensures Within(base[i].cube, G)
    {
      ParkedWithin(base, F, M, G, from, i);
    }
  }

  lemma ProgressValid(s: Space, F0: Cover, F: Cover, k: nat, fixed: Cube)
    requires Progress(s, F0, F, k, fixed) && Families.Valid(s, F0)
    ensures Families.Valid(s, F)
  {
    hide Full, Parked;
    forall i | 0 <= i < |F|
      ensures F[i].cube <= Full(s)
    {
      assert F0[i].cube <= Full(s);
    }
  }

  lemma ParkedWithin(base: Cover, F: Cover, M: Cover, G: Cover, from: seq<nat>, i: nat)
    requires |base| == |F| && i < |F| && Parked(base, F, i)
    requires Activated(F, M)
    requires Selected(M, G, from)
    ensures Within(base[i].cube, G)
  {
    var j := i;
    if F[i].covered {
      j :| 0 <= j < |F| && !F[j].covered && F[j].prime && base[i].cube <= F[j].cube;
    }
    assert M[j].active;
    var n :| 0 <= n < |from| && from[n] == j;
    assert base[i].cube <= G[n].cube;
  }

  /** Wider cubes keep their values. */
  lemma WidenedKeeps(s: Space, F: Cover, G: Cover, fixed: Cube)
    requires Widened(s, F, G, fixed)
    ensures KeepsValues(s, F, G)
  {
    hide NoEmptier, Full;
    forall j | 0 <= j < |G|
      ensures Emptier(s, F, G[j].cube)
    {
      assert Grown(s, F, fixed, G[j].cube);
      var i :| 0 <= i < |F| && F[i].cube <= G[j].cube <= F[i].cube + (Full(s) - fixed);
      WiderNoEmptier(s, F[i].cube, G[j].cube);
    }
    EmptierKeeps(s, F, G);
  }

  lemma WidenedEnd(s: Space, F0: Cover, base: Cover, fixed: Cube, F: Cover, M: Cover, G: Cover, from: seq<nat>)
    requires Progress(s, base, F, |F|, fixed)
    requires SameShapes(base, F0)
    requires |M| == |F| && Activated(F, M) && Selected(M, G, from)
    ensures Widened(s, F0, G, fixed)
  {
    hide Full, Parked;
    forall n | 0 <= n < |G|
      ensures Grown(s, F0, fixed, G[n].cube)
    {
      var i := from[n];
      assert IsShape(base[i].cube, F0);
      var j :| 0 <= j < |F0| && F0[j].cube == base[i].cube;
      assert F0[j].cube <= G[n].cube <= F0[j].cube + (Full(s) - fixed);
    }
  }

  // ---- an expansion that goes wrong

  /** Expanding a cover that does not fit the OFF-set: over two binary variables its
      one cube has no part at all, and the OFF-set is one full cube.  Nothing is
      lowered by force and nothing can be covered; one set is to be met by the parts
      to lower, so at most one part is lowered, whichever it is, and the expanded
      cube meets the OFF-set. */
  method UnfitExpansion(s: Space) returns (F: Cover, R: Cover, outcome: Outcome, F': Cover)
    requires s.sizes == [2, 2] && s.numBinary == 2
    ensures F == [Plain({})] && R == [Plain(Full(s))] && Families.Disjoint(s, F, R)
    ensures outcome == Done && |F'| == 1 && Meets(s, F'[0].cube, Full(s))
  {
    hide Full, Meets, Distance, Stalls, Quiet, SetsToMeet, Expanded;
    F, R := [Plain({})], [Plain(Full(s))];
    BothClash(s);
    UnfitState(s, F, R);
    outcome, F' := ExpandOne(s, R, F, 0, {});
    UnfitEnd(s, F, R, F');
  }

  lemma UnfitState(s: Space, F: Cover, R: Cover)
    requires s.sizes == [2, 2] && s.numBinary == 2 && F == [Plain({})] && R == [Plain(Full(s))]
    ensures Families.Valid(s, F) && Families.Valid(s, R) && Alone(F, 0) && Families.Disjoint(s, F, R)
    ensures Clear(s, CubesOf(R), {}) && !Stalls(s, CubesOf(R))
    ensures Quiet(s, CubesOf(R), AllTrue(1), {}, {}) && SetsToMeet(s, CubesOf(R), AllTrue(1), {}) == 1
  {
    hide Full, Meets, Distance, NonVoid, Expansions, ForceLower, WideOnes;
    BothClash(s);
    assert CubesOf(R) == [Full(s)];
    MeetsSym(s, {}, Full(s));
    FullNotVoid(s);
    var B := LowerSetsOf(s, [Full(s)], AllTrue(1), {}, 1);
    assert LowerSetsOf(s, [Full(s)], AllTrue(1), {}, 0) == [];
    assert |B| == 1;
    OnceUnravelled(s, B);
  }

  lemma UnfitEnd(s: Space, F: Cover, R: Cover, F': Cover)
    requires s.sizes == [2, 2] && F == [Plain({})] && R == [Plain(Full(s))] && Expanded(s, F, 0, {}, F')
    requires |Full(s) - F'[0].cube| <= 1
    ensures |F'| == 1 && Meets(s, F'[0].cube, Full(s))
  {
    hide Full, Meets;
    OneLowered(s, F'[0].cube);
    MeetsSym(s, Full(s), F'[0].cube);
  }

  lemma BothClash(s: Space)
    requires s.sizes == [2, 2]
    ensures Distance(s, Full(s), {}) > 1 && !Meets(s, Full(s), {})
  {
    hide Full, Meets, Distance;
    BothEmpty(s);
    NoClash(s, Full(s), {});
  }

  lemma BothEmpty(s: Space)
    requires s.sizes == [2, 2]
    ensures Distance(s, Full(s), {}) > 1
  {
    hide Full, Mask;
    assert Full(s) * {} == {};
    assert 0 in Clashes(s, Full(s), {}) && 1 in Clashes(s, Full(s), {});
    SubsetCard({0, 1}, Clashes(s, Full(s), {}));
  }

  lemma OnceUnravelled(s: Space, B: seq<Cube>)
    requires s.sizes == [2, 2] && s.numBinary == 2 && |B| == 1
    ensures Expansions(s, B, s.numBinary) == 1
  {
    assert B[..0] == [];
    assert Unravel.Expansion(s, B[0], 2, 1) == 1;
  }

  /** With at most one part missing, both variables still have a value. */
  lemma OneLowered(s: Space, c: Cube)
    requires s.sizes == [2, 2] && |Full(s) - c| <= 1
    ensures Meets(s, Full(s), c)
  {
    forall v | 0 <= v < 2
      ensures Full(s) * c * Mask(s, v) != {}
    {
      if Part(v, 0) !in c && Part(v, 1) !in c {
        SubsetCard({Part(v, 0), Part(v, 1)}, Full(s) - c);
      } else if Part(v, 0) in c {
        assert Part(v, 0) in Full(s) * c * Mask(s, v);
      } else {
        assert Part(v, 1) in Full(s) * c * Mask(s, v);
      }
    }
  }

  lemma FullNotVoid(s: Space)
    ensures NonVoid(s, Full(s))
  {
    hide Full, Mask;
    forall v | 0 <= v < |s.sizes|
      ensures Full(s) * Mask(s, v) != {}
    {
      FirstPart(s, v);
      assert Part(v, 0) in Full(s) * Mask(s, v);
    }
  }

  lemma FirstPart(s: Space, v: nat)
    requires v < |s.sizes|
    ensures Part(v, 0) in Full(s) && Part(v, 0) in Mask(s, v)
  {
  }
}
