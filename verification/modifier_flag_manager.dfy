/** The manager object: the list of `ModifierFlagLists`, changed in place. */
module ModifierFlagManagers {
  import opened Types
  import opened ActiveModifierFlags
  import opened ModifierFlagLists
  import opened Sequences

  class ModifierFlagManager {
    var active: seq<ActiveFlag>

    ghost predicate Valid()
      reads this
    {
      Canonical(active)
    }

    constructor ()
      ensures Valid() && active == []
    {
      active := [];
    }

    method PushBack(f: ActiveFlag)
      requires Valid() && f.Constructed()
      modifies this
      ensures Valid() && active == Push(old(active), f)
      ensures forall k :: Counter(active, k) == StepCounter(Counter(old(active), k), PushFlag(f), k)
    {
      match f.ty {
        case Increase | Decrease | IncreaseSticky | DecreaseSticky =>
          active := active + [f];
          EraseAllPairs();
        case IncreaseLock | DecreaseLock | IncreaseLedLock =>
          active := Filter(active, Except(f));
          active := active + [f];
          EraseAllPairs();
        case DecreaseLedLock =>
          active := Filter(active, NotPairedWith(f));
      }
      PushRefines(old(active), f, f.Key());
      forall k ensures Counter(active, k) == StepCounter(Counter(old(active), k), PushFlag(f), k) {
        PushRefines(old(active), f, k);
      }
    }

    /** The nested loops over indices, erasing in place. */
    method EraseAllPairs()
      modifies this
      ensures active == ErasePairs(old(active))
    {
      hide FirstPaired, ErasePairsFrom, RemoveAt;
      var i1 := 0;
      while i1 < |active|
        invariant ErasePairsFrom(active, i1) == ErasePairs(old(active))
        decreases |active|, |active| - i1
      {
        ghost var before, at := active, i1;
        var i2 := i1 + 1;
        while i2 < |active|
          invariant active == before && i1 == at && i1 < i2 <= |active|
          invariant forall j :: i1 < j < i2 ==> !active[i1].IsPaired(active[j])
        {
          if active[i1].IsPaired(active[i2]) {
            ErasePairsStep(before, at, i2);
            active := RemoveAt(active, i2);
            active := RemoveAt(active, i1);
            if i1 > 0 {
              i1 := i1 - 1;
            }
            break;
          }
          i2 := i2 + 1;
        }
        if active == before {
          ErasePairsStep(before, at, |before|);
        }
        i1 := i1 + 1;
      }
      ErasePairsEnd(active, i1);
    }

    /** The erasing operations; `reset` is the one that keeps nothing. */
    method Erase(op: Op)
      requires Valid() && !op.PushFlag?
      modifies this
      ensures Valid() && active == Apply(old(active), op)
      ensures forall k :: Counter(active, k) == StepCounter(Counter(old(active), k), op, k)
    {
      active := Filter(active, Surviving(op));
      FilterCanonical(old(active), Surviving(op));
      forall k ensures Counter(active, k) == StepCounter(Counter(old(active), k), op, k) {
        ApplyRefines(old(active), op, k);
      }
    }

    method IsPressed(m: ModifierFlag) returns (r: bool)
      ensures r == Pressed(active, m)
    {
      SumEmpty(m);
      hide Sum;
      var count, size, ledCount := 0, 0, 0;
      assert active[..0] == [];
      for i := 0 to |active|
        invariant count == Net(active[..i], m)
        invariant ledCount == Sum(active[..i], m, LedLock)
        invariant size >= 0 && (size == 0 <==> OnlyLed(active[..i], m))
      {
        var f := active[i];
        assert active[..i + 1] == active[..i] + [f];
        PressedStep(active[..i], f, m);
        if f.flag == m {
          if f.IsLedLock() {
            ledCount := ledCount + f.Count();
          } else {
            count := count + f.Count();
            size := size + 1;
          }
        }
      }
      assert active[..|active|] == active;
      r := if size == 0 then ledCount > 0 else count > 0;
    }
  }
}
