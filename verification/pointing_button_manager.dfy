/** The list of pressed pointing buttons: presses pile up, one release clears them all. */
module PointingButtonManagers {
  import opened Types
  import opened Sequences
  import opened EventQueueEntries

  datatype ButtonType = ButtonIncrease | ButtonDecrease

  datatype ActiveButton = ActiveButton(ty: ButtonType, usagePair: Switch, device: DeviceId)
  {
    function Count(): int {
      if ty == ButtonIncrease then 1 else -1
    }

    /** Devices are ignored. */
    predicate IsPaired(other: ActiveButton) {
      ty != other.ty && usagePair == other.usagePair
    }
  }

  function NotPairedButton(b: ActiveButton): ActiveButton -> bool {
    (a: ActiveButton) => !a.IsPaired(b)
  }

  function NotOfDevice(d: DeviceId): ActiveButton -> bool {
    (a: ActiveButton) => a.device != d
  }

  function PushButton(s: seq<ActiveButton>, b: ActiveButton): seq<ActiveButton> {
    if b.usagePair.usage == 0 then s
    else if b.ty == ButtonIncrease then s + [b]
    else Filter(s, NotPairedButton(b))
  }

  /** Only presses are ever stored. */
  predicate OnlyIncreases(s: seq<ActiveButton>) {
    forall b :: b in s ==> b.ty == ButtonIncrease
  }

  function ButtonCount(s: seq<ActiveButton>, p: Switch): int {
    if s == [] then 0
    else ButtonCount(s[..|s| - 1], p) + if s[|s| - 1].usagePair == p then s[|s| - 1].Count() else 0
  }

  predicate ButtonPressed(s: seq<ActiveButton>, p: Switch) {
    ButtonCount(s, p) > 0
  }

  lemma {:induction false} PressedIffHeld(s: seq<ActiveButton>, p: Switch)
    requires OnlyIncreases(s)
    ensures ButtonCount(s, p) >= 0
    ensures ButtonPressed(s, p) <==> exists b :: b in s && b.usagePair == p
  {
    if s != [] {
      var t, b := s[..|s| - 1], s[|s| - 1];
      PressedIffHeld(t, p);
      assert forall c :: c in s <==> c in t || c == b;
    }
  }

  /** One release ends every press of that button, whichever devices pressed it. */
  lemma ReleaseClears(s: seq<ActiveButton>, b: ActiveButton, p: Switch)
    requires OnlyIncreases(s) && b.usagePair.usage != 0
    ensures OnlyIncreases(PushButton(s, b))
    ensures ButtonPressed(PushButton(s, b), p) <==>
            if p == b.usagePair then b.ty == ButtonIncrease else ButtonPressed(s, p)
  {
    var t := PushButton(s, b);
    FilterKeeps(s, NotPairedButton(b));
    PressedIffHeld(s, p);
    assert OnlyIncreases(t);
    PressedIffHeld(t, p);
    hide Filter, ButtonCount;
    if b.ty == ButtonIncrease {
      assert b in t && forall c :: c in t <==> c in s || c == b;
    } else {
      assert forall c :: c in t <==> c in s && c.usagePair != b.usagePair;
    }
  }

  class PointingButtonManager {
    var active: seq<ActiveButton>

    constructor ()
      ensures active == []
    {
      active := [];
    }

    method PushBack(b: ActiveButton)
      modifies this
      ensures active == PushButton(old(active), b)
      ensures b.usagePair.usage == 0 ==> active == old(active)
      ensures old(OnlyIncreases(active)) ==> OnlyIncreases(active)
    {
      if b.usagePair.usage == 0 {
        return;
      }
      match b.ty {
        case ButtonIncrease =>
          active := active + [b];
        case ButtonDecrease =>
          active := Filter(active, NotPairedButton(b));
      }
      FilterKeeps(old(active), NotPairedButton(b));
    }

    method EraseDevice(device: DeviceId)
      modifies this
      ensures active == Filter(old(active), NotOfDevice(device))
      ensures forall b :: b in active <==> b in old(active) && b.device != device
    {
      FilterKeeps(active, NotOfDevice(device));
      active := Filter(active, NotOfDevice(device));
    }

    method IsPressed(p: Switch) returns (r: bool)
      ensures r == ButtonPressed(active, p)
    {
      var count := 0;
      for i := 0 to |active|
        invariant count == ButtonCount(active[..i], p)
      {
        assert active[..i + 1][..i] == active[..i];
        if active[i].usagePair == p {
          count := count + active[i].Count();
        }
      }
      assert active[..|active|] == active;
      r := count > 0;
    }
  }
}
