/** Marking where the last held key or button of a device is released. */
module DeviceKeysReleased {
  import opened Types
  import opened EventQueueEntries

  const RELEASED := Event(DeviceKeysAndPointingButtonsAreReleased, OtherValue(0))

  predicate Presses(e: Entry, device: DeviceId, s: Switch) {
    e.device == device && e.eventType == KeyDown && e.event.value == SwitchValue(s)
  }

  predicate Releases(e: Entry, device: DeviceId, s: Switch) {
    e.device == device && e.eventType == KeyUp && e.event.value == SwitchValue(s)
  }

  function PressedAfter(pressed: set<Switch>, e: Entry, device: DeviceId): set<Switch> {
    if e.device != device || !e.event.IsSwitch() then pressed
    else if e.eventType == KeyDown then pressed + {e.event.value.switch}
    else if e.eventType == KeyUp then pressed - {e.event.value.switch}
    else pressed
  }

  function PressedBy(initial: set<Switch>, entries: seq<Entry>, device: DeviceId): set<Switch> {
    if entries == [] then initial
    else PressedAfter(PressedBy(initial, entries[..|entries| - 1], device), entries[|entries| - 1], device)
  }

  function Marker(device: DeviceId, e: Entry): Entry {
    Entry(device, e.timeStamp, e.inputDelay, RELEASED, Single, None, RELEASED, VirtualEvent, false, Valid)
  }

  // ----- The reference: a switch is held if it was pressed and not released since -----

  ghost predicate Held(initial: set<Switch>, entries: seq<Entry>, device: DeviceId, s: Switch) {
    || (s in initial && forall i :: 0 <= i < |entries| ==> !Releases(entries[i], device, s))
    || (exists j :: 0 <= j < |entries| && PressedSince(entries, device, s, j))
  }

  ghost predicate PressedSince(entries: seq<Entry>, device: DeviceId, s: Switch, j: nat) {
    j < |entries| && Presses(entries[j], device, s)
    && forall i :: j < i < |entries| ==> !Releases(entries[i], device, s)
  }

  ghost predicate NothingHeld(initial: set<Switch>, entries: seq<Entry>, device: DeviceId) {
    forall s :: !Held(initial, entries, device, s)
  }

  /** This entry ends the last hold. */
  ghost predicate EndsLastHold(initial: set<Switch>, entries: seq<Entry>, device: DeviceId) {
    && entries != []
    && !NothingHeld(initial, entries[..|entries| - 1], device)
    && NothingHeld(initial, entries, device)
  }

  /** Every entry in order, and a marker right after each one that ends the last hold. */
  ghost function Marked(initial: set<Switch>, entries: seq<Entry>, device: DeviceId): seq<Entry> {
    if entries == [] then []
    else
      var before := Marked(initial, entries[..|entries| - 1], device) + [entries[|entries| - 1]];
      if EndsLastHold(initial, entries, device) then before + [Marker(device, entries[|entries| - 1])] else before
  }

  lemma HeldSnoc(initial: set<Switch>, t: seq<Entry>, e: Entry, device: DeviceId, s: Switch)
    ensures Held(initial, t + [e], device, s) <==>
            Presses(e, device, s) || (Held(initial, t, device, s) && !Releases(e, device, s))
  {
    var u := t + [e];
    if Presses(e, device, s) {
      assert PressedSince(u, device, s, |t|);
    } else if Held(initial, t, device, s) && !Releases(e, device, s) {
      if j :| 0 <= j < |t| && PressedSince(t, device, s, j) {
        assert PressedSince(u, device, s, j);
      }
    } else if Held(initial, u, device, s) {
      assert u[|t|] == e;
      assert forall i :: 0 <= i < |t| ==> u[i] == t[i];
      if j :| 0 <= j < |u| && PressedSince(u, device, s, j) {
        assert j < |t| ==> PressedSince(t, device, s, j);
      }
    }
  }

  /** The set that is kept is what is held. */
  lemma {:induction false} PressedIffHeld(initial: set<Switch>, entries: seq<Entry>, device: DeviceId, s: Switch)
    ensures s in PressedBy(initial, entries, device) <==> Held(initial, entries, device, s)
  {
    if entries != [] {
      var t, e := entries[..|entries| - 1], entries[|entries| - 1];
      PressedIffHeld(initial, t, device, s);
      HeldSnoc(initial, t, e, device, s);
      assert entries == t + [e];
      hide Held;
    }
  }

  lemma NothingPressedIff(initial: set<Switch>, entries: seq<Entry>, device: DeviceId)
    ensures PressedBy(initial, entries, device) == {} <==> NothingHeld(initial, entries, device)
  {
    hide PressedBy, Held;
    forall s ensures s in PressedBy(initial, entries, device) <==> Held(initial, entries, device, s) {
      PressedIffHeld(initial, entries, device, s);
    }
  }

  class PressedKeysManager {
    var entries: set<Switch>

    constructor ()
      ensures entries == {}
    {
      entries := {};
    }

    method Insert(s: Switch)
      modifies this
      ensures entries == old(entries) + {s}
    {
      entries := entries + {s};
    }

    method Erase(s: Switch)
      modifies this
      ensures entries == old(entries) - {s}
    {
      entries := entries - {s};
    }

    predicate Empty()
      reads this
    {
      entries == {}
    }
  }

  method InsertDeviceKeysAndPointingButtonsAreReleasedEvent(
      entries: seq<Entry>, device: DeviceId, manager: PressedKeysManager) returns (result: seq<Entry>)
    modifies manager
    ensures result == Marked(old(manager.entries), entries, device)
    ensures forall s :: s in manager.entries <==> Held(old(manager.entries), entries, device, s)
  {
    ghost var initial := manager.entries;
    result := [];
    for i := 0 to |entries|
      invariant result == Marked(initial, entries[..i], device)
      invariant manager.entries == PressedBy(initial, entries[..i], device)
    {
      var e := entries[i];
      ghost var was, done := manager.entries, entries[..i + 1];
      assert done[..|done| - 1] == entries[..i] && done[|done| - 1] == e;
      NothingPressedIff(initial, entries[..i], device);
      NothingPressedIff(initial, done, device);
      hide Held, NothingHeld, Marker;
      result := result + [e];
      if e.device == device {
        if e.eventType == KeyDown {
          if e.event.IsSwitch() {
            manager.Insert(e.event.value.switch);
          }
        } else if e.eventType == KeyUp {
          if !manager.Empty() {
            if e.event.IsSwitch() {
              manager.Erase(e.event.value.switch);
            }
            if manager.Empty() {
              result := result + [Marker(device, e)];
            }
          }
        }
      }
      assert manager.entries == PressedAfter(was, e, device);
    }
    assert entries[..|entries|] == entries;
    forall s ensures s in manager.entries <==> Held(initial, entries, device, s) {
      PressedIffHeld(initial, entries, device, s);
    }
  }

  /** The marker carries the time of the release, and its device. */
  lemma MarkerIs(device: DeviceId, e: Entry)
    ensures var m := Marker(device, e);
            && m.event.kind == DeviceKeysAndPointingButtonsAreReleased && m.originalEvent == m.event
            && m.device == device && m.timeStamp == e.timeStamp && m.inputDelay == e.inputDelay
            && m.eventType == Single && m.integerValue.None?
            && m.state == VirtualEvent && !m.isLazy && m.validity == Valid
  {
  }
}
