/**
 What following an entry means, in terms of the counters and the pressed
 buttons: a press counts up, a release counts down.
 */
module EventQueueMeaning {
  import opened Types
  import opened Sequences
  import opened ActiveModifierFlags
  import opened ModifierFlagLists
  import opened PointingButtonManagers
  import opened EventQueueEntries
  import opened EventQueues

  // ----- Switches and the flags they stand for -----

  /** The constructor of a switch from a flag, in HID usage numbers; the two sentinels have no switch. */
  function SwitchFor(m: ModifierFlag): Switch {
    match m
    case Zero => Switch(0, 0)
    case CapsLock => Switch(0x07, 0x39)
    case LeftControl => Switch(0x07, 0xe0)
    case LeftShift => Switch(0x07, 0xe1)
    case LeftOption => Switch(0x07, 0xe2)
    case LeftCommand => Switch(0x07, 0xe3)
    case RightControl => Switch(0x07, 0xe4)
    case RightShift => Switch(0x07, 0xe5)
    case RightOption => Switch(0x07, 0xe6)
    case RightCommand => Switch(0x07, 0xe7)
    case Fn => Switch(0x00ff, 0x03)
    case End => Switch(0, 0)
  }

  /** Every flag but caps lock and the sentinels is read back; only fn has a second switch. */
  lemma FlagRoundTrip(m: ModifierFlag, s: Switch)
    ensures SwitchFor(m).MakeModifierFlag() == if m == Zero || m == CapsLock || m == End then None else Some(m)
    ensures s.MakeModifierFlag() == Some(m) ==>
              s == SwitchFor(m) || (m == Fn && s == Switch(0xff01, 0x03))
  {
  }

  // ----- One entry and one counter -----

  /** The switch of the entry stands for `m`. */
  predicate IsSwitchOf(e: Entry, m: ModifierFlag) {
    e.event.IsSwitch() && e.event.value.switch.MakeModifierFlag() == Some(m)
  }

  /** A modifier moves the plain counter of its flag and device by one, up exactly on a press. */
  lemma ModifierFollows(s: seq<ActiveFlag>, e: Entry, m: ModifierFlag, k: CounterKey)
    requires Canonical(s) && IsSwitchOf(e, m)
    ensures Counter(UpdateFlags(s, e), k) ==
            Counter(s, k) +
            if k != CounterKey(Plain, m, e.device) then 0 else if e.eventType == KeyDown then 1 else -1
  {
    PushRefines(s, MakeActiveFlag(SwitchType(e.eventType), m, e.device), k);
    hide Push, Counter, Canonical;
  }

  /** Any other switch clears the sticky counters on a valid press, and does nothing else. */
  lemma KeyFollows(s: seq<ActiveFlag>, e: Entry, k: CounterKey)
    requires Canonical(s) && e.event.IsSwitch() && e.event.value.switch.MakeModifierFlag().None?
    ensures Counter(UpdateFlags(s, e), k) ==
            if e.eventType == KeyDown && e.validity == Valid && k.kind == Sticky then 0 else Counter(s, k)
  {
    ApplyRefines(s, EraseSticky, k);
    hide Apply, Counter, Canonical;
  }

  lemma {:induction false} StickyCountIff(s: seq<ActiveFlag>, m: ModifierFlag)
    ensures StickyCount(s, m) > 0 <==> exists f :: f in s && f.flag == m && f.IsSticky()
  {
    if s != [] {
      StickyCountIff(s[..|s| - 1], m);
      assert forall f :: f in s <==> f in s[..|s| - 1] || f == s[|s| - 1];
    }
  }

  ghost predicate AnySticky(s: seq<ActiveFlag>, m: ModifierFlag) {
    exists d :: Counter(s, CounterKey(Sticky, m, d)) != 0
  }

  lemma StickyCountIsCounters(s: seq<ActiveFlag>, m: ModifierFlag)
    requires Canonical(s)
    ensures StickyCount(s, m) > 0 <==> AnySticky(s, m)
  {
    StickyCountIff(s, m);
    if f :| f in s && f.flag == m && f.IsSticky() {
      LockMember(s, f);
      assert f.Key() == CounterKey(Sticky, m, f.device);
      assert Counter(s, CounterKey(Sticky, m, f.device)) != 0;
    }
    if d :| Counter(s, CounterKey(Sticky, m, d)) != 0 {
      var p := Positive(CounterKey(Sticky, m, d));
      KeyEntries(p, CounterKey(Sticky, m, d));
      LockMember(s, p);
      assert p in s || p.Opposite() in s;
    }
  }

  /** A sticky event counts up when switched on, down when switched off, and the way that is due when toggled. */
  lemma StickyFollows(s: seq<ActiveFlag>, e: Entry, m: ModifierFlag, ty: StickyType, k: CounterKey)
    requires Canonical(s) && e.event == Event(StickyModifier, StickyValue(m, ty))
    ensures Counter(UpdateFlags(s, e), k) ==
            Counter(s, k) +
            if e.eventType == KeyUp || k != CounterKey(Sticky, m, e.device) then 0
            else if ty == On || (ty == Toggle && !AnySticky(s, m)) then 1
            else -1
  {
    StickyCountIsCounters(s, m);
    PushRefines(s, StickyPush(s, e), k);
    hide Push, Counter, Canonical, StickyCount, AnySticky;
  }

  /** The state of the caps lock LED sets the one LED counter of caps lock. */
  lemma LedFollows(s: seq<ActiveFlag>, e: Entry, n: int, k: CounterKey)
    requires Canonical(s) && e.event == Event(CapsLockStateChanged, IntegerValue(n))
    ensures Counter(UpdateFlags(s, e), k) ==
            if k == CounterKey(LedLock, CapsLock, 0) then (if n != 0 then 1 else 0) else Counter(s, k)
  {
    PushRefines(s, MakeActiveFlag(if n != 0 then IncreaseLedLock else DecreaseLedLock, CapsLock, e.device), k);
    hide Push, Counter, Canonical;
  }

  /** Nothing else is followed. */
  lemma OthersAreNotFollowed(s: seq<ActiveFlag>, e: Entry)
    requires !e.event.IsSwitch()
    requires e.event.kind == StickyModifier ==> !e.event.value.StickyValue?
    requires e.event.kind == CapsLockStateChanged ==> !e.event.value.IntegerValue?
    ensures UpdateFlags(s, e) == s
  {
  }

  // ----- Pointing buttons -----

  /** A button is pressed after its press and not after its release; every other entry leaves it as it was. */
  lemma ButtonFollows(s: seq<ActiveButton>, e: Entry, p: Switch)
    requires OnlyIncreases(s)
    ensures OnlyIncreases(UpdateButtons(s, e))
    ensures ButtonPressed(UpdateButtons(s, e), p) <==>
            if e.event.value == SwitchValue(p) && p.page == 0x09 && p.usage != 0 then e.eventType == KeyDown
            else ButtonPressed(s, p)
  {
    if e.event.IsSwitch() && e.event.value.switch.IsPointingButton() && e.event.value.switch.usage != 0 {
      ReleaseClears(s, ButtonOf(e), p);
    }
    hide ButtonPressed, Filter;
  }

  /** A press is kept for its device; a release drops the presses of that button on every device. */
  lemma ButtonEntries(s: seq<ActiveButton>, e: Entry, p: Switch, b: ActiveButton)
    requires OnlyIncreases(s) && e.event.value == SwitchValue(p)
    ensures b in UpdateButtons(s, e) <==>
            if p.page != 0x09 || p.usage == 0 then b in s
            else if e.eventType == KeyDown then b in s || b == ActiveButton(ButtonIncrease, p, e.device)
            else b in s && b.usagePair != p
  {
    FilterKeeps(s, NotPairedButton(ButtonOf(e)));
    hide Filter;
  }

  // ----- Whole queues -----

  /** Presses less releases of a flag on a device. */
  function Balance(entries: seq<Entry>, m: ModifierFlag, d: DeviceId): int {
    if entries == [] then 0
    else
      var e := entries[|entries| - 1];
      Balance(entries[..|entries| - 1], m, d) +
      if !IsSwitchOf(e, m) || e.device != d then 0 else if e.eventType == KeyDown then 1 else -1
  }

  lemma PlainFollows(s: seq<ActiveFlag>, e: Entry, m: ModifierFlag, d: DeviceId)
    requires Canonical(s)
    ensures Counter(UpdateFlags(s, e), CounterKey(Plain, m, d)) ==
            Counter(s, CounterKey(Plain, m, d)) +
            if !IsSwitchOf(e, m) || e.device != d then 0 else if e.eventType == KeyDown then 1 else -1
  {
    var k := CounterKey(Plain, m, d);
    hide Counter, Canonical;
    if e.event.IsSwitch() {
      if e.event.value.switch.MakeModifierFlag().Some? {
        ModifierFollows(s, e, e.event.value.switch.MakeModifierFlag().value, k);
      } else {
        KeyFollows(s, e, k);
      }
    } else if e.event.kind == StickyModifier && e.event.value.StickyValue? {
      StickyFollows(s, e, e.event.value.flag, e.event.value.stickyType, k);
    } else if e.event.kind == CapsLockStateChanged && e.event.value.IntegerValue? {
      LedFollows(s, e, e.event.value.integer, k);
    } else {
      OthersAreNotFollowed(s, e);
    }
  }

  /** Replaying a queue adds to every plain counter the presses less the releases, whatever else the queue holds. */
  lemma {:induction false} ReplayIsBalance(st: Managers, entries: seq<Entry>, m: ModifierFlag, d: DeviceId)
    requires Canonical(st.flags)
    ensures Counter(Replay(st, entries).flags, CounterKey(Plain, m, d)) ==
            Counter(st.flags, CounterKey(Plain, m, d)) + Balance(entries, m, d)
  {
    if entries != [] {
      var t, e := entries[..|entries| - 1], entries[|entries| - 1];
      ReplayIsBalance(st, t, m, d);
      ReplayCanonical(st, t);
      PlainFollows(Replay(st, t).flags, e, m, d);
      hide UpdateFlags, Counter, Canonical;
    }
  }
}
