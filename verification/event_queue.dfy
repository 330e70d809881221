/**
 The event queue: entries in arrival order, and the modifier and pointing
 button state that follows every entry pushed.
 */
module EventQueues {
  import opened Types
  import opened Sequences
  import opened ActiveModifierFlags
  import opened ModifierFlagLists
  import opened ModifierFlagManagers
  import opened PointingButtonManagers
  import opened EventQueueEntries
  import opened EventQueueSort

  // ----- What one entry does to the two managers -----

  function StickyCount(s: seq<ActiveFlag>, m: ModifierFlag): nat {
    if s == [] then 0
    else StickyCount(s[..|s| - 1], m) + if s[|s| - 1].flag == m && s[|s| - 1].IsSticky() then 1 else 0
  }

  function SwitchType(t: EventType): FlagType {
    if t == KeyDown then Increase else Decrease
  }

  /** The entry a sticky event pushes; a toggle looks at the list. */
  function StickyPush(s: seq<ActiveFlag>, e: Entry): ActiveFlag
    requires e.event.value.StickyValue?
  {
    var v := e.event.value;
    var ty :=
      if v.stickyType == Toggle then (if StickyCount(s, v.flag) > 0 then DecreaseSticky else IncreaseSticky)
      else if v.stickyType == On then IncreaseSticky
      else DecreaseSticky;
    MakeActiveFlag(ty, v.flag, e.device)
  }

  predicate ErasesSticky(e: Entry) {
    e.eventType == KeyDown && e.validity == Valid && IsKey(e)
  }

  function UpdateFlags(s: seq<ActiveFlag>, e: Entry): seq<ActiveFlag> {
    var v := e.event.value;
    if v.SwitchValue? then
      var m := v.switch.MakeModifierFlag();
      var t := if m.Some? then Push(s, MakeActiveFlag(SwitchType(e.eventType), m.value, e.device)) else s;
      if ErasesSticky(e) then Apply(t, EraseSticky) else t
    else if e.event.kind == StickyModifier then
      if (e.eventType == KeyDown || e.eventType == Single) && v.StickyValue?
      then Push(s, StickyPush(s, e))
      else s
    else if e.event.kind == CapsLockStateChanged && v.IntegerValue? then
      Push(s, MakeActiveFlag(if v.integer != 0 then IncreaseLedLock else DecreaseLedLock, CapsLock, e.device))
    else s
  }

  function ButtonOf(e: Entry): ActiveButton
    requires e.event.IsSwitch()
  {
    ActiveButton(if e.eventType == KeyDown then ButtonIncrease else ButtonDecrease, e.event.value.switch, e.device)
  }

  function UpdateButtons(s: seq<ActiveButton>, e: Entry): seq<ActiveButton> {
    if e.event.IsSwitch() && e.event.value.switch.IsPointingButton() then PushButton(s, ButtonOf(e)) else s
  }

  datatype Managers = Managers(flags: seq<ActiveFlag>, buttons: seq<ActiveButton>)

  function Update(st: Managers, e: Entry): Managers {
    Managers(UpdateFlags(st.flags, e), UpdateButtons(st.buttons, e))
  }

  /** Pushing the entries of `s` one after the other. */
  function Replay(st: Managers, s: seq<Entry>): Managers {
    if s == [] then st else Update(Replay(st, s[..|s| - 1]), s[|s| - 1])
  }

  lemma UpdateCanonical(s: seq<ActiveFlag>, e: Entry)
    requires Canonical(s)
    ensures Canonical(UpdateFlags(s, e))
  {
    var v := e.event.value;
    if v.SwitchValue? {
      var m := v.switch.MakeModifierFlag();
      if m.Some? {
        PushStaysCanonical(s, MakeActiveFlag(SwitchType(e.eventType), m.value, e.device));
      } else {
        FilterCanonical(s, Surviving(EraseSticky));
      }
    } else if e.event.kind == StickyModifier && v.StickyValue? {
      PushStaysCanonical(s, StickyPush(s, e));
    } else if v.IntegerValue? {
      var ty := if v.integer != 0 then IncreaseLedLock else DecreaseLedLock;
      PushStaysCanonical(s, MakeActiveFlag(ty, CapsLock, e.device));
    }
  }

  lemma PushStaysCanonical(s: seq<ActiveFlag>, f: ActiveFlag)
    requires Canonical(s) && f.Constructed()
    ensures Canonical(Push(s, f))
  {
    PushRefines(s, f, f.Key());
  }

  // ----- Reordering preserves meaning -----

  lemma {:induction false} FirstPairedAt(s: seq<ActiveFlag>, f: ActiveFlag, j: nat, i: nat)
    requires j <= i < |s| && f.IsPaired(s[i]) && forall k :: j <= k < i ==> !f.IsPaired(s[k])
    ensures FirstPaired(s, f, j) == i
  {
    var r := FirstPaired(s, f, j);
    assert r >= i;
  }

  /** Erasing entries that have nothing to do with `f` commutes with cancelling `f`. */
  lemma CancelCommutes(s: seq<ActiveFlag>, f: ActiveFlag, keep: ActiveFlag -> bool)
    requires keep(f) && keep(f.Opposite())
    ensures Filter(Cancel(s, f), keep) == Cancel(Filter(s, keep), f)
  {
    var i, t := FirstPaired(s, f, 0), Filter(s, keep);
    if i == |s| {
      FilterSnoc(s, f, keep);
      FilterKeeps(s, keep);
      NothingPaired(s, t, f);
    } else {
      PairedIffOpposite(f, s[i]);
      FilterAround(s, i, keep);
      forall h | h in Filter(s[..i], keep) ensures !f.IsPaired(h) {
        FilterKeeps(s[..i], keep);
        assert h in s[..i];
      }
      CancelAt(Filter(s[..i], keep), s[i], Filter(s[i + 1..], keep), f);
    }
  }

  lemma NothingPaired(s: seq<ActiveFlag>, t: seq<ActiveFlag>, f: ActiveFlag)
    requires FirstPaired(s, f, 0) == |s| && forall g :: g in t ==> g in s
    ensures Cancel(t, f) == t + [f]
  {
    assert forall g :: g in t ==> !f.IsPaired(g);
  }

  lemma CancelAt(a: seq<ActiveFlag>, g: ActiveFlag, b: seq<ActiveFlag>, f: ActiveFlag)
    requires f.IsPaired(g) && forall h :: h in a ==> !f.IsPaired(h)
    ensures Cancel(a + [g] + b, f) == a + b
  {
    var t := a + [g] + b;
    forall k | 0 <= k < |a| ensures !f.IsPaired(t[k]) {
      assert t[k] in a;
    }
    FirstPairedAt(t, f, 0, |a|);
    assert RemoveAt(t, |a|) == a + b;
  }

  /** A modifier and a key may be handled in either order. */
  lemma ModifierAndKeyCommute(s: seq<ActiveFlag>, m: Entry, k: Entry)
    requires Canonical(s) && IsModifier(m) && IsKey(k)
    ensures UpdateFlags(UpdateFlags(s, m), k) == UpdateFlags(UpdateFlags(s, k), m)
  {
    if ErasesSticky(k) {
      var f := MakeActiveFlag(SwitchType(m.eventType), m.event.value.switch.MakeModifierFlag().value, m.device);
      FilterCanonical(s, Surviving(EraseSticky));
      PushIsCancel(s, f);
      PushIsCancel(Filter(s, Surviving(EraseSticky)), f);
      CancelCommutes(s, f, Surviving(EraseSticky));
    }
  }

  lemma NeededSwapCommutes(st: Managers, a: Entry, b: Entry)
    requires Canonical(st.flags) && NeedsSwap(a, b)
    ensures Update(Update(st, a), b) == Update(Update(st, b), a)
  {
    NeedsSwapShape(a, b);
    if IsKey(a) {
      ModifierAndKeyCommute(st.flags, b, a);
    } else {
      ModifierAndKeyCommute(st.flags, a, b);
    }
  }

  lemma ReplaySnoc(st: Managers, s: seq<Entry>, e: Entry)
    ensures Replay(st, s + [e]) == Update(Replay(st, s), e)
  {
    assert (s + [e])[..|s + [e]| - 1] == s;
  }

  lemma {:induction false} ReplayCanonical(st: Managers, s: seq<Entry>)
    requires Canonical(st.flags)
    ensures Canonical(Replay(st, s).flags)
  {
    if s != [] {
      ReplayCanonical(st, s[..|s| - 1]);
      UpdateCanonical(Replay(st, s[..|s| - 1]).flags, s[|s| - 1]);
    }
  }

  lemma {:induction false} ReplayCong(st: Managers, s: seq<Entry>, t: seq<Entry>, rest: seq<Entry>)
    requires Replay(st, s) == Replay(st, t)
    ensures Replay(st, s + rest) == Replay(st, t + rest)
  {
    if rest == [] {
      assert s + rest == s && t + rest == t;
    } else {
      var front, e := rest[..|rest| - 1], rest[|rest| - 1];
      assert rest == front + [e];
      hide *;
      ReplayCong(st, s, t, front);
      AppendAssoc(s, front, e);
      AppendAssoc(t, front, e);
      ReplaySnoc(st, s + front, e);
      ReplaySnoc(st, t + front, e);
    }
  }

  lemma SwapKeepsReplay(st: Managers, s: seq<Entry>, i: nat)
    requires Canonical(st.flags) && i + 1 < |s| && NeedsSwap(s[i], s[i + 1])
    ensures Replay(st, SwapAt(s, i)) == Replay(st, s)
  {
    var q, a, b, rest := s[..i], s[i], s[i + 1], s[i + 2..];
    SwapAtSplit(s, i);
    hide Replay, Update, SwapAt, Canonical;
    ReplaySnoc(st, q + [a], b);
    ReplaySnoc(st, q, a);
    ReplaySnoc(st, q + [b], a);
    ReplaySnoc(st, q, b);
    ReplayCanonical(st, q);
    NeededSwapCommutes(Replay(st, q), a, b);
    ReplayCong(st, q + [a] + [b], q + [b] + [a], rest);
  }

  lemma {:induction false} SwapsKeepReplay(st: Managers, s: seq<Entry>, path: seq<nat>)
    requires Canonical(st.flags) && NeededSwaps(s, path)
    ensures Replay(st, RunSwaps(s, path)) == Replay(st, s)
    decreases |path|
  {
    if path != [] {
      SwapKeepsReplay(st, s, path[0]);
      SwapsKeepReplay(st, SwapAt(s, path[0]), path[1..]);
    }
  }

  /**
   Whatever reachable state the managers are in, replaying the sorted entries
   ends in exactly the state that replaying the original entries ends in.
   */
  lemma SortPreservesMeaning(st: Managers, s: seq<Entry>)
    requires Canonical(st.flags)
    ensures Replay(st, Sort(s)) == Replay(st, s)
  {
    var path := SortPath(s);
    SwapsKeepReplay(st, s, path);
  }

  // ----- The queue object -----

  function Delayed(e: Entry, delay: int): Entry {
    e.(timeStamp := e.timeStamp + delay)
  }

  class Queue {
    var events: seq<Entry>
    const flags: ModifierFlagManager
    const buttons: PointingButtonManager
    var timeStampDelay: int

    /** The queue and the two managers it owns. */
    ghost function Repr(): set<object> {
      {this, flags, buttons}
    }

    ghost predicate Valid()
      reads this, flags
    {
      flags.Valid()
    }

    ghost function State(): Managers
      reads flags, buttons
    {
      Managers(flags.active, buttons.active)
    }

    constructor ()
      ensures Valid() && fresh(Repr())
      ensures events == [] && timeStampDelay == 0 && State() == Managers([], [])
    {
      events := [];
      flags := new ModifierFlagManager();
      buttons := new PointingButtonManager();
      timeStampDelay := 0;
    }

    method StickySize(m: ModifierFlag) returns (n: nat)
      ensures n == StickyCount(flags.active, m)
    {
      n := 0;
      var list := flags.active;
      for i := 0 to |list|
        invariant n == StickyCount(list[..i], m)
      {
        assert list[..i + 1][..i] == list[..i];
        if list[i].flag == m && list[i].IsSticky() {
          n := n + 1;
        }
      }
      assert list[..|list|] == list;
    }

    /** Appends an entry, shifted by the delay, and follows it in the managers. */
    method EmplaceBackEntry(e: Entry)
      requires Valid()
      modifies Repr()
      ensures Valid()
      ensures events == old(events) + [e.(timeStamp := e.timeStamp + timeStampDelay)]
      ensures timeStampDelay == old(timeStampDelay)
      ensures State() == Update(old(State()), e)
    {
      events := events + [Delayed(e, timeStampDelay)];
      UpdateButtonManager(e);
      if e.event.value.SwitchValue? {
        FollowSwitch(e);
      } else if e.event.kind == StickyModifier {
        FollowSticky(e);
      } else if e.event.kind == CapsLockStateChanged && e.event.value.IntegerValue? {
        var ty := if e.event.value.integer != 0 then IncreaseLedLock else DecreaseLedLock;
        flags.PushBack(MakeActiveFlag(ty, CapsLock, e.device));
      }
    }

    method UpdateButtonManager(e: Entry)
      modifies buttons
      ensures buttons.active == UpdateButtons(old(buttons.active), e)
    {
      if e.event.IsSwitch() && e.event.value.switch.IsPointingButton() {
        buttons.PushBack(ButtonOf(e));
      }
    }

    method FollowSwitch(e: Entry)
      requires Valid() && e.event.value.SwitchValue?
      modifies flags
      ensures Valid() && flags.active == UpdateFlags(old(flags.active), e)
    {
      var switch := e.event.value.switch;
      var m := switch.MakeModifierFlag();
      if m.Some? {
        flags.PushBack(MakeActiveFlag(SwitchType(e.eventType), m.value, e.device));
      }
      if e.eventType == KeyDown && e.validity == Validity.Valid && !switch.IsModifierFlag() {
        flags.Erase(EraseSticky);
      }
    }

    method FollowSticky(e: Entry)
      requires Valid() && !e.event.value.SwitchValue? && e.event.kind == StickyModifier
      modifies flags
      ensures Valid() && flags.active == UpdateFlags(old(flags.active), e)
    {
      if e.eventType == KeyDown || e.eventType == Single {
        if e.event.value.StickyValue? {
          var v := e.event.value;
          var ty := IncreaseSticky;
          if v.stickyType == Toggle {
            var n := StickySize(v.flag);
            if n > 0 {
              ty := DecreaseSticky;
            }
          } else if v.stickyType != On {
            ty := DecreaseSticky;
          }
          flags.PushBack(MakeActiveFlag(ty, v.flag, e.device));
        }
      }
    }

    method ClearEvents()
      modifies this
      ensures events == [] && timeStampDelay == 0
    {
      events := [];
      timeStampDelay := 0;
    }

    method EraseFrontEvent()
      requires events != []
      modifies this
      ensures events == old(events)[1..]
      ensures timeStampDelay == if events == [] then 0 else old(timeStampDelay)
    {
      events := events[1..];
      if events == [] {
        timeStampDelay := 0;
      }
    }

    method IncreaseTimeStampDelay(value: int)
      modifies this
      ensures events == old(events) && timeStampDelay == old(timeStampDelay) + value
    {
      timeStampDelay := timeStampDelay + value;
    }

    /** The loop steps back after every swap. */
    method SortEvents()
      modifies this
      ensures events == Sort(old(events)) && timeStampDelay == old(timeStampDelay)
    {
      if events == [] {
        return;
      }
      var i := 0;
      hide Sort, Inversions, NeedsSwap;
      while i < |events| - 1
        invariant |events| == |old(events)| && 0 <= i <= |events| - 1
        invariant StableTo(events, i + 1)
        invariant Sort(events) == Sort(old(events))
        invariant timeStampDelay == old(timeStampDelay)
        decreases Inversions(events), |events| - i
      {
        if NeedsSwap(events[i], events[i + 1]) {
          SwapKeepsSort(events, i);
          SwapRemovesOneInversion(events, i);
          events := events[i := events[i + 1]][i + 1 := events[i]];
          if i > 0 {
            i := i - 1;
          }
        } else {
          i := i + 1;
        }
      }
      StableIsFixed(events);
    }
  }
}
