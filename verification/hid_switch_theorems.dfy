/**
 What a report means: which entry every value of a switch becomes, what is held
 after it, and how far every axis moves, in terms of the usages in the report.
 */
module HidSwitchTheorems {
  import opened Types
  import opened Sequences
  import opened EventQueueEntries
  import opened DeltaStreams
  import opened HatSwitchConverters
  import opened HidValueEntries
  import opened MotionCoalescingTheorems
  import opened DeviceKeysReleased

  // ----- Scaling, by its value -----

  /** Scaling truncates toward zero, with a movement of at least one, and at most 127. */
  lemma AdjustMeans(n: int, m: real)
    ensures var x, r := n as real * m, AdjustPointingMotionValue(n, m);
            && (x >= 127.0 ==> r == 127)
            && (1.0 <= x < 127.0 ==> r as real <= x < (r + 1) as real)
            && (-1.0 < x < 1.0 ==> r == Sign(n))
            && (-127.0 < x <= -1.0 ==> (r - 1) as real < x <= r as real)
            && (x <= -127.0 ==> r == -127)
  {
    hide Sign;
    var x := n as real * m;
    if n == 0 {
      assert x == 0.0;
    }
    assert Sign(n) == if n > 0 then 1 else if n < 0 then -1 else 0 by {
      SignIs(n);
    }
  }

  lemma SignIs(n: int)
    ensures Sign(n) == if n > 0 then 1 else if n < 0 then -1 else 0
  {
  }

  // ----- Switches -----

  function OnSwitch(s: Switch): Entry -> bool {
    (e: Entry) => e.event.value == SwitchValue(s)
  }

  function OfSwitch(s: Switch): HidValue -> bool {
    (v: HidValue) => v.ConformsTo(s.page, s.usage)
  }

  /** The usages that a hat switch is converted to on a game pad: up, down, right and left of the pad. */
  predicate IsDpad(cfg: Settings, s: Switch) {
    cfg.isGamePad && s.page == 0x01 && 0x90 <= s.usage <= 0x93
  }

  /** The entry that a value of a switch of the table becomes. */
  function SwitchEntry(cfg: Settings, v: HidValue, s: Switch): Entry {
    var event := Event(MomentarySwitchEvent, SwitchValue(s));
    Entry(cfg.device, v.timeStamp, 0, event, if v.integer == 0 then KeyUp else KeyDown, Some(v.integer), event,
          Original, false, Valid)
  }

  function SwitchEntries(cfg: Settings, vs: seq<HidValue>, s: Switch): (es: seq<Entry>)
    ensures |es| == |vs| && forall k :: 0 <= k < |vs| ==> es[k] == SwitchEntry(cfg, vs[k], s)
  {
    seq(|vs|, k requires 0 <= k < |vs| => SwitchEntry(cfg, vs[k], s))
  }

  lemma {:induction false} DpadEntriesOn(cfg: Settings, t: int, cs: seq<Change>, s: Switch)
    requires !(s.page == 0x01 && 0x90 <= s.usage <= 0x93) && forall c :: c in cs ==> c.index < 4
    ensures Filter(DpadEntries(cfg, t, DpadEvents(cs)), OnSwitch(s)) == []
  {
    if cs != [] {
      var before, c := cs[..|cs| - 1], cs[|cs| - 1];
      assert c in cs && cs == before + [c];
      DpadEntriesOn(cfg, t, before, s);
      DpadEventsSnoc(before, c);
      DpadEntriesSnoc(cfg, t, DpadEvents(before), DpadEventOf(c));
      var e := NewEntry(cfg, t, SwitchEvent(DpadEventOf(c).0), DpadEventOf(c).1, None, Original);
      FilterSnoc(DpadEntries(cfg, t, DpadEvents(before)), e, OnSwitch(s));
      hide Filter, DpadEntries, DpadEvents;
    }
  }

  lemma DpadEntriesSnoc(cfg: Settings, t: int, events: seq<DpadEvent>, e: DpadEvent)
    ensures DpadEntries(cfg, t, events + [e]) ==
            DpadEntries(cfg, t, events) + [NewEntry(cfg, t, SwitchEvent(e.0), e.1, None, Original)]
  {
    assert (events + [e])[..|events + [e]| - 1] == events;
  }

  lemma OthersOn(cfg: Settings, last: Directions, v: HidValue, s: Switch)
    requires AllFour(last) && !IsDpad(cfg, s)
    ensures Filter(OtherEntries(cfg, last, v), OnSwitch(s)) ==
            if v.ConformsTo(s.page, s.usage) && cfg.target(s.page, s.usage) then [SwitchEntry(cfg, v, s)] else []
  {
    var es := OtherEntries(cfg, last, v);
    if |es| == 1 && !TurnsHat(cfg, v) {
      FilterOne(es[0], OnSwitch(s));
    }
    if TurnsHat(cfg, v) {
      DpadEntriesOn(cfg, v.timeStamp, Changes(LastOf(last, cfg.device), DirectionsOf(v.integer), 4), s);
    }
    hide Filter, DpadEntries, DpadEventsOf, DirectionsOf;
  }

  lemma NextOn(cfg: Settings, p: Progress, v: HidValue, s: Switch)
    requires AllFour(p.directions) && !IsDpad(cfg, s)
    ensures Filter(Take(cfg, p, v).entries, OnSwitch(s)) ==
            if v.ConformsTo(s.page, s.usage) && cfg.target(s.page, s.usage)
            then Filter(p.entries, OnSwitch(s)) + [SwitchEntry(cfg, v, s)]
            else Filter(p.entries, OnSwitch(s))
  {
    hide OtherEntries, MotionEntry, Filter;
    if AxisOf(cfg, v).Some? {
      FlushOn(cfg, p, s);
    } else {
      OthersOn(cfg, p.directions, v, s);
      FilterAppend(p.entries, OtherEntries(cfg, p.directions, v), OnSwitch(s));
    }
  }

  lemma FlushOn(cfg: Settings, p: Progress, s: Switch)
    ensures Filter(Flush(cfg, p).entries, OnSwitch(s)) == Filter(p.entries, OnSwitch(s))
  {
    if p.pending != [] {
      FilterSnoc(p.entries, MotionEntry(cfg, p.pending), OnSwitch(s));
    }
    hide Filter;
  }

  /**
   The entries of a switch of the table are exactly its values in the report, one
   entry for each, in order, down for every value but zero. Other switches get none.
   */
  lemma SwitchValuesAreEntries(cfg: Settings, last: Directions, values: seq<HidValue>, s: Switch)
    requires AllFour(last) && !IsDpad(cfg, s)
    ensures Filter(EntriesOf(cfg, last, values), OnSwitch(s)) ==
            if cfg.target(s.page, s.usage) then SwitchEntries(cfg, Filter(values, OfSwitch(s)), s) else []
  {
    TakenOn(cfg, last, values, s);
    hide Filter, TakeAll;
    FlushOn(cfg, TakeAll(cfg, last, values), s);
  }

  lemma SwitchEntriesSnoc(cfg: Settings, vs: seq<HidValue>, v: HidValue, s: Switch)
    ensures SwitchEntries(cfg, vs + [v], s) == SwitchEntries(cfg, vs, s) + [SwitchEntry(cfg, v, s)]
  {
    hide SwitchEntry;
  }

  lemma TakeAllSnoc(cfg: Settings, last: Directions, values: seq<HidValue>, v: HidValue)
    requires AllFour(last)
    ensures TakeAll(cfg, last, values + [v]) == Take(cfg, TakeAll(cfg, last, values), v)
  {
    assert (values + [v])[..|values + [v]| - 1] == values;
    hide Take;
  }

  lemma OfSwitchSnoc(t: seq<HidValue>, v: HidValue, s: Switch)
    ensures Filter(t + [v], OfSwitch(s)) ==
            if v.ConformsTo(s.page, s.usage) then Filter(t, OfSwitch(s)) + [v] else Filter(t, OfSwitch(s))
  {
    hide Filter;
    FilterSnoc(t, v, OfSwitch(s));
  }

  lemma TakenOnNext(cfg: Settings, last: Directions, t: seq<HidValue>, v: HidValue, s: Switch)
    requires AllFour(last) && !IsDpad(cfg, s)
    requires Filter(TakeAll(cfg, last, t).entries, OnSwitch(s)) ==
             if cfg.target(s.page, s.usage) then SwitchEntries(cfg, Filter(t, OfSwitch(s)), s) else []
    ensures Filter(TakeAll(cfg, last, t + [v]).entries, OnSwitch(s)) ==
            if cfg.target(s.page, s.usage) then SwitchEntries(cfg, Filter(t + [v], OfSwitch(s)), s) else []
  {
    hide *;
    TakeAllSnoc(cfg, last, t, v);
    NextOn(cfg, TakeAll(cfg, last, t), v, s);
    OfSwitchSnoc(t, v, s);
    var vs := Filter(t, OfSwitch(s));
    if cfg.target(s.page, s.usage) {
      if v.ConformsTo(s.page, s.usage) {
        SwitchEntriesSnoc(cfg, vs, v, s);
        assert Filter(t + [v], OfSwitch(s)) == vs + [v];
      } else {
        assert Filter(t + [v], OfSwitch(s)) == vs;
      }
    }
  }

  lemma {:induction false} TakenOn(cfg: Settings, last: Directions, values: seq<HidValue>, s: Switch)
    requires AllFour(last) && !IsDpad(cfg, s)
    ensures Filter(TakeAll(cfg, last, values).entries, OnSwitch(s)) ==
            if cfg.target(s.page, s.usage) then SwitchEntries(cfg, Filter(values, OfSwitch(s)), s) else []
  {
    if values != [] {
      var t, v := values[..|values| - 1], values[|values| - 1];
      assert values == t + [v];
      TakenOn(cfg, last, t, s);
      TakenOnNext(cfg, last, t, v, s);
    }
  }

  // ----- Held switches -----

  /** With entries of one device, a switch is held as the last of its entries says. */
  lemma {:induction false} HeldByLast(initial: set<Switch>, entries: seq<Entry>, device: DeviceId, s: Switch)
    requires forall e :: e in entries && e.event.value == SwitchValue(s) ==> e.device == device && e.eventType != Single
    ensures var on := Filter(entries, OnSwitch(s));
            Held(initial, entries, device, s) <==>
            if on == [] then s in initial else on[|on| - 1].eventType == KeyDown
  {
    if entries != [] {
      var t, e := entries[..|entries| - 1], entries[|entries| - 1];
      assert entries == t + [e] && e in entries && forall x :: x in t ==> x in entries;
      HeldByLast(initial, t, device, s);
      HeldSnoc(initial, t, e, device, s);
      FilterSnoc(t, e, OnSwitch(s));
      hide Held, Filter;
    }
  }

  /** After a report a switch of the table is held exactly if its last value is not zero,
    or there was none and it was held. */
  lemma HeldAfterReport(cfg: Settings, last: Directions, values: seq<HidValue>, s: Switch, initial: set<Switch>)
    requires AllFour(last) && !IsDpad(cfg, s) && cfg.target(s.page, s.usage)
    ensures var vs := Filter(values, OfSwitch(s));
            Held(initial, EntriesOf(cfg, last, values), cfg.device, s) <==>
            if vs == [] then s in initial else vs[|vs| - 1].integer != 0
  {
    var entries, vs := EntriesOf(cfg, last, values), Filter(values, OfSwitch(s));
    SwitchValuesAreEntries(cfg, last, values, s);
    FilterKeeps(entries, OnSwitch(s));
    hide EntriesOf, Filter, Held;
    forall e | e in entries && e.event.value == SwitchValue(s) ensures e.device == cfg.device && e.eventType != Single {
      assert OnSwitch(s)(e);
      assert e in SwitchEntries(cfg, vs, s);
    }
    HeldByLast(initial, entries, cfg.device, s);
  }

  // ----- The caps lock LED -----

  function IsLed(): Entry -> bool {
    (e: Entry) => e.event.kind == CapsLockStateChanged
  }

  function OfLed(cfg: Settings): HidValue -> bool {
    (v: HidValue) => v.ConformsTo(0x08, 0x02) && !cfg.target(0x08, 0x02)
  }

  function LedEntries(cfg: Settings, vs: seq<HidValue>): (es: seq<Entry>)
    ensures |es| == |vs|
    ensures forall k :: 0 <= k < |vs| ==>
              var event := Event(CapsLockStateChanged, IntegerValue(vs[k].integer));
              es[k] == Entry(cfg.device, vs[k].timeStamp, 0, event, Single, None, event, VirtualEvent, false, Valid)
  {
    seq(|vs|, k requires 0 <= k < |vs| =>
      var event := Event(CapsLockStateChanged, IntegerValue(vs[k].integer));
      Entry(cfg.device, vs[k].timeStamp, 0, event, Single, None, event, VirtualEvent, false, Valid))
  }

  lemma {:induction false} DpadEntriesLed(cfg: Settings, t: int, events: seq<DpadEvent>)
    ensures Filter(DpadEntries(cfg, t, events), IsLed()) == []
  {
    if events != [] {
      DpadEntriesLed(cfg, t, events[..|events| - 1]);
    }
  }

  lemma NextLed(cfg: Settings, p: Progress, v: HidValue)
    requires AllFour(p.directions)
    ensures Filter(Take(cfg, p, v).entries, IsLed()) ==
            if OfLed(cfg)(v) then Filter(p.entries, IsLed()) + LedEntries(cfg, [v]) else Filter(p.entries, IsLed())
  {
    hide Filter, MotionEntry;
    FlushLed(cfg, p);
    if AxisOf(cfg, v).None? {
      var es := OtherEntries(cfg, p.directions, v);
      OthersLed(cfg, p.directions, v);
      hide OtherEntries;
      FilterAppend(p.entries, es, IsLed());
    }
  }

  lemma LedEntriesOne(cfg: Settings, v: HidValue)
    ensures var event := Event(CapsLockStateChanged, IntegerValue(v.integer));
            LedEntries(cfg, [v]) ==
            [Entry(cfg.device, v.timeStamp, 0, event, Single, None, event, VirtualEvent, false, Valid)]
  {
  }

  lemma NothingLed()
    ensures Filter([], IsLed()) == []
  {
  }

  lemma OthersLed(cfg: Settings, last: Directions, v: HidValue)
    requires AllFour(last)
    ensures Filter(OtherEntries(cfg, last, v), IsLed()) == if OfLed(cfg)(v) then LedEntries(cfg, [v]) else []
  {
    hide Filter, DpadEntries, DpadEventsOf, DirectionsOf, Changes, LedEntries;
    var es := OtherEntries(cfg, last, v);
    if TurnsHat(cfg, v) {
      DpadEntriesLed(cfg, v.timeStamp, DpadEventsOf(cfg, last, v));
    } else if |es| == 1 {
      FilterOne(es[0], IsLed());
      LedEntriesOne(cfg, v);
    } else {
      NothingLed();
    }
  }

  lemma FlushLed(cfg: Settings, p: Progress)
    ensures Filter(Flush(cfg, p).entries, IsLed()) == Filter(p.entries, IsLed())
  {
    if p.pending != [] {
      FilterSnoc(p.entries, MotionEntry(cfg, p.pending), IsLed());
    }
    hide Filter;
  }

  lemma LedEntriesSnoc(cfg: Settings, vs: seq<HidValue>, v: HidValue)
    ensures LedEntries(cfg, vs + [v]) == LedEntries(cfg, vs) + LedEntries(cfg, [v])
  {
  }

  lemma LedTakenNext(cfg: Settings, last: Directions, t: seq<HidValue>, v: HidValue)
    requires AllFour(last)
    requires Filter(TakeAll(cfg, last, t).entries, IsLed()) == LedEntries(cfg, Filter(t, OfLed(cfg)))
    ensures Filter(TakeAll(cfg, last, t + [v]).entries, IsLed()) == LedEntries(cfg, Filter(t + [v], OfLed(cfg)))
  {
    hide *;
    TakeAllSnoc(cfg, last, t, v);
    NextLed(cfg, TakeAll(cfg, last, t), v);
    FilterSnoc(t, v, OfLed(cfg));
    var vs := Filter(t, OfLed(cfg));
    if OfLed(cfg)(v) {
      LedEntriesSnoc(cfg, vs, v);
    }
  }

  lemma {:induction false} LedTaken(cfg: Settings, last: Directions, values: seq<HidValue>)
    requires AllFour(last)
    ensures Filter(TakeAll(cfg, last, values).entries, IsLed()) == LedEntries(cfg, Filter(values, OfLed(cfg)))
  {
    if values != [] {
      var t, v := values[..|values| - 1], values[|values| - 1];
      assert values == t + [v];
      LedTaken(cfg, last, t);
      LedTakenNext(cfg, last, t, v);
    }
  }

  /** Every value of the caps lock LED becomes one entry that carries it, and no other value does. */
  lemma LedValuesAreEntries(cfg: Settings, last: Directions, values: seq<HidValue>)
    requires AllFour(last)
    ensures Filter(EntriesOf(cfg, last, values), IsLed()) == LedEntries(cfg, Filter(values, OfLed(cfg)))
  {
    LedTaken(cfg, last, values);
    hide Filter, TakeAll;
    FlushLed(cfg, TakeAll(cfg, last, values));
  }

  // ----- Motion, by usage -----

  /** The scaled values of one usage that is no switch, added up. */
  function SumOfUsage(cfg: Settings, values: seq<HidValue>, page: int, usage: int, m: real): int {
    if values == [] then 0
    else
      var v := values[|values| - 1];
      SumOfUsage(cfg, values[..|values| - 1], page, usage, m) +
      if v.ConformsTo(page, usage) && !cfg.target(page, usage) then AdjustPointingMotionValue(v.integer, m) else 0
  }

  /** The part of an entry that moves along an axis, field by field. */
  lemma ComponentFields(e: Entry)
    requires IsMotion(e) && e.event.value.MotionValue?
    ensures Component(e, AxisX) == e.event.value.motion.x
    ensures Component(e, AxisY) == e.event.value.motion.y
    ensures Component(e, AxisVerticalWheel) == e.event.value.motion.verticalWheel
    ensures Component(e, AxisHorizontalWheel) == e.event.value.motion.horizontalWheel
  {
  }

  lemma SumOnSnoc(cs: seq<Contribution>, c: Contribution, a: Axis)
    ensures SumOn(cs + [c], a) == SumOn(cs, a) + if c.axis == a then c.value else 0
  {
    assert (cs + [c])[..|cs + [c]| - 1] == cs;
  }

  lemma {:induction false} ContributionsByUsage(cfg: Settings, values: seq<HidValue>)
    ensures var cs, xy, wheels := Contributions(cfg, values), cfg.xyMultiplier, cfg.wheelsMultiplier;
            && SumOn(cs, AxisX) == (if cfg.isGamePad then 0 else SumOfUsage(cfg, values, 0x01, 0x30, xy))
            && SumOn(cs, AxisY) == (if cfg.isGamePad then 0 else SumOfUsage(cfg, values, 0x01, 0x31, xy))
            && SumOn(cs, AxisVerticalWheel) == SumOfUsage(cfg, values, 0x01, 0x38, wheels)
            && SumOn(cs, AxisHorizontalWheel) == SumOfUsage(cfg, values, 0x0c, 0x0238, wheels)
  {
    if values != [] {
      var t, v := values[..|values| - 1], values[|values| - 1];
      ContributionsByUsage(cfg, t);
      if AxisOf(cfg, v).Some? {
        var c := ContributionOf(cfg, v);
        SumOnSnoc(Contributions(cfg, t), c, AxisX);
        SumOnSnoc(Contributions(cfg, t), c, AxisY);
        SumOnSnoc(Contributions(cfg, t), c, AxisVerticalWheel);
        SumOnSnoc(Contributions(cfg, t), c, AxisHorizontalWheel);
      }
      hide SumOn, AdjustPointingMotionValue;
    }
  }

  /** Along every axis the emitted motions add up to the scaled values of that axis's usage. */
  lemma MotionByUsage(cfg: Settings, last: Directions, values: seq<HidValue>)
    requires AllFour(last)
    ensures var es, xy, wheels := EntriesOf(cfg, last, values), cfg.xyMultiplier, cfg.wheelsMultiplier;
            && TotalMotion(es, AxisX) == (if cfg.isGamePad then 0 else SumOfUsage(cfg, values, 0x01, 0x30, xy))
            && TotalMotion(es, AxisY) == (if cfg.isGamePad then 0 else SumOfUsage(cfg, values, 0x01, 0x31, xy))
            && TotalMotion(es, AxisVerticalWheel) == SumOfUsage(cfg, values, 0x01, 0x38, wheels)
            && TotalMotion(es, AxisHorizontalWheel) == SumOfUsage(cfg, values, 0x0c, 0x0238, wheels)
  {
    ContributionsByUsage(cfg, values);
    hide *;
    MotionIsConserved(cfg, last, values, AxisX);
    MotionIsConserved(cfg, last, values, AxisY);
    MotionIsConserved(cfg, last, values, AxisVerticalWheel);
    MotionIsConserved(cfg, last, values, AxisHorizontalWheel);
  }

  /** The contributions are the motion values, each with its own time. */
  lemma {:induction false} ContributionTimes(cfg: Settings, values: seq<HidValue>)
    ensures var cs, vs := Contributions(cfg, values), Filter(values, (v: HidValue) => AxisOf(cfg, v).Some?);
            |cs| == |vs| && forall k :: 0 <= k < |cs| ==> cs[k].timeStamp == vs[k].timeStamp
  {
    if values != [] {
      ContributionTimes(cfg, values[..|values| - 1]);
      hide AdjustPointingMotionValue;
    }
  }

  // ----- The pad buttons of a hat switch -----

  /** Each pad event becomes one entry of the device, at the time of the hat value. */
  lemma {:induction false} DpadEntriesAre(cfg: Settings, t: int, events: seq<DpadEvent>)
    ensures var es := DpadEntries(cfg, t, events);
            |es| == |events| && forall k :: 0 <= k < |es| ==>
              var event := Event(MomentarySwitchEvent, SwitchValue(events[k].0));
              es[k] == Entry(cfg.device, t, 0, event, events[k].1, None, event, Original, false, Valid)
  {
    if events != [] {
      DpadEntriesAre(cfg, t, events[..|events| - 1]);
    }
  }

  /** A value of the hat switch of a game pad becomes the entries of the changed pad buttons. */
  lemma HatValueIsEntries(cfg: Settings, last: Directions, v: HidValue)
    requires AllFour(last) && cfg.isGamePad && v.ConformsTo(0x01, 0x39) && !cfg.target(0x01, 0x39)
    ensures var last4 := if cfg.device in last then last[cfg.device] else [false, false, false, false];
            && OtherEntries(cfg, last, v) ==
               DpadEntries(cfg, v.timeStamp, DpadEvents(Changes(last4, DirectionsOf(v.integer), 4)))
            && DirectionsAfter(cfg, last, v) == last[cfg.device := DirectionsOf(v.integer)]
  {
    assert AllOff(4) == [false, false, false, false];
    hide DpadEntries, DpadEvents, Changes, DirectionsOf;
  }

  function OfDirection(i: nat): DpadEvent -> bool {
    (e: DpadEvent) => e.0 == Switch(0x01, 0x90 + i)
  }

  /** Presses and releases of one pad button, as a row of types. */
  function PressTypes(bits: seq<bool>): (ts: seq<EventType>)
    ensures |ts| == |bits| && forall k :: 0 <= k < |bits| ==> ts[k] == if bits[k] then KeyDown else KeyUp
  {
    seq(|bits|, k requires 0 <= k < |bits| => if bits[k] then KeyDown else KeyUp)
  }

  function TypesOf(es: seq<DpadEvent>): (ts: seq<EventType>)
    ensures |ts| == |es| && forall k :: 0 <= k < |es| ==> ts[k] == es[k].1
  {
    seq(|es|, k requires 0 <= k < |es| => es[k].1)
  }

  lemma ValuesOfSnoc(cs: seq<Change>, c: Change, i: nat)
    ensures ValuesOf(cs + [c], i) == if c.index == i then ValuesOf(cs, i) + [c.pressed] else ValuesOf(cs, i)
  {
    assert (cs + [c])[..|cs + [c]| - 1] == cs;
  }

  lemma DirectionEventsNext(cs: seq<Change>, c: Change, i: nat)
    requires TypesOf(Filter(DpadEvents(cs), OfDirection(i))) == PressTypes(ValuesOf(cs, i))
    ensures TypesOf(Filter(DpadEvents(cs + [c]), OfDirection(i))) == PressTypes(ValuesOf(cs + [c], i))
  {
    hide Filter, DpadEvents, ValuesOf;
    DpadEventsSnoc(cs, c);
    ValuesOfSnoc(cs, c, i);
    FilterSnoc(DpadEvents(cs), DpadEventOf(c), OfDirection(i));
  }

  lemma {:induction false} DirectionEvents(cs: seq<Change>, i: nat)
    ensures TypesOf(Filter(DpadEvents(cs), OfDirection(i))) == PressTypes(ValuesOf(cs, i))
  {
    if cs != [] {
      var before, c := cs[..|cs| - 1], cs[|cs| - 1];
      assert cs == before + [c];
      DirectionEvents(before, i);
      DirectionEventsNext(before, c, i);
    }
  }

  lemma PressesAlternate(es: seq<DpadEvent>, bits: seq<bool>)
    requires TypesOf(es) == PressTypes(bits) && Alternates(bits, true)
    ensures |es| == |bits| && forall k :: 0 <= k < |es| ==> es[k].1 == if k % 2 == 0 then KeyDown else KeyUp
  {
    assert forall k :: 0 <= k < |es| ==> es[k].1 == TypesOf(es)[k];
  }

  /**
   In any run over several devices, the events sent for one pad button of a device
   since it was forgotten alternate from a press, and the last one is a press
   exactly if the last direction of the device holds the button.
   */
  lemma DpadButtonFollowsHat(ops: seq<HatOp>, device: DeviceId, i: nat)
    requires i < 4
    ensures var es := Filter(SentFor(ops, device), OfDirection(i));
            && (forall k :: 0 <= k < |es| ==> es[k].1 == if k % 2 == 0 then KeyDown else KeyUp)
            && |LastOf(ConverterAfter(ops), device)| == 4
            && (LastOf(ConverterAfter(ops), device)[i] <==> es != [] && es[|es| - 1].1 == KeyDown)
  {
    hide SentFor, ConverterAfter, Emitted, Filter, Replay, ValuesOf, DpadEvents, Toggles, Project, TypesOf, PressTypes;
    var cs := Emitted(4, Project(ops, device));
    DpadReplays(ops, device);
    DirectionEvents(cs, i);
    RunReplays(4, Project(ops, device));
    TogglingAlternates(AllOff(4), cs, i);
    PressesAlternate(Filter(SentFor(ops, device), OfDirection(i)), ValuesOf(cs, i));
  }
}
