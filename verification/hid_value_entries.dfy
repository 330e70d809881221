/**
 From HID values to queue entries: pointing motion values are scaled, and values
 on different axes are coalesced into one motion event.
 */
module HidValueEntries {
  import opened Types
  import opened EventQueueEntries
  import opened DeltaStreams
  import opened HatSwitchConverters

  const X := 0x30
  const Y := 0x31
  const WHEEL := 0x38
  const HAT_SWITCH := 0x39
  const AC_PAN := 0x0238
  const LED_CAPS_LOCK := 0x02

  /** A value from a device; the usage may be missing. */
  datatype HidValue = HidValue(timeStamp: int, integer: int, page: Option<int>, usage: Option<int>)
  {
    predicate ConformsTo(p: int, u: int) {
      page == Some(p) && usage == Some(u)
    }
  }

  /** What is known about the device and the configuration; `target` is the switch tables. */
  datatype Settings = Settings(
    device: DeviceId,
    isGamePad: bool,
    target: (int, int) -> bool,
    xyMultiplier: real,
    wheelsMultiplier: real)

  // ----- Scaling one value -----

  /** A conversion to an integer drops the fraction, toward zero. */
  function Trunc(r: real): int {
    if r >= 0.0 then r.Floor else -((-r).Floor)
  }

  /** The scaled value; a movement never becomes no movement. */
  function AdjustPointingMotionValue(integer: int, multiplier: real): int {
    var v := Trunc(integer as real * multiplier);
    if v == 0 && integer > 0 then 1
    else if v == 0 && integer < 0 then -1
    else Min(127, Max(-127, v))
  }

  function Sign(n: int): int {
    if n > 0 then 1 else if n < 0 then -1 else 0
  }

  lemma AdjustedRange(n: int, m: real)
    ensures -127 <= AdjustPointingMotionValue(n, m) <= 127
    ensures AdjustPointingMotionValue(n, m) == 0 <==> n == 0
  {
    if n == 0 {
      assert n as real * m == 0.0;
    }
  }

  lemma ProductSign(a: real, m: real)
    ensures m >= 0.0 ==> (a >= 0.0 ==> a * m >= 0.0) && (a <= 0.0 ==> a * m <= 0.0)
    ensures m < 0.0 ==> (a > 0.0 ==> a * m < 0.0) && (a < 0.0 ==> a * m > 0.0)
  {
  }

  lemma TruncSign(r: real)
    ensures Sign(Trunc(r)) == if r >= 1.0 then 1 else if r <= -1.0 then -1 else 0
  {
  }

  /** The sign is kept exactly unless a negative multiplier scales to one or more. */
  lemma SignKeptIff(n: int, m: real)
    ensures Sign(AdjustPointingMotionValue(n, m)) == Sign(n) <==> m >= 0.0 || -1.0 < n as real * m < 1.0
  {
    var product := n as real * m;
    ProductSign(n as real, m);
    TruncSign(product);
    if n == 0 {
      assert product == 0.0;
    }
  }

  lemma NegativeMultiplierFlips()
    ensures AdjustPointingMotionValue(1, -1.0) == -1
  {
  }

  lemma TruncMonotone(a: real, b: real)
    requires a <= b
    ensures Trunc(a) <= Trunc(b)
  {
    FloorMonotone(a, b);
    FloorMonotone(-b, -a);
  }

  lemma FloorMonotone(a: real, b: real)
    requires a <= b
    ensures a.Floor <= b.Floor
  {
  }

  /** A larger movement never becomes a smaller one. */
  lemma AdjustMonotone(n: int, k: int, m: real)
    requires n <= k && m >= 0.0
    ensures AdjustPointingMotionValue(n, m) <= AdjustPointingMotionValue(k, m)
  {
    assert n as real * m <= k as real * m;
    TruncMonotone(n as real * m, k as real * m);
    SignKeptIff(n, m);
    SignKeptIff(k, m);
  }

  // ----- Classifying values -----

  datatype Axis = AxisX | AxisY | AxisVerticalWheel | AxisHorizontalWheel

  datatype Contribution = Contribution(axis: Axis, value: int, timeStamp: int)

  /** The sticks of a game pad are handled elsewhere. */
  function AxisOf(cfg: Settings, v: HidValue): Option<Axis> {
    if v.page.None? || v.usage.None? || cfg.target(v.page.value, v.usage.value) then None
    else if v.ConformsTo(GENERIC_DESKTOP, X) && !cfg.isGamePad then Some(AxisX)
    else if v.ConformsTo(GENERIC_DESKTOP, Y) && !cfg.isGamePad then Some(AxisY)
    else if v.ConformsTo(GENERIC_DESKTOP, WHEEL) then Some(AxisVerticalWheel)
    else if v.ConformsTo(CONSUMER, AC_PAN) then Some(AxisHorizontalWheel)
    else None
  }

  function ContributionOf(cfg: Settings, v: HidValue): Contribution
    requires AxisOf(cfg, v).Some?
  {
    var axis := AxisOf(cfg, v).value;
    var m := if axis == AxisX || axis == AxisY then cfg.xyMultiplier else cfg.wheelsMultiplier;
    Contribution(axis, AdjustPointingMotionValue(v.integer, m), v.timeStamp)
  }

  function NewEntry(cfg: Settings, timeStamp: int, event: Event, ty: EventType, integer: Option<int>,
                    state: State): Entry
  {
    Entry(cfg.device, timeStamp, 0, event, ty, integer, event, state, false, Valid)
  }

  function SwitchEvent(s: Switch): Event {
    Event(MomentarySwitchEvent, SwitchValue(s))
  }

  predicate TurnsHat(cfg: Settings, v: HidValue) {
    && v.ConformsTo(GENERIC_DESKTOP, HAT_SWITCH) && cfg.isGamePad
    && !cfg.target(GENERIC_DESKTOP, HAT_SWITCH)
  }

  function DpadEntries(cfg: Settings, timeStamp: int, events: seq<DpadEvent>): seq<Entry> {
    if events == [] then []
    else
      var e := events[|events| - 1];
      DpadEntries(cfg, timeStamp, events[..|events| - 1])
      + [NewEntry(cfg, timeStamp, SwitchEvent(e.0), e.1, None, Original)]
  }

  type Directions = map<DeviceId, seq<bool>>

  function DpadEventsOf(cfg: Settings, last: Directions, v: HidValue): seq<DpadEvent>
    requires AllFour(last)
  {
    DpadEvents(Changes(LastOf(last, cfg.device), DirectionsOf(v.integer), 4))
  }

  ghost predicate AllFour(m: Directions) {
    forall d :: d in m ==> |m[d]| == 4
  }

  /** The entries of a value that is no motion. */
  function OtherEntries(cfg: Settings, last: Directions, v: HidValue): seq<Entry>
    requires AllFour(last)
  {
    if v.page.None? || v.usage.None? then []
    else if cfg.target(v.page.value, v.usage.value) then
      [NewEntry(cfg, v.timeStamp, SwitchEvent(Switch(v.page.value, v.usage.value)),
                if v.integer != 0 then KeyDown else KeyUp, Some(v.integer), Original)]
    else if v.ConformsTo(LEDS, LED_CAPS_LOCK) then
      [NewEntry(cfg, v.timeStamp, Event(CapsLockStateChanged, IntegerValue(v.integer)), Single, None, VirtualEvent)]
    else if TurnsHat(cfg, v) then DpadEntries(cfg, v.timeStamp, DpadEventsOf(cfg, last, v))
    else []
  }

  function DirectionsAfter(cfg: Settings, last: Directions, v: HidValue): Directions {
    if TurnsHat(cfg, v) then last[cfg.device := DirectionsOf(v.integer)] else last
  }

  // ----- Coalescing -----

  /** The latest value on an axis. */
  function ValueOn(cs: seq<Contribution>, a: Axis): Option<int> {
    if cs == [] then None
    else if cs[|cs| - 1].axis == a then Some(cs[|cs| - 1].value)
    else ValueOn(cs[..|cs| - 1], a)
  }

  function OrZero(v: Option<int>): int {
    if v.Some? then v.value else 0
  }

  /** One motion entry for several contributions, at the time of the last one. */
  function MotionEntry(cfg: Settings, cs: seq<Contribution>): Entry
    requires cs != []
  {
    var motion := Motion(
                    OrZero(ValueOn(cs, AxisX)),
                    OrZero(ValueOn(cs, AxisY)),
                    OrZero(ValueOn(cs, AxisVerticalWheel)),
                    OrZero(ValueOn(cs, AxisHorizontalWheel)));
    NewEntry(cfg, cs[|cs| - 1].timeStamp, Event(PointingMotion, MotionValue(motion)), Single, None, Original)
  }

  /** What has been made so far, and the contributions still held back. */
  datatype Progress = Progress(entries: seq<Entry>, pending: seq<Contribution>, directions: Directions)

  function Flush(cfg: Settings, p: Progress): Progress {
    if p.pending == [] then p
    else Progress(p.entries + [MotionEntry(cfg, p.pending)], [], p.directions)
  }

  function Contribute(cfg: Settings, p: Progress, c: Contribution): Progress {
    var q := if ValueOn(p.pending, c.axis).Some? then Flush(cfg, p) else p;
    Progress(q.entries, q.pending + [c], q.directions)
  }

  function Take(cfg: Settings, p: Progress, v: HidValue): Progress
    requires AllFour(p.directions)
  {
    if AxisOf(cfg, v).Some? then Contribute(cfg, p, ContributionOf(cfg, v))
    else Progress(p.entries + OtherEntries(cfg, p.directions, v), p.pending, DirectionsAfter(cfg, p.directions, v))
  }

  function TakeAll(cfg: Settings, last: Directions, values: seq<HidValue>): (p: Progress)
    requires AllFour(last)
    ensures AllFour(p.directions)
  {
    if values == [] then Progress([], [], last)
    else Take(cfg, TakeAll(cfg, last, values[..|values| - 1]), values[|values| - 1])
  }

  function EntriesOf(cfg: Settings, last: Directions, values: seq<HidValue>): seq<Entry>
    requires AllFour(last)
  {
    Flush(cfg, TakeAll(cfg, last, values)).entries
  }

  // ----- The loop of the source -----

  /** The optional values that are held back. */
  datatype PendingMotion = PendingMotion(
    timeStamp: Option<int>,
    x: Option<int>,
    y: Option<int>,
    verticalWheel: Option<int>,
    horizontalWheel: Option<int>)

  const NO_MOTION := PendingMotion(None, None, None, None, None)

  function HeldBack(cs: seq<Contribution>): PendingMotion {
    PendingMotion(
      if cs == [] then None else Some(cs[|cs| - 1].timeStamp),
      ValueOn(cs, AxisX),
      ValueOn(cs, AxisY),
      ValueOn(cs, AxisVerticalWheel),
      ValueOn(cs, AxisHorizontalWheel))
  }

  method EmplaceBackPointingMotionEvent(cfg: Settings, entries: seq<Entry>, m: PendingMotion, ghost p: Progress)
    returns (r: seq<Entry>, m': PendingMotion)
    requires entries == p.entries && m == HeldBack(p.pending)
    ensures r == Flush(cfg, p).entries && m' == HeldBack(Flush(cfg, p).pending) == NO_MOTION
  {
    r, m' := entries, m;
    if m.timeStamp.Some? {
      var motion := Motion(OrZero(m.x), OrZero(m.y), OrZero(m.verticalWheel), OrZero(m.horizontalWheel));
      r := r + [NewEntry(cfg, m.timeStamp.value, Event(PointingMotion, MotionValue(motion)), Single, None, Original)];
      m' := NO_MOTION;
    }
  }

  /** An axis value: a pending one on the same axis is flushed first. */
  method TakeMotion(cfg: Settings, entries: seq<Entry>, m: PendingMotion, c: Contribution, ghost p: Progress)
    returns (r: seq<Entry>, m': PendingMotion)
    requires entries == p.entries && m == HeldBack(p.pending)
    ensures r == Contribute(cfg, p, c).entries && m' == HeldBack(Contribute(cfg, p, c).pending)
  {
    r, m' := entries, m;
    ghost var q := if ValueOn(p.pending, c.axis).Some? then Flush(cfg, p) else p;
    HeldBackSnoc(q.pending, c);
    hide Flush, ValueOn, NewEntry;
    match c.axis
    case AxisX =>
      if m.x.Some? {
        r, m' := EmplaceBackPointingMotionEvent(cfg, r, m', p);
      }
      m' := m'.(timeStamp := Some(c.timeStamp), x := Some(c.value));
    case AxisY =>
      if m.y.Some? {
        r, m' := EmplaceBackPointingMotionEvent(cfg, r, m', p);
      }
      m' := m'.(timeStamp := Some(c.timeStamp), y := Some(c.value));
    case AxisVerticalWheel =>
      if m.verticalWheel.Some? {
        r, m' := EmplaceBackPointingMotionEvent(cfg, r, m', p);
      }
      m' := m'.(timeStamp := Some(c.timeStamp), verticalWheel := Some(c.value));
    case AxisHorizontalWheel =>
      if m.horizontalWheel.Some? {
        r, m' := EmplaceBackPointingMotionEvent(cfg, r, m', p);
      }
      m' := m'.(timeStamp := Some(c.timeStamp), horizontalWheel := Some(c.value));
  }

  lemma ValueOnSnoc(cs: seq<Contribution>, c: Contribution, a: Axis)
    ensures ValueOn(cs + [c], a) == if c.axis == a then Some(c.value) else ValueOn(cs, a)
  {
    assert (cs + [c])[..|cs + [c]| - 1] == cs;
  }

  lemma HeldBackSnoc(cs: seq<Contribution>, c: Contribution)
    ensures HeldBack(cs + [c]) ==
            var m := HeldBack(cs).(timeStamp := Some(c.timeStamp));
            match c.axis
            case AxisX => m.(x := Some(c.value))
            case AxisY => m.(y := Some(c.value))
            case AxisVerticalWheel => m.(verticalWheel := Some(c.value))
            case AxisHorizontalWheel => m.(horizontalWheel := Some(c.value))
  {
    ValueOnSnoc(cs, c, AxisX);
    ValueOnSnoc(cs, c, AxisY);
    ValueOnSnoc(cs, c, AxisVerticalWheel);
    ValueOnSnoc(cs, c, AxisHorizontalWheel);
    hide ValueOn;
  }

  method DpadEntriesFor(cfg: Settings, timeStamp: int, pairs: seq<DpadEvent>) returns (r: seq<Entry>)
    ensures r == DpadEntries(cfg, timeStamp, pairs)
  {
    r := [];
    for i := 0 to |pairs|
      invariant r == DpadEntries(cfg, timeStamp, pairs[..i])
    {
      assert pairs[..i + 1][..i] == pairs[..i];
      r := r + [NewEntry(cfg, timeStamp, SwitchEvent(pairs[i].0), pairs[i].1, None, Original)];
    }
    assert pairs[..|pairs|] == pairs;
  }

  method MakeEntry(cfg: Settings, converter: HatSwitchConverter, v: HidValue, entries: seq<Entry>, m: PendingMotion,
                   ghost p: Progress)
    returns (r: seq<Entry>, m': PendingMotion)
    requires converter.Valid() && p.directions == converter.lastDirections
    requires entries == p.entries && m == HeldBack(p.pending)
    modifies converter
    ensures converter.Valid() && converter.lastDirections == Take(cfg, p, v).directions
    ensures r == Take(cfg, p, v).entries && m' == HeldBack(Take(cfg, p, v).pending)
  {
    hide HeldBack, DirectionsOf, Changes, DpadEvents, DpadEntries, AdjustPointingMotionValue;
    r, m' := entries, m;
    if v.page.None? || v.usage.None? {
      return;
    }
    var page, usage := v.page.value, v.usage.value;
    if cfg.target(page, usage) {
      var ty := if v.integer != 0 then KeyDown else KeyUp;
      r := r + [NewEntry(cfg, v.timeStamp, SwitchEvent(Switch(page, usage)), ty, Some(v.integer), Original)];
    } else if AxisOf(cfg, v).Some? {
      r, m' := TakeMotion(cfg, r, m', ContributionOf(cfg, v), p);
    } else if v.ConformsTo(LEDS, LED_CAPS_LOCK) {
      var event := Event(CapsLockStateChanged, IntegerValue(v.integer));
      r := r + [NewEntry(cfg, v.timeStamp, event, Single, None, VirtualEvent)];
    } else if cfg.isGamePad {
      if v.ConformsTo(GENERIC_DESKTOP, HAT_SWITCH) {
        var pairs := converter.ToDpadEvents(cfg.device, v.integer);
        var es := DpadEntriesFor(cfg, v.timeStamp, pairs);
        r := r + es;
      }
    }
  }

  method MakeEntries(cfg: Settings, converter: HatSwitchConverter, values: seq<HidValue>) returns (r: seq<Entry>)
    requires converter.Valid()
    modifies converter
    ensures converter.Valid()
    ensures r == EntriesOf(cfg, old(converter.lastDirections), values)
    ensures converter.lastDirections == TakeAll(cfg, old(converter.lastDirections), values).directions
  {
    ghost var last := converter.lastDirections;
    ghost var p := TakeAll(cfg, last, []);
    var m := NO_MOTION;
    r := [];
    for i := 0 to |values|
      invariant converter.Valid() && converter.lastDirections == p.directions
      invariant p == TakeAll(cfg, last, values[..i])
      invariant r == p.entries && m == HeldBack(p.pending)
    {
      assert values[..i + 1][..i] == values[..i];
      r, m := MakeEntry(cfg, converter, values[i], r, m, p);
      p := Take(cfg, p, values[i]);
    }
    assert values[..|values|] == values;
    r, m := EmplaceBackPointingMotionEvent(cfg, r, m, p);
  }
}
