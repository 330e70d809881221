/** A hat switch reported as four pad buttons: only the changes are sent. */
module HatSwitchConverters {
  import opened Types
  import opened Sequences
  import opened EventQueueEntries
  import opened DeltaStreams

  const DPAD_UP := 0x90

  /** Up, down, right, left; an unknown value means that nothing is held. */
  function DirectionsOf(value: int): (bits: seq<bool>)
    ensures |bits| == 4
  {
    match value
    case 0 => [true, false, false, false]
    case 1 => [true, false, true, false]
    case 2 => [false, false, true, false]
    case 3 => [false, true, true, false]
    case 4 => [false, true, false, false]
    case 5 => [false, true, false, true]
    case 6 => [false, false, false, true]
    case 7 => [true, false, false, true]
    case _ => AllOff(4)
  }

  /** The eight values go round a compass: 0 is up, 2 is right, the opposite value is the opposite direction, and
      every odd value holds what its two neighbours hold. */
  lemma DirectionsAreACompass(value: int)
    ensures DirectionsOf(0) == [true, false, false, false] && DirectionsOf(2) == [false, false, true, false]
    ensures 0 <= value < 8 ==>
              var d, o := DirectionsOf(value), DirectionsOf((value + 4) % 8);
              o == [d[1], d[0], d[3], d[2]]
    ensures 0 <= value < 8 && value % 2 == 1 ==>
              forall i :: 0 <= i < 4 ==>
                (DirectionsOf(value)[i] <==> DirectionsOf(value - 1)[i] || DirectionsOf((value + 1) % 8)[i])
    ensures !(0 <= value < 8) ==> DirectionsOf(value) == AllOff(4)
  {
  }

  type DpadEvent = (Switch, EventType)

  function DpadEventOf(c: Change): DpadEvent {
    (Switch(GENERIC_DESKTOP, DPAD_UP + c.index), if c.pressed then KeyDown else KeyUp)
  }

  function DpadEvents(cs: seq<Change>): seq<DpadEvent> {
    if cs == [] then [] else DpadEvents(cs[..|cs| - 1]) + [DpadEventOf(cs[|cs| - 1])]
  }

  function LastOf(m: map<DeviceId, seq<bool>>, device: DeviceId): seq<bool> {
    if device in m then m[device] else AllOff(4)
  }

  lemma DpadEventsSnoc(cs: seq<Change>, c: Change)
    ensures DpadEvents(cs + [c]) == DpadEvents(cs) + [DpadEventOf(c)]
  {
    assert (cs + [c])[..|cs + [c]| - 1] == cs;
  }

  class HatSwitchConverter {
    var lastDirections: map<DeviceId, seq<bool>>

    ghost predicate Valid()
      reads this
    {
      forall d :: d in lastDirections ==> |lastDirections[d]| == 4
    }

    constructor ()
      ensures Valid() && lastDirections == map[]
    {
      lastDirections := map[];
    }

    method EraseDevice(device: DeviceId)
      requires Valid()
      modifies this
      ensures Valid() && lastDirections == old(lastDirections) - {device}
    {
      lastDirections := lastDirections - {device};
    }

    method Clear()
      modifies this
      ensures Valid() && lastDirections == map[]
    {
      lastDirections := map[];
    }

    method ToDpadEvents(device: DeviceId, value: int) returns (result: seq<DpadEvent>)
      requires Valid()
      modifies this
      ensures Valid() && lastDirections == old(lastDirections)[device := DirectionsOf(value)]
      ensures result == DpadEvents(Changes(LastOf(old(lastDirections), device), DirectionsOf(value), 4))
    {
      var last := LastOf(lastDirections, device);
      var current := DirectionsOf(value);
      result := [];
      for i := 0 to 4
        invariant lastDirections == old(lastDirections)
        invariant result == DpadEvents(Changes(last, current, i))
      {
        if !last[i] && current[i] {
          DpadEventsSnoc(Changes(last, current, i), Change(i, true));
          result := result + [(Switch(GENERIC_DESKTOP, DPAD_UP + i), KeyDown)];
        }
        if last[i] && !current[i] {
          DpadEventsSnoc(Changes(last, current, i), Change(i, false));
          result := result + [(Switch(GENERIC_DESKTOP, DPAD_UP + i), KeyUp)];
        }
      }
      lastDirections := lastDirections[device := current];
    }
  }

  // ----- Whole runs over several devices -----

  datatype HatOp = Turned(device: DeviceId, value: int) | DeviceErased(device: DeviceId) | Cleared

  function ConverterAfter(ops: seq<HatOp>): (m: map<DeviceId, seq<bool>>)
    ensures forall d :: d in m ==> |m[d]| == 4
  {
    if ops == [] then map[]
    else
      var before := ConverterAfter(ops[..|ops| - 1]);
      match ops[|ops| - 1]
      case Turned(d, v) => before[d := DirectionsOf(v)]
      case DeviceErased(d) => before - {d}
      case Cleared => map[]
  }

  /** What was sent for one device since it was last forgotten. */
  function SentFor(ops: seq<HatOp>, device: DeviceId): seq<DpadEvent> {
    if ops == [] then []
    else
      var before := ops[..|ops| - 1];
      match ops[|ops| - 1]
      case Turned(d, v) =>
        if d != device then SentFor(before, device)
        else SentFor(before, device) + DpadEvents(Changes(LastOf(ConverterAfter(before), device), DirectionsOf(v), 4))
      case DeviceErased(d) => if d == device then [] else SentFor(before, device)
      case Cleared => []
  }

  /** The run as one device sees it. */
  function Project(ops: seq<HatOp>, device: DeviceId): (steps: seq<Step>)
    ensures Rows(steps, 4)
  {
    if ops == [] then []
    else
      var before := Project(ops[..|ops| - 1], device);
      match ops[|ops| - 1]
      case Turned(d, v) => if d == device then before + [Report(DirectionsOf(v))] else before
      case DeviceErased(d) => if d == device then before + [Reset] else before
      case Cleared => before + [Reset]
  }

  lemma {:induction false} DpadEventsAppend(cs: seq<Change>, ds: seq<Change>)
    ensures DpadEvents(cs + ds) == DpadEvents(cs) + DpadEvents(ds)
  {
    if ds == [] {
      assert cs + ds == cs;
    } else {
      var front, d := ds[..|ds| - 1], ds[|ds| - 1];
      assert ds == front + [d];
      DpadEventsAppend(cs, front);
      AppendAssoc(cs, front, d);
      DpadEventsSnoc(cs + front, d);
      AppendAssoc(DpadEvents(cs), DpadEvents(front), DpadEventOf(d));
    }
  }

  lemma {:induction false} ConverterIsProjection(ops: seq<HatOp>, device: DeviceId)
    ensures LastOf(ConverterAfter(ops), device) == LastRow(4, Project(ops, device))
    ensures SentFor(ops, device) == DpadEvents(Emitted(4, Project(ops, device)))
  {
    if ops != [] {
      var before, op := ops[..|ops| - 1], ops[|ops| - 1];
      ConverterIsProjection(before, device);
      var steps := Project(before, device);
      if op.Turned? && op.device == device {
        EmittedSnoc(4, steps, Report(DirectionsOf(op.value)));
        DpadEventsAppend(Emitted(4, steps), Changes(LastRow(4, steps), DirectionsOf(op.value), 4));
      } else if op.Cleared? || (op.DeviceErased? && op.device == device) {
        EmittedSnoc(4, steps, Reset);
      }
    }
  }

  /**
   For every device, in any run over several devices: the events sent since the
   device was last forgotten replay to its last direction, and each pad button
   alternates between press and release.
   */
  lemma DpadReplays(ops: seq<HatOp>, device: DeviceId)
    ensures var cs := Emitted(4, Project(ops, device));
            && SentFor(ops, device) == DpadEvents(cs)
            && Replay(AllOff(4), cs) == LastOf(ConverterAfter(ops), device)
            && forall i :: 0 <= i < 4 ==> Alternates(ValuesOf(cs, i), true)
  {
    ConverterIsProjection(ops, device);
    RunReplays(4, Project(ops, device));
    forall i | 0 <= i < 4 ensures Alternates(ValuesOf(Emitted(4, Project(ops, device)), i), true) {
      RunAlternates(4, Project(ops, device), i);
    }
  }
}
