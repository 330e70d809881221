/**
 One stage of the pipeline: the manager takes the front entry of its input
 queue, lets its manipulators see it, and forwards it if it is still valid.

 A manipulator is arbitrary: what it answers to each call is a parameter.
 */
module ManipulatorManagers {
  import opened Types
  import opened Sequences
  import opened ModifierFlagLists
  import opened PointingButtonManagers
  import opened EventQueueEntries
  import opened EventQueueSort
  import opened EventQueues

  datatype ManipulateResult = Passed | Manipulated | NeedsWaitUntilTimeStamp

  /** What a manipulator can do to the output queue. */
  datatype Action = Post(entry: Entry) | IncreaseDelay(value: int)

  /** Everything one manipulator does when it is shown one front entry. */
  datatype Answer = Answer(
    alreadyManipulated: bool,
    result: ManipulateResult,
    newValidity: Option<Validity>,
    actions: seq<Action>)

  const NO_ANSWER := Answer(false, Passed, None, [])

  datatype Manipulator = Manipulator(validity: Validity, active: bool)

  // ----- The step as a function on values -----

  datatype QueueState = QueueState(events: seq<Entry>, delay: int, managers: Managers)

  function Emplace(q: QueueState, e: Entry): QueueState {
    QueueState(q.events + [Delayed(e, q.delay)], q.delay, Update(q.managers, e))
  }

  function Act(q: QueueState, a: Action): QueueState {
    match a
    case Post(e) => Emplace(q, e)
    case IncreaseDelay(d) => q.(delay := q.delay + d)
  }

  function ActAll(q: QueueState, actions: seq<Action>): QueueState {
    if actions == [] then q else Act(ActAll(q, actions[..|actions| - 1]), actions[|actions| - 1])
  }

  /** Held flags and buttons that a front entry clears on the output queue. */
  function EraseHeld(st: Managers, e: Entry): Managers {
    match e.event.kind
    case DeviceKeysAndPointingButtonsAreReleased =>
      Managers(Apply(st.flags, EraseDeviceExceptLockAndSticky(e.device)), Filter(st.buttons, NotOfDevice(e.device)))
    case DeviceUngrabbed =>
      Managers(Apply(st.flags, EraseDevice(e.device)), Filter(st.buttons, NotOfDevice(e.device)))
    case _ => st
  }

  /** Every manipulator sees these events, but cannot change or hold them back. */
  predicate OnlyAnnounced(kind: EventKind) {
    || kind == DeviceKeysAndPointingButtonsAreReleased
    || kind == DeviceUngrabbed
    || kind == PointingDeviceEventFromEventTap
  }

  predicate Ignored(kind: EventKind) {
    || kind == NoEvent || kind == DeviceGrabbed || kind == FrontmostApplicationChanged
    || kind == InputSourceChanged || kind == SetVariable || kind == VirtualHidDevicesStateChanged
  }

  /** What the manipulators make of the front entry. */
  datatype Verdict = Verdict(waits: bool, validity: Validity, output: QueueState)

  /** Manipulators 0 to `n - 1` in turn, up to one that wants to wait. */
  function Consult(v: Validity, output: QueueState, answers: nat -> Answer, n: nat): Verdict {
    if n == 0 then Verdict(false, v, output)
    else
      var r := Consult(v, output, answers, n - 1);
      if r.waits then r
      else
        var a := answers(n - 1);
        Verdict(a.result == NeedsWaitUntilTimeStamp,
                if a.newValidity.Some? then a.newValidity.value else r.validity,
                ActAll(r.output, a.actions))
  }

  function Announce(output: QueueState, answers: nat -> Answer, n: nat): QueueState {
    if n == 0 then output else ActAll(Announce(output, answers, n - 1), answers(n - 1).actions)
  }

  function Judge(e: Entry, output: QueueState, answers: nat -> Answer, n: nat): Verdict {
    var out := output.(managers := EraseHeld(output.managers, e));
    if OnlyAnnounced(e.event.kind) then Verdict(false, e.validity, Announce(out, answers, n))
    else if Ignored(e.event.kind) then Verdict(false, e.validity, out)
    else if e.validity == Valid && exists i :: 0 <= i < n && answers(i).alreadyManipulated
    then Verdict(false, Invalid, out)
    else Consult(e.validity, out, answers, n)
  }

  function Tail(q: QueueState): QueueState
    requires q.events != []
  {
    q.(events := q.events[1..], delay := if |q.events| == 1 then 0 else q.delay)
  }

  datatype Stage = Stage(again: bool, input: QueueState, output: QueueState)

  function Step(input: QueueState, output: QueueState, answers: nat -> Answer, n: nat, reorder: bool): Stage {
    if input.events == [] then Stage(false, input, output)
    else
      var e := input.events[0];
      var r := Judge(e, output, answers, n);
      var e' := e.(validity := r.validity);
      if r.waits then Stage(false, input.(events := [e'] + input.events[1..]), r.output)
      else
        var out := if r.validity == Valid then Emplace(r.output, e') else r.output;
        Stage(true, Tail(input), if reorder then out.(events := Sort(out.events)) else out)
  }

  // ----- Conservation in one step -----

  /** The entries that actions append, with the delay in force when they are posted. */
  function Posted(delay: int, actions: seq<Action>): seq<Entry> {
    if actions == [] then []
    else
      var before := Posted(delay, actions[..|actions| - 1]);
      match actions[|actions| - 1]
      case Post(e) => before + [Delayed(e, DelayAfter(delay, actions[..|actions| - 1]))]
      case IncreaseDelay(_) => before
  }

  function DelayAfter(delay: int, actions: seq<Action>): int {
    if actions == [] then delay
    else
      var before := DelayAfter(delay, actions[..|actions| - 1]);
      match actions[|actions| - 1]
      case Post(_) => before
      case IncreaseDelay(d) => before + d
  }

  lemma {:induction false} ActAllAppends(q: QueueState, actions: seq<Action>)
    ensures ActAll(q, actions).events == q.events + Posted(q.delay, actions)
    ensures ActAll(q, actions).delay == DelayAfter(q.delay, actions)
  {
    if actions != [] {
      ActAllAppends(q, actions[..|actions| - 1]);
      var e := actions[|actions| - 1];
      if e.Post? {
        AppendAssoc(q.events, Posted(q.delay, actions[..|actions| - 1]),
                    Delayed(e.entry, DelayAfter(q.delay, actions[..|actions| - 1])));
      }
    }
  }

  lemma {:induction false} ActAllAppend(q: QueueState, a: seq<Action>, b: seq<Action>)
    ensures ActAll(q, a + b) == ActAll(ActAll(q, a), b)
  {
    if b == [] {
      assert a + b == a;
    } else {
      ActAllAppend(q, a, b[..|b| - 1]);
      assert (a + b)[..|a + b| - 1] == a + b[..|b| - 1];
    }
  }

  // ----- What the manipulators do, without the queues -----

  ghost predicate Waiting(answers: nat -> Answer, n: nat) {
    exists i :: 0 <= i < n && answers(i).result == NeedsWaitUntilTimeStamp
  }

  /** How many of the first `n` manipulators are asked: all up to the first that waits. */
  ghost function Asked(answers: nat -> Answer, n: nat): (k: nat)
    ensures k <= n && (!Waiting(answers, n) ==> k == n)
  {
    if n == 0 then 0 else if Waiting(answers, n - 1) then Asked(answers, n - 1) else n
  }

  function AllActions(answers: nat -> Answer, k: nat): seq<Action> {
    if k == 0 then [] else AllActions(answers, k - 1) + answers(k - 1).actions
  }

  /** The validity that the first `k` manipulators leave behind. */
  function LastValidity(v: Validity, answers: nat -> Answer, k: nat): Validity {
    if k == 0 then v
    else if answers(k - 1).newValidity.Some? then answers(k - 1).newValidity.value
    else LastValidity(v, answers, k - 1)
  }

  ghost predicate AlreadyTaken(e: Entry, answers: nat -> Answer, n: nat) {
    e.validity == Valid && exists i :: 0 <= i < n && answers(i).alreadyManipulated
  }

  /** Whether the manipulators are asked about the entry. */
  ghost predicate Consulted(e: Entry, answers: nat -> Answer, n: nat) {
    !OnlyAnnounced(e.event.kind) && !Ignored(e.event.kind) && !AlreadyTaken(e, answers, n)
  }

  ghost predicate Waits(e: Entry, answers: nat -> Answer, n: nat) {
    Consulted(e, answers, n) && Waiting(answers, n)
  }

  ghost function ValidityAfter(e: Entry, answers: nat -> Answer, n: nat): Validity {
    if OnlyAnnounced(e.event.kind) || Ignored(e.event.kind) then e.validity
    else if AlreadyTaken(e, answers, n) then Invalid
    else LastValidity(e.validity, answers, Asked(answers, n))
  }

  ghost function ActionsOn(e: Entry, answers: nat -> Answer, n: nat): seq<Action> {
    if OnlyAnnounced(e.event.kind) then AllActions(answers, n)
    else if Consulted(e, answers, n) then AllActions(answers, Asked(answers, n))
    else []
  }

  lemma {:induction false} ConsultMeans(v: Validity, output: QueueState, answers: nat -> Answer, n: nat)
    ensures Consult(v, output, answers, n) ==
            Verdict(Waiting(answers, n), LastValidity(v, answers, Asked(answers, n)),
                    ActAll(output, AllActions(answers, Asked(answers, n))))
  {
    if n == 0 {
      assert !Waiting(answers, 0) && ActAll(output, []) == output;
    } else {
      ConsultMeans(v, output, answers, n - 1);
      ConsultNext(v, output, answers, n);
    }
  }

  lemma ConsultNext(v: Validity, output: QueueState, answers: nat -> Answer, n: nat)
    requires n > 0
    requires Consult(v, output, answers, n - 1) ==
             Verdict(Waiting(answers, n - 1), LastValidity(v, answers, Asked(answers, n - 1)),
                     ActAll(output, AllActions(answers, Asked(answers, n - 1))))
    ensures Consult(v, output, answers, n) ==
            Verdict(Waiting(answers, n), LastValidity(v, answers, Asked(answers, n)),
                    ActAll(output, AllActions(answers, Asked(answers, n))))
  {
    hide ActAll;
    ActAllAppend(output, AllActions(answers, n - 1), answers(n - 1).actions);
  }

  lemma {:induction false} AnnounceMeans(output: QueueState, answers: nat -> Answer, n: nat)
    ensures Announce(output, answers, n) == ActAll(output, AllActions(answers, n))
  {
    if n > 0 {
      AnnounceMeans(output, answers, n - 1);
      ActAllAppend(output, AllActions(answers, n - 1), answers(n - 1).actions);
    }
  }

  lemma JudgeMeans(e: Entry, output: QueueState, answers: nat -> Answer, n: nat)
    ensures Judge(e, output, answers, n) ==
            Verdict(Waits(e, answers, n), ValidityAfter(e, answers, n),
                    ActAll(output.(managers := EraseHeld(output.managers, e)), ActionsOn(e, answers, n)))
  {
    var out := output.(managers := EraseHeld(output.managers, e));
    hide Consult, Announce, Waiting, Asked, EraseHeld, AllActions, LastValidity;
    ConsultMeans(e.validity, out, answers, n);
    AnnounceMeans(out, answers, n);
    assert ActAll(out, []) == out;
  }

  /** The entry as it is forwarded, or nothing. */
  ghost function Forwarded(e: Entry, delay: int, answers: nat -> Answer, n: nat): seq<Entry> {
    if Waits(e, answers, n) || ValidityAfter(e, answers, n) != Valid then []
    else [Delayed(e.(validity := Valid), DelayAfter(delay, ActionsOn(e, answers, n)))]
  }

  /**
   A step goes on unless a manipulator waits, and then it takes exactly the
   front entry from the input. The output gains what was posted, and the entry
   itself exactly if it is still valid.
   */
  lemma StepConserves(input: QueueState, output: QueueState, answers: nat -> Answer, n: nat, reorder: bool)
    requires input.events != []
    ensures var r := Step(input, output, answers, n, reorder);
            var e := input.events[0];
            && (r.again <==> !Waits(e, answers, n))
            && (r.again ==> r.input.events == input.events[1..])
            && (!r.again ==> r.input.events == [e.(validity := ValidityAfter(e, answers, n))] + input.events[1..])
            && r.output.delay == DelayAfter(output.delay, ActionsOn(e, answers, n))
            && multiset(r.output.events) ==
               multiset(output.events) + multiset(Posted(output.delay, ActionsOn(e, answers, n)))
               + multiset(Forwarded(e, output.delay, answers, n))
  {
    var e := input.events[0];
    var out := output.(managers := EraseHeld(output.managers, e));
    JudgeMeans(e, output, answers, n);
    ActAllAppends(out, ActionsOn(e, answers, n));
    hide Judge, Waits, ValidityAfter, ActionsOn, ActAll, Posted, DelayAfter, Sort, EraseHeld, Update;
    var v := Judge(e, output, answers, n);
    if !v.waits {
      var sent := if v.validity == Valid then Emplace(v.output, e.(validity := v.validity)) else v.output;
      SortKeeps(sent.events);
    }
  }

  // ----- The object -----

  function Keep(): Manipulator -> bool {
    (m: Manipulator) => !(m.validity == Invalid && !m.active)
  }

  ghost function Snapshot(q: Queue): QueueState
    reads q, q.flags, q.buttons
  {
    QueueState(q.events, q.timeStampDelay, q.State())
  }

  method Perform(q: Queue, actions: seq<Action>)
    requires q.Valid()
    modifies q.Repr()
    ensures q.Valid() && Snapshot(q) == ActAll(old(Snapshot(q)), actions)
  {
    for i := 0 to |actions|
      invariant q.Valid() && Snapshot(q) == ActAll(old(Snapshot(q)), actions[..i])
    {
      assert actions[..i + 1][..i] == actions[..i];
      match actions[i] {
        case Post(e) => q.EmplaceBackEntry(e);
        case IncreaseDelay(d) => q.IncreaseTimeStampDelay(d);
      }
    }
    assert actions[..|actions|] == actions;
  }

  class ManipulatorManager {
    var manipulators: seq<Manipulator>

    constructor ()
      ensures manipulators == []
    {
      manipulators := [];
    }

    method PushBackManipulator(m: Manipulator)
      modifies this
      ensures manipulators == old(manipulators) + [m]
    {
      manipulators := manipulators + [m];
    }

    method RemoveInvalidManipulators()
      modifies this
      ensures manipulators == Filter(old(manipulators), Keep())
      ensures forall m :: m in manipulators <==> m in old(manipulators) && (m.validity == Valid || m.active)
    {
      FilterKeeps(manipulators, Keep());
      manipulators := Filter(manipulators, Keep());
    }

    /** Returns true if the caller needs to call again. */
    method Manipulate(input: Queue, output: Queue, answers: nat -> Answer, reorder: bool) returns (again: bool)
      requires input.Valid() && output.Valid() && input.Repr() !! output.Repr()
      modifies this, input, output.Repr()
      ensures input.Valid() && output.Valid()
      ensures var r := Step(old(Snapshot(input)), old(Snapshot(output)), answers, |old(manipulators)|, reorder);
              again == r.again && Snapshot(input) == r.input && Snapshot(output) == r.output
      ensures manipulators == if again then old(manipulators) else Filter(old(manipulators), Keep())
    {
      hide Judge, Sort, Update;
      if input.events != [] {
        var e := input.events[0];
        var waits, v := Ask(e, output, answers);
        input.events := [e.(validity := v)] + input.events[1..];
        if !waits {
          if input.events[0].validity == Valid {
            output.EmplaceBackEntry(input.events[0]);
          }
          if reorder {
            output.SortEvents();
          }
          input.EraseFrontEvent();
          return true;
        }
      }
      RemoveInvalidManipulators();
      return false;
    }

    /** The switch over the kind of the front event. */
    method Ask(e: Entry, output: Queue, answers: nat -> Answer) returns (waits: bool, v: Validity)
      requires output.Valid()
      modifies output.Repr()
      ensures output.Valid()
      ensures Verdict(waits, v, Snapshot(output)) == Judge(e, old(Snapshot(output)), answers, |manipulators|)
    {
      waits, v := false, e.validity;
      EraseHeldOn(output, e);
      if OnlyAnnounced(e.event.kind) {
        AnnounceTo(output, answers);
      } else if !Ignored(e.event.kind) {
        var skip := false;
        if e.validity == Valid {
          skip := AnyAlreadyManipulated(answers);
        }
        if skip {
          v := Invalid;
        } else {
          waits, v := ConsultAll(e.validity, output, answers);
        }
      }
    }

    method EraseHeldOn(output: Queue, e: Entry)
      requires output.Valid()
      modifies output.flags, output.buttons
      ensures output.Valid()
      ensures Snapshot(output) == old(Snapshot(output)).(managers := EraseHeld(old(output.State()), e))
    {
      if e.event.kind == DeviceKeysAndPointingButtonsAreReleased {
        output.flags.Erase(EraseDeviceExceptLockAndSticky(e.device));
        output.buttons.EraseDevice(e.device);
      } else if e.event.kind == DeviceUngrabbed {
        output.flags.Erase(EraseDevice(e.device));
        output.buttons.EraseDevice(e.device);
      }
    }

    method AnyAlreadyManipulated(answers: nat -> Answer) returns (skip: bool)
      ensures skip <==> exists i :: 0 <= i < |manipulators| && answers(i).alreadyManipulated
    {
      skip := false;
      for i := 0 to |manipulators|
        invariant !skip && forall j :: 0 <= j < i ==> !answers(j).alreadyManipulated
      {
        if answers(i).alreadyManipulated {
          skip := true;
          return;
        }
      }
    }

    method AnnounceTo(output: Queue, answers: nat -> Answer)
      requires output.Valid()
      modifies output.Repr()
      ensures output.Valid() && Snapshot(output) == Announce(old(Snapshot(output)), answers, |manipulators|)
    {
      for i := 0 to |manipulators|
        invariant output.Valid() && Snapshot(output) == Announce(old(Snapshot(output)), answers, i)
      {
        Perform(output, answers(i).actions);
      }
    }

    method ConsultAll(before: Validity, output: Queue, answers: nat -> Answer) returns (waits: bool, v: Validity)
      requires output.Valid()
      modifies output.Repr()
      ensures output.Valid()
      ensures Verdict(waits, v, Snapshot(output)) == Consult(before, old(Snapshot(output)), answers, |manipulators|)
    {
      waits, v := false, before;
      hide ActAll;
      for i := 0 to |manipulators|
        invariant output.Valid() && !waits
        invariant Verdict(waits, v, Snapshot(output)) == Consult(before, old(Snapshot(output)), answers, i)
      {
        var a := answers(i);
        Perform(output, a.actions);
        if a.newValidity.Some? {
          v := a.newValidity.value;
        }
        if a.result == NeedsWaitUntilTimeStamp {
          waits := true;
          ConsultStops(before, old(Snapshot(output)), answers, i + 1, |manipulators|);
          return;
        }
      }
    }
  }

  /** After a manipulator that waits, nobody is asked. */
  lemma {:induction false} ConsultStops(v: Validity, output: QueueState, answers: nat -> Answer, i: nat, n: nat)
    requires i <= n && Consult(v, output, answers, i).waits
    ensures Consult(v, output, answers, n) == Consult(v, output, answers, i)
  {
    if i < n {
      ConsultStops(v, output, answers, i, n - 1);
    }
  }
}
