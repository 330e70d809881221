/** What one step does, kind of event by kind of event. */
module ManipulatorStepTheorems {
  import opened Types
  import opened Sequences
  import opened ActiveModifierFlags
  import opened ModifierFlagLists
  import opened PointingButtonManagers
  import opened EventQueueEntries
  import opened EventQueueSort
  import opened EventQueues
  import opened ManipulatorManagers

  // ----- What the manipulators leave behind -----

  /** The last manipulator that has something to say about the validity decides. */
  lemma {:induction false} LastValidityIff(v: Validity, answers: nat -> Answer, k: nat)
    ensures LastValidity(v, answers, k) == Valid <==>
            || (exists i :: 0 <= i < k && answers(i).newValidity == Some(Valid) && SilentBetween(answers, i + 1, k))
            || (v == Valid && SilentBetween(answers, 0, k))
  {
    if k > 0 {
      LastValidityIff(v, answers, k - 1);
      var a := answers(k - 1);
      if a.newValidity.Some? {
        assert SilentBetween(answers, k, k);
        assert forall i :: 0 <= i < k ==> !SilentBetween(answers, i, k);
      } else {
        assert forall i :: 0 <= i <= k - 1 ==> SilentBetween(answers, i, k) == SilentBetween(answers, i, k - 1);
      }
    }
  }

  /** Manipulators `i` to `k - 1` leave the validity alone. */
  ghost predicate SilentBetween(answers: nat -> Answer, i: nat, k: nat) {
    forall j :: i <= j < k ==> answers(j).newValidity.None?
  }

  /** The output after `actions`, with the entry behind them if it is forwarded. */
  ghost predicate Gains(output: QueueState, r: QueueState, actions: seq<Action>, e: Entry, forwarded: bool) {
    var late := DelayAfter(output.delay, actions);
    multiset(r.events) ==
    multiset(output.events) + multiset(Posted(output.delay, actions)) +
    if forwarded then multiset{e.(validity := Valid, timeStamp := e.timeStamp + late)} else multiset{}
  }

  // ----- Kind by kind -----

  /** What the manipulators have to do with an event: they decide on it, hear of it, or miss it. */
  datatype Part = Decide | Hear | Miss

  function PartIn(kind: EventKind): Part {
    match kind
    case MomentarySwitchEvent => Decide
    case PointingMotion => Decide
    case ShellCommand => Decide
    case SendUserCommand => Decide
    case SelectInputSource => Decide
    case SetNotificationMessage => Decide
    case MouseKey => Decide
    case StickyModifier => Decide
    case SoftwareFunction => Decide
    case StopKeyboardRepeat => Decide
    case CapsLockStateChanged => Decide
    case SystemPreferencesPropertiesChanged => Decide
    case DeviceKeysAndPointingButtonsAreReleased => Hear
    case DeviceUngrabbed => Hear
    case PointingDeviceEventFromEventTap => Hear
    case NoEvent => Miss
    case DeviceGrabbed => Miss
    case FrontmostApplicationChanged => Miss
    case InputSourceChanged => Miss
    case SetVariable => Miss
    case VirtualHidDevicesStateChanged => Miss
  }

  /** What a step does with an entry that the manipulators are asked about. */
  ghost predicate StepAsks(input: QueueState, output: QueueState, answers: nat -> Answer, n: nat, r: Stage)
    requires input.events != []
  {
    var e := input.events[0];
    if e.validity == Valid && exists i :: 0 <= i < n && answers(i).alreadyManipulated
    then r.again && Gains(output, r.output, [], e, false)
    else
      && (r.again <==> forall i :: 0 <= i < n ==> answers(i).result != NeedsWaitUntilTimeStamp)
      && (r.again ==>
            Gains(output, r.output, AllActions(answers, n), e, LastValidity(e.validity, answers, n) == Valid))
  }

  /** What a step does with an entry that the manipulators only hear of, or do not hear of. */
  ghost predicate StepPasses(input: QueueState, output: QueueState, actions: seq<Action>, r: Stage)
    requires input.events != []
  {
    r.again && Gains(output, r.output, actions, input.events[0], input.events[0].validity == Valid)
  }

  /** For every kind: whether the manipulators can hold the entry back or stop it, and what the output gains. */
  lemma StepByKind(input: QueueState, output: QueueState, answers: nat -> Answer, n: nat, reorder: bool)
    requires input.events != []
    ensures var r := Step(input, output, answers, n, reorder);
            match PartIn(input.events[0].event.kind)
            case Decide => StepAsks(input, output, answers, n, r)
            case Hear => StepPasses(input, output, AllActions(answers, n), r)
            case Miss => StepPasses(input, output, [], r)
  {
    hide StepAsks, StepPasses, Step;
    var kind := input.events[0].event.kind;
    PartIsAsCoded(kind);
    hide PartIn, OnlyAnnounced, Ignored;
    if OnlyAnnounced(kind) {
      HeardStep(input, output, answers, n, reorder);
    } else if Ignored(kind) {
      MissedStep(input, output, answers, n, reorder);
    } else {
      DecidedStep(input, output, answers, n, reorder);
    }
  }

  lemma PartIsAsCoded(kind: EventKind)
    ensures OnlyAnnounced(kind) <==> PartIn(kind) == Hear
    ensures Ignored(kind) <==> PartIn(kind) == Miss
  {
  }

  lemma HeardStep(input: QueueState, output: QueueState, answers: nat -> Answer, n: nat, reorder: bool)
    requires input.events != [] && OnlyAnnounced(input.events[0].event.kind)
    ensures StepPasses(input, output, AllActions(answers, n), Step(input, output, answers, n, reorder))
  {
    hide Step, OnlyAnnounced, Ignored, Posted, DelayAfter, AllActions;
    StepConserves(input, output, answers, n, reorder);
  }

  lemma MissedStep(input: QueueState, output: QueueState, answers: nat -> Answer, n: nat, reorder: bool)
    requires input.events != [] && Ignored(input.events[0].event.kind) && !OnlyAnnounced(input.events[0].event.kind)
    ensures StepPasses(input, output, [], Step(input, output, answers, n, reorder))
  {
    hide Step, OnlyAnnounced, Ignored, Posted, DelayAfter;
    NothingPosted(output.delay);
    StepConserves(input, output, answers, n, reorder);
  }

  lemma NothingPosted(delay: int)
    ensures Posted(delay, []) == [] && DelayAfter(delay, []) == delay
  {
  }

  lemma NotWaitingIff(answers: nat -> Answer, n: nat)
    ensures !Waiting(answers, n) <==> forall i :: 0 <= i < n ==> answers(i).result != NeedsWaitUntilTimeStamp
  {
  }

  lemma DecidedStep(input: QueueState, output: QueueState, answers: nat -> Answer, n: nat, reorder: bool)
    requires input.events != []
    requires !OnlyAnnounced(input.events[0].event.kind) && !Ignored(input.events[0].event.kind)
    ensures StepAsks(input, output, answers, n, Step(input, output, answers, n, reorder))
  {
    hide Step, OnlyAnnounced, Ignored, AllActions, LastValidity, Posted, DelayAfter, Waiting;
    StepConserves(input, output, answers, n, reorder);
    NothingPosted(output.delay);
    NotWaitingIff(answers, n);
  }

  lemma StoppedEntry(input: QueueState, output: QueueState, answers: nat -> Answer, r: Stage)
    requires input.events != [] && StepAsks(input, output, answers, 1, r) && input.events[0].validity == Valid
    requires answers(0) == Answer(false, ManipulateResult.Manipulated, Some(Invalid), [])
    ensures multiset(r.output.events) == multiset(output.events)
  {
    OneSilentAnswer(answers, output.delay);
    hide AllActions, LastValidity, Posted, DelayAfter;
  }

  lemma PassedEntry(input: QueueState, output: QueueState, actions: seq<Action>, r: Stage)
    requires input.events != [] && StepPasses(input, output, actions, r) && input.events[0].validity == Valid
    requires actions == []
    ensures var e := input.events[0];
            multiset(r.output.events) ==
            multiset(output.events) + multiset{e.(timeStamp := e.timeStamp + output.delay)}
  {
    var e := input.events[0];
    assert Posted(output.delay, actions) == [] && DelayAfter(output.delay, actions) == output.delay;
    assert e.(validity := Valid, timeStamp := e.timeStamp + output.delay) ==
      e.(timeStamp := e.timeStamp + output.delay);
    hide Posted, DelayAfter;
  }

  /** With one manipulator that invalidates what it is asked about: which kinds it can stop. */
  lemma OnlyDecidedKindsAreStopped(input: QueueState, output: QueueState, answers: nat -> Answer, reorder: bool)
    requires input.events != [] && input.events[0].validity == Valid
    requires answers(0) == Answer(false, ManipulateResult.Manipulated, Some(Invalid), [])
    ensures var e := input.events[0];
            var forwarded := e.(timeStamp := e.timeStamp + output.delay);
            multiset(Step(input, output, answers, 1, reorder).output.events) ==
            multiset(output.events) + if PartIn(e.event.kind) == Decide then multiset{} else multiset{forwarded}
  {
    hide Step, Posted, DelayAfter, AllActions, LastValidity, PartIn, StepAsks, StepPasses;
    StepByKind(input, output, answers, 1, reorder);
    OneSilentAnswer(answers, output.delay);
    var r := Step(input, output, answers, 1, reorder);
    match PartIn(input.events[0].event.kind)
    case Decide => StoppedEntry(input, output, answers, r);
    case Hear => PassedEntry(input, output, AllActions(answers, 1), r);
    case Miss => PassedEntry(input, output, [], r);
  }

  lemma OneSilentAnswer(answers: nat -> Answer, delay: int)
    requires answers(0) == Answer(false, ManipulateResult.Manipulated, Some(Invalid), [])
    ensures AllActions(answers, 1) == [] && LastValidity(Valid, answers, 1) == Invalid
    ensures Posted(delay, []) == [] && DelayAfter(delay, []) == delay
  {
    assert [] + answers(0).actions == [];
    assert AllActions(answers, 0) == [];
  }

  /**
   A manipulator that invalidates an entry and posts others replaces it by them: each
   is posted with the delay in force at its turn, and the delay stays.
   */
  lemma AnswerReplaces(
      input: QueueState, output: QueueState, answers: nat -> Answer, reorder: bool, a: Entry, d: int, b: Entry)
    requires input.events != [] && input.events[0].validity == Valid && PartIn(input.events[0].event.kind) == Decide
    requires answers(0) ==
             Answer(false, ManipulateResult.Manipulated, Some(Invalid), [Post(a), IncreaseDelay(d), Post(b)])
    ensures var r := Step(input, output, answers, 1, reorder);
            && r.again && r.input.events == input.events[1..] && r.output.delay == output.delay + d
            && multiset(r.output.events) ==
               multiset(output.events) + multiset{a.(timeStamp := a.timeStamp + output.delay),
                                                  b.(timeStamp := b.timeStamp + output.delay + d)}
  {
    hide *;
    var e := input.events[0];
    PartIsAsCoded(e.event.kind);
    PostsInTurn(output.delay, a, d, b, answers(0).actions);
    OneAnswer(answers);
    Replaced(input, output, answers, reorder, output.delay + d,
             multiset{a.(timeStamp := a.timeStamp + output.delay), b.(timeStamp := b.timeStamp + output.delay + d)});
  }

  lemma Replaced(
      input: QueueState, output: QueueState, answers: nat -> Answer, reorder: bool, delay: int, posted: multiset<Entry>)
    requires input.events != [] && input.events[0].validity == Valid
    requires !OnlyAnnounced(input.events[0].event.kind) && !Ignored(input.events[0].event.kind)
    requires !answers(0).alreadyManipulated && answers(0).result == ManipulateResult.Manipulated
    requires AllActions(answers, 1) == answers(0).actions && LastValidity(Valid, answers, 1) == Invalid
    requires multiset(Posted(output.delay, answers(0).actions)) == posted
    requires DelayAfter(output.delay, answers(0).actions) == delay
    ensures var r := Step(input, output, answers, 1, reorder);
            && r.again && r.input.events == input.events[1..] && r.output.delay == delay
            && multiset(r.output.events) == multiset(output.events) + posted
  {
    hide Step, OnlyAnnounced, Ignored, AllActions, LastValidity, Posted, DelayAfter;
    StepConserves(input, output, answers, 1, reorder);
  }

  lemma OneAnswer(answers: nat -> Answer)
    requires answers(0).newValidity == Some(Invalid)
    ensures AllActions(answers, 1) == answers(0).actions && LastValidity(Valid, answers, 1) == Invalid
  {
    assert AllActions(answers, 0) == [] && [] + answers(0).actions == answers(0).actions;
  }

  lemma PostsInTurn(delay: int, a: Entry, d: int, b: Entry, actions: seq<Action>)
    requires actions == [Post(a), IncreaseDelay(d), Post(b)]
    ensures multiset(Posted(delay, actions)) ==
            multiset{a.(timeStamp := a.timeStamp + delay), b.(timeStamp := b.timeStamp + delay + d)}
    ensures DelayAfter(delay, actions) == delay + d
  {
    var one, two := [Post(a)], [Post(a), IncreaseDelay(d)];
    assert one[..|one| - 1] == [] && two[..|two| - 1] == one && actions[..|actions| - 1] == two;
    assert DelayAfter(delay, one) == delay && DelayAfter(delay, two) == delay + d;
    assert Posted(delay, one) == [Delayed(a, delay)] && Posted(delay, two) == Posted(delay, one);
    assert Posted(delay, actions) == [Delayed(a, delay), Delayed(b, delay + d)];
  }

  // ----- What a step erases -----

  /** An entry that follows nothing itself: it is not forwarded, or carries no switch, flag or number. */
  predicate FollowsNothing(e: Entry) {
    e.validity == Invalid || e.event.value.OtherValue? || e.event.value.MotionValue?
  }

  /** Which counters and buttons of the output a step on an entry of a kind clears, without manipulators. */
  lemma StepErasesByKind(input: QueueState, output: QueueState, answers: nat -> Answer, reorder: bool, k: CounterKey)
    requires input.events != [] && FollowsNothing(input.events[0]) && Canonical(output.managers.flags)
    ensures var e := input.events[0];
            var r := Step(input, output, answers, 0, reorder).output.managers;
            Counter(r.flags, k) ==
            match e.event.kind
            case DeviceKeysAndPointingButtonsAreReleased =>
              if k.device == e.device && k.kind == Plain then 0 else Counter(output.managers.flags, k)
            case DeviceUngrabbed => if k.device == e.device then 0 else Counter(output.managers.flags, k)
            case _ => Counter(output.managers.flags, k)
    ensures var e := input.events[0];
            var r := Step(input, output, answers, 0, reorder).output.managers;
            match e.event.kind
            case DeviceKeysAndPointingButtonsAreReleased | DeviceUngrabbed =>
              forall b :: b in r.buttons <==> b in output.managers.buttons && b.device != e.device
            case _ => r.buttons == output.managers.buttons
  {
    var e := input.events[0];
    StepLeavesManagers(input, output, answers, reorder);
    ApplyRefines(output.managers.flags, EraseDevice(e.device), k);
    ApplyRefines(output.managers.flags, EraseDeviceExceptLockAndSticky(e.device), k);
    FilterKeeps(output.managers.buttons, NotOfDevice(e.device));
    hide Step, Counter, Canonical, Filter, Apply;
  }

  lemma StepLeavesManagers(input: QueueState, output: QueueState, answers: nat -> Answer, reorder: bool)
    requires input.events != [] && FollowsNothing(input.events[0])
    ensures Step(input, output, answers, 0, reorder).output.managers == EraseHeld(output.managers, input.events[0])
  {
    var e := input.events[0];
    var out := output.(managers := EraseHeld(output.managers, e));
    assert Consult(e.validity, out, answers, 0) == Verdict(false, e.validity, out);
    assert Announce(out, answers, 0) == out;
    assert Judge(e, output, answers, 0) == Verdict(false, e.validity, out);
    hide Judge, Consult, Announce, EraseHeld, Sort, Apply, Filter, Push;
  }

  /** The delay of the input survives a step unless the queue is empty then. */
  lemma StepKeepsInputDelay(input: QueueState, output: QueueState, answers: nat -> Answer, n: nat, reorder: bool)
    requires input.events != []
    ensures var r := Step(input, output, answers, n, reorder);
            r.input.delay == (if r.input.events == [] then 0 else input.delay) && r.input.managers == input.managers
  {
    hide Judge, Sort;
  }
}
