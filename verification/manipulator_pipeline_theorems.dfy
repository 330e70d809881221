/** What whole passes over a chain of stages do. */
module PipelineTheorems {
  import opened Types
  import opened Sequences
  import opened ActiveModifierFlags
  import opened ModifierFlagLists
  import opened EventQueueEntries
  import opened EventQueueSort
  import opened EventQueues
  import opened ManipulatorManagers
  import opened ManipulatorManagersConnectors

  // ----- Any manipulators -----

  ghost predicate NeverWaits(answers: StageAnswers) {
    forall i, j :: answers(i, j).result != NeedsWaitUntilTimeStamp
  }

  /** What a queue gains: entries that manipulators posted, and entries that were forwarded. */
  datatype Gains = Gains(posted: seq<Entry>, forwarded: seq<Entry>)

  /** What the output of a stage gains from `events`, as far as the first entry that has to wait. */
  ghost function GainsOf(events: seq<Entry>, delay: int, answers: StageAnswers, step: nat, n: nat): Gains {
    if events == [] then Gains([], [])
    else
      var e, at := events[0], AnswersAt(answers, step);
      var posted := Posted(delay, ActionsOn(e, at, n));
      if Waits(e, at, n) then Gains(posted, [])
      else
        var rest := GainsOf(events[1..], DelayAfter(delay, ActionsOn(e, at, n)), answers, step + 1, n);
        Gains(posted + rest.posted, Forwarded(e, delay, at, n) + rest.forwarded)
  }

  /**
   Draining takes one entry a step, adds to the output exactly what was posted
   and what was forwarded, and empties the input if no manipulator waits.
   */
  lemma {:induction false} DrainConserves(
      input: QueueState, output: QueueState, answers: StageAnswers, step: nat, n: nat, reorder: bool)
    ensures var d := Drain(input, output, answers, step, n, reorder);
            var g := GainsOf(input.events, output.delay, answers, step, n);
            && |d.input.events| + (d.steps - step) == |input.events|
            && multiset(d.output.events) == multiset(output.events) + multiset(g.posted) + multiset(g.forwarded)
            && (NeverWaits(answers) ==> d.input.events == [])
    decreases |input.events|
  {
    hide Step, Posted, DelayAfter, ActionsOn, Waits, ValidityAfter, NeverWaits, AnswersAt;
    if input.events != [] {
      var at := AnswersAt(answers, step);
      var r := Step(input, output, at, n, reorder);
      StepConserves(input, output, at, n, reorder);
      if NeverWaits(answers) {
        NobodyWaits(answers, step, input.events[0], n);
      }
      if r.again {
        DrainConserves(r.input, r.output, answers, step + 1, n, reorder);
      }
    }
  }

  lemma NobodyWaits(answers: StageAnswers, step: nat, e: Entry, n: nat)
    requires NeverWaits(answers)
    ensures !Waits(e, AnswersAt(answers, step), n)
  {
  }

  /** A pass in which nobody waits leaves every queue but the last empty. */
  lemma {:induction false} PassEmpties(qs: seq<QueueState>, counts: seq<nat>, answers: PassAnswers, k: nat,
      reorder: bool)
    requires |qs| == |counts| + 1 && k <= |counts|
    requires forall stage :: 0 <= stage < k ==> NeverWaits(AnswersOf(answers, stage))
    ensures forall i :: 0 <= i < k ==> Pass(qs, counts, answers, k, reorder)[i].events == []
  {
    hide Drain, GainsOf, NeverWaits;
    if k > 0 {
      PassEmpties(qs, counts, answers, k - 1, reorder);
      var p := Pass(qs, counts, answers, k - 1, reorder);
      DrainConserves(p[k - 1], p[k], AnswersOf(answers, k - 1), 0, counts[k - 1], reorder);
    }
  }

  // ----- Manipulators that do nothing -----

  ghost predicate Quiet(answers: StageAnswers) {
    forall i, j :: answers(i, j) == NO_ANSWER
  }

  lemma {:induction false} ConsultQuiet(v: Validity, output: QueueState, answers: nat -> Answer, n: nat)
    requires forall j :: answers(j) == NO_ANSWER
    ensures Consult(v, output, answers, n) == Verdict(false, v, output)
    ensures Announce(output, answers, n) == output
  {
    if n > 0 {
      ConsultQuiet(v, output, answers, n - 1);
    }
  }

  function StageUpdate(st: Managers, e: Entry): Managers {
    if e.validity == Valid then Update(EraseHeld(st, e), e) else EraseHeld(st, e)
  }

  /** What the entries of an input queue do to the managers of the output queue. */
  function StageReplay(st: Managers, s: seq<Entry>): Managers {
    if s == [] then st else StageUpdate(StageReplay(st, s[..|s| - 1]), s[|s| - 1])
  }

  function Valids(): Entry -> bool {
    (e: Entry) => e.validity == Valid
  }

  function Reordered(s: seq<Entry>, reorder: bool): seq<Entry> {
    if reorder then Sort(s) else s
  }

  lemma StageReplaySnoc(st: Managers, s: seq<Entry>, e: Entry)
    ensures StageReplay(st, s + [e]) == StageUpdate(StageReplay(st, s), e)
  {
    assert (s + [e])[..|s + [e]| - 1] == s;
  }

  lemma {:induction false} StageReplayCons(st: Managers, e: Entry, s: seq<Entry>)
    ensures StageReplay(st, [e] + s) == StageReplay(StageUpdate(st, e), s)
  {
    if s == [] {
      StageReplaySnoc(st, [], e);
      assert [e] + s == [] + [e];
    } else {
      var t, x := s[..|s| - 1], s[|s| - 1];
      StageReplayCons(st, e, t);
      StageReplaySnoc(st, [e] + t, x);
      StageReplaySnoc(StageUpdate(st, e), t, x);
      assert [e] + s == ([e] + t) + [x] && s == t + [x];
    }
  }

  lemma StepQuiet(input: QueueState, output: QueueState, answers: nat -> Answer, n: nat, reorder: bool)
    requires input.events != [] && output.delay == 0 && forall j :: answers(j) == NO_ANSWER
    ensures var r := Step(input, output, answers, n, reorder);
            var e := input.events[0];
            && r.again && r.input.events == input.events[1..]
            && r.output.delay == 0 && r.output.managers == StageUpdate(output.managers, e)
            && r.output.events == Reordered(if e.validity == Valid then output.events + [e] else output.events, reorder)
  {
    var e := input.events[0];
    var out := output.(managers := EraseHeld(output.managers, e));
    ConsultQuiet(e.validity, out, answers, n);
    assert e.(validity := e.validity) == e && Delayed(e, 0) == e;
  }

  lemma {:induction false} DrainQuiet(
      input: QueueState, output: QueueState, answers: StageAnswers, step: nat, n: nat, reorder: bool)
    requires Quiet(answers) && output.delay == 0 && (reorder ==> Stable(output.events))
    ensures var d := Drain(input, output, answers, step, n, reorder);
            && d.input.events == [] && d.output.delay == 0
            && d.output.events == Reordered(output.events + Filter(input.events, Valids()), reorder)
            && d.output.managers == StageReplay(output.managers, input.events)
    decreases |input.events|
  {
    if input.events == [] {
      assert output.events + [] == output.events;
      if reorder {
        StableIsFixed(output.events);
      }
    } else {
      var e, rest := input.events[0], input.events[1..];
      var r := Step(input, output, AnswersAt(answers, step), n, reorder);
      StepQuiet(input, output, AnswersAt(answers, step), n, reorder);
      hide Step, Filter, Sort, StageReplay, Stable;
      if reorder {
        SortStable(if e.validity == Valid then output.events + [e] else output.events);
      }
      DrainQuiet(r.input, r.output, answers, step + 1, n, reorder);
      assert input.events == [e] + rest;
      StageReplayCons(output.managers, e, rest);
      NextForwarded(output.events, e, rest, reorder);
    }
  }

  /** Sorting before the next entry arrives makes no difference to the end. */
  lemma NextForwarded(out: seq<Entry>, e: Entry, rest: seq<Entry>, reorder: bool)
    ensures var next := Reordered(if e.validity == Valid then out + [e] else out, reorder);
            Reordered(next + Filter(rest, Valids()), reorder) == Reordered(out + Filter([e] + rest, Valids()), reorder)
  {
    hide Filter, Sort;
    var now := if e.validity == Valid then out + [e] else out;
    FilterAppend([e], rest, Valids());
    FilterOne(e, Valids());
    var later := Filter(rest, Valids());
    assert out + Filter([e] + rest, Valids()) == now + later by {
      assert out + ([e] + later) == (out + [e]) + later;
      assert [] + later == later;
    }
    if reorder {
      SortIdempotent(now);
      SortAppendCong(Sort(now), now, later);
    }
  }

  lemma {:induction false} FilterAll<T>(s: seq<T>, keep: T -> bool)
    requires forall x :: x in s ==> keep(x)
    ensures Filter(s, keep) == s
  {
    if s != [] {
      FilterAll(s[..|s| - 1], keep);
    }
  }

  lemma ValidsOfReordered(s: seq<Entry>, reorder: bool)
    ensures Filter(Reordered(Filter(s, Valids()), reorder), Valids()) == Reordered(Filter(s, Valids()), reorder)
  {
    var v := Filter(s, Valids());
    FilterKeeps(s, Valids());
    SortKeeps(v);
    forall e | e in Reordered(v, reorder) ensures Valids()(e) {
      assert e in multiset(Reordered(v, reorder));
      assert e in multiset(v);
      assert e in v;
    }
    FilterAll(Reordered(v, reorder), Valids());
  }

  /** Fresh queues behind the first one. */
  ghost predicate Empty(qs: seq<QueueState>) {
    forall i :: 1 <= i < |qs| ==> qs[i].events == [] && qs[i].delay == 0
  }

  /** The managers of queue `k` once `k` quiet stages have run. */
  function ManagersAfter(qs: seq<QueueState>, k: nat, reorder: bool): Managers
    requires 1 <= k < |qs|
  {
    var v := Filter(qs[0].events, Valids());
    StageReplay(qs[k].managers, if k == 1 then qs[0].events else Reordered(v, reorder))
  }

  /** The queues once `k` quiet stages have run. */
  ghost predicate AfterQuiet(qs: seq<QueueState>, p: seq<QueueState>, k: nat, reorder: bool)
    requires 1 <= k < |qs|
  {
    && |p| == |qs|
    && (forall i :: 0 <= i < k ==> p[i].events == [])
    && (forall i :: k < i < |qs| ==> p[i] == qs[i])
    && p[k].events == Reordered(Filter(qs[0].events, Valids()), reorder) && p[k].delay == 0
    && (forall i :: 1 <= i <= k ==> p[i].managers == ManagersAfter(qs, i, reorder))
    && p[0].managers == qs[0].managers
  }

  lemma QuietStep(qs: seq<QueueState>, p: seq<QueueState>, k: nat, reorder: bool, input: QueueState, output: QueueState)
    requires 2 <= k < |qs| && Empty(qs) && AfterQuiet(qs, p, k - 1, reorder)
    requires input.events == [] && input.managers == p[k - 1].managers
    requires output.events == Reordered(Filter(p[k - 1].events, Valids()), reorder) && output.delay == 0
    requires output.managers == StageReplay(p[k].managers, p[k - 1].events)
    ensures AfterQuiet(qs, p[k - 1 := input][k := output], k, reorder)
  {
    hide Filter, Sort, StageReplay;
    var v := Filter(qs[0].events, Valids());
    ValidsOfReordered(qs[0].events, reorder);
    SortIdempotent(v);
    assert p[k] == qs[k];
  }

  /**
   A chain of any length whose manipulators do nothing, with reordering after
   every forwarded entry, ends with exactly one sort of the valid input
   entries in the last queue, and nothing in the others.
   */
  lemma {:induction false} QuietChain(qs: seq<QueueState>, counts: seq<nat>, answers: PassAnswers, k: nat,
      reorder: bool)
    requires |qs| == |counts| + 1 && 1 <= k <= |counts| && Empty(qs)
    requires forall stage :: 0 <= stage < k ==> Quiet(AnswersOf(answers, stage))
    ensures AfterQuiet(qs, Pass(qs, counts, answers, k, reorder), k, reorder)
  {
    hide Filter, Sort, StageReplay, Drain, AnswersOf;
    var p := Pass(qs, counts, answers, k - 1, reorder);
    if k == 1 {
      QuietStage(qs[0], qs[1], AnswersOf(answers, 0), counts[0], reorder);
    } else {
      QuietChain(qs, counts, answers, k - 1, reorder);
      var d := Drain(p[k - 1], p[k], AnswersOf(answers, k - 1), 0, counts[k - 1], reorder);
      QuietStage(p[k - 1], p[k], AnswersOf(answers, k - 1), counts[k - 1], reorder);
      QuietStep(qs, p, k, reorder, d.input, d.output);
    }
  }

  lemma QuietStage(input: QueueState, output: QueueState, answers: StageAnswers, n: nat, reorder: bool)
    requires Quiet(answers) && output.delay == 0 && output.events == []
    ensures var d := Drain(input, output, answers, 0, n, reorder);
            && d.input.events == [] && d.output.delay == 0
            && d.output.events == Reordered(Filter(input.events, Valids()), reorder)
            && d.output.managers == StageReplay(output.managers, input.events)
            && d.input.managers == input.managers
  {
    DrainQuiet(input, output, answers, 0, n, reorder);
    DrainInputManagers(input, output, answers, 0, n, reorder);
    assert [] + Filter(input.events, Valids()) == Filter(input.events, Valids());
  }

  /** A stage never touches the managers of its input queue. */
  lemma {:induction false} DrainInputManagers(
      input: QueueState, output: QueueState, answers: StageAnswers, step: nat, n: nat, reorder: bool)
    ensures Drain(input, output, answers, step, n, reorder).input.managers == input.managers
    decreases |input.events|
  {
    if input.events != [] {
      var r := Step(input, output, AnswersAt(answers, step), n, reorder);
      if r.again {
        DrainInputManagers(r.input, r.output, answers, step + 1, n, reorder);
      }
    }
  }

  // ----- Reordering is invisible to the managers of the whole chain -----

  /** The kinds of event on which a stage erases held flags and buttons. */
  predicate Erases(kind: EventKind) {
    kind == DeviceKeysAndPointingButtonsAreReleased || kind == DeviceUngrabbed
  }

  /** No valid entry carries a switch under one of these kinds; only an event read from JSON can. */
  ghost predicate NoErasingSwitch(s: seq<Entry>) {
    forall e :: e in s && e.event.IsSwitch() && e.validity == Valid ==> !Erases(e.event.kind)
  }

  lemma StageUpdateCanonical(st: Managers, e: Entry)
    requires Canonical(st.flags)
    ensures Canonical(StageUpdate(st, e).flags)
  {
    FilterCanonical(st.flags, Surviving(EraseDevice(e.device)));
    FilterCanonical(st.flags, Surviving(EraseDeviceExceptLockAndSticky(e.device)));
    UpdateCanonical(EraseHeld(st, e).flags, e);
  }

  lemma {:induction false} StageReplayCanonical(st: Managers, s: seq<Entry>)
    requires Canonical(st.flags)
    ensures Canonical(StageReplay(st, s).flags)
  {
    if s != [] {
      StageReplayCanonical(st, s[..|s| - 1]);
      StageUpdateCanonical(StageReplay(st, s[..|s| - 1]), s[|s| - 1]);
    }
  }

  lemma StageSwapCommutes(st: Managers, a: Entry, b: Entry)
    requires Canonical(st.flags) && NeedsSwap(a, b)
    requires a.validity == b.validity == Valid && !Erases(a.event.kind) && !Erases(b.event.kind)
    ensures StageUpdate(StageUpdate(st, a), b) == StageUpdate(StageUpdate(st, b), a)
  {
    NeededSwapCommutes(st, a, b);
  }

  lemma {:induction false} StageReplayCong(st: Managers, s: seq<Entry>, t: seq<Entry>, rest: seq<Entry>)
    requires StageReplay(st, s) == StageReplay(st, t)
    ensures StageReplay(st, s + rest) == StageReplay(st, t + rest)
  {
    if rest == [] {
      assert s + rest == s && t + rest == t;
    } else {
      var front, e := rest[..|rest| - 1], rest[|rest| - 1];
      assert rest == front + [e];
      hide *;
      StageReplayCong(st, s, t, front);
      AppendAssoc(s, front, e);
      AppendAssoc(t, front, e);
      StageReplaySnoc(st, s + front, e);
      StageReplaySnoc(st, t + front, e);
    }
  }

  ghost predicate AllValid(s: seq<Entry>) {
    forall e :: e in s ==> e.validity == Valid
  }

  lemma SwapKeepsStageReplay(st: Managers, s: seq<Entry>, i: nat)
    requires Canonical(st.flags) && AllValid(s) && NoErasingSwitch(s) && i + 1 < |s| && NeedsSwap(s[i], s[i + 1])
    ensures StageReplay(st, SwapAt(s, i)) == StageReplay(st, s)
  {
    var q, a, b, rest := s[..i], s[i], s[i + 1], s[i + 2..];
    SwapAtSplit(s, i);
    NeedsSwapShape(a, b);
    assert a in s && b in s;
    hide StageReplay, StageUpdate, SwapAt, Canonical;
    StageReplaySnoc(st, q + [a], b);
    StageReplaySnoc(st, q, a);
    StageReplaySnoc(st, q + [b], a);
    StageReplaySnoc(st, q, b);
    StageReplayCanonical(st, q);
    StageSwapCommutes(StageReplay(st, q), a, b);
    StageReplayCong(st, q + [a] + [b], q + [b] + [a], rest);
  }

  lemma {:induction false} SwapsKeepStageReplay(st: Managers, s: seq<Entry>, path: seq<nat>)
    requires Canonical(st.flags) && AllValid(s) && NoErasingSwitch(s) && NeededSwaps(s, path)
    ensures StageReplay(st, RunSwaps(s, path)) == StageReplay(st, s)
    decreases |path|
  {
    if path != [] {
      var t := SwapAt(s, path[0]);
      SwapKeepsStageReplay(st, s, path[0]);
      assert forall e :: e in t ==> e in s;
      SwapsKeepStageReplay(st, t, path[1..]);
    }
  }

  lemma SameManagers(qs: seq<QueueState>, i: nat)
    requires 1 <= i < |qs| && NoErasingSwitch(qs[0].events) && Canonical(qs[i].managers.flags)
    ensures ManagersAfter(qs, i, true) == ManagersAfter(qs, i, false)
  {
    hide Filter, Sort, StageReplay, Canonical;
    var v := Filter(qs[0].events, Valids());
    FilterKeeps(qs[0].events, Valids());
    var path := SortPath(v);
    SwapsKeepStageReplay(qs[i].managers, v, path);
  }

  /**
   Turning reordering on changes the order of entries, but not the modifier and
   button state that any queue of the chain ends in.
   */
  lemma ReorderingIsInvisibleToManagers(
      qs: seq<QueueState>, counts: seq<nat>, answers: PassAnswers, k: nat, i: nat)
    requires |qs| == |counts| + 1 && 1 <= k <= |counts| && i <= k && Empty(qs)
    requires forall stage :: 0 <= stage < k ==> Quiet(AnswersOf(answers, stage))
    requires NoErasingSwitch(qs[0].events) && forall j :: 0 <= j < |qs| ==> Canonical(qs[j].managers.flags)
    ensures Pass(qs, counts, answers, k, true)[i].managers == Pass(qs, counts, answers, k, false)[i].managers
  {
    hide Pass, ManagersAfter, Quiet, AnswersOf;
    QuietChain(qs, counts, answers, k, true);
    QuietChain(qs, counts, answers, k, false);
    if i >= 1 {
      SameManagers(qs, i);
    }
  }

  predicate IsUngrabbingKey(e: Entry) {
    && e.event == Event(DeviceUngrabbed, SwitchValue(Switch(KEYBOARD_OR_KEYPAD, 0x04)))
    && e.device == 1 && e.eventType == KeyDown && e.validity == Valid
  }

  predicate IsShiftPress(e: Entry) {
    && e.event == Event(MomentarySwitchEvent, SwitchValue(Switch(KEYBOARD_OR_KEYPAD, 0xe1)))
    && e.device == 1 && e.eventType == KeyDown && e.validity == Valid
  }

  const SHIFT := ActiveFlag(Increase, LeftShift, 1)

  lemma UngrabbingKeyErases(st: Managers, key: Entry)
    requires IsUngrabbingKey(key) && (st.flags == [] || st.flags == [SHIFT])
    ensures StageUpdate(st, key).flags == []
  {
    FilterOne(SHIFT, Surviving(EraseDevice(1)));
    assert Apply(st.flags, EraseDevice(1)) == [];
    assert Apply([], EraseSticky) == [];
    hide Filter, Push;
  }

  lemma ShiftPressAdds(st: Managers, press: Entry)
    requires IsShiftPress(press) && st.flags == []
    ensures StageUpdate(st, press).flags == [SHIFT]
  {
    PushIsCancel([], SHIFT);
    assert Push([], SHIFT) == [SHIFT];
    hide Push;
  }

  lemma KeyBeforePress(key: Entry, press: Entry)
    requires IsUngrabbingKey(key) && IsShiftPress(press) && key.timeStamp == press.timeStamp
    ensures NeedsSwap(key, press)
  {
  }

  /** A key under an erasing kind, and a press of the same device that reordering moves ahead of it. */
  lemma ErasingSwitchIsSeen(key: Entry, press: Entry)
    requires IsUngrabbingKey(key) && IsShiftPress(press) && key.timeStamp == press.timeStamp
    ensures StageReplay(Managers([], []), [key, press]).flags == [SHIFT]
    ensures StageReplay(Managers([], []), Sort([key, press])).flags == []
  {
    var start := Managers([], []);
    KeyBeforePress(key, press);
    hide StageReplay, StageUpdate, Sort, NeedsSwap, IsUngrabbingKey, IsShiftPress;
    PairReplay(start, key, press);
    PairReplay(start, press, key);
    SortPair(key, press);
    UngrabbingKeyErases(start, key);
    ShiftPressAdds(start, press);
    ShiftPressAdds(StageUpdate(start, key), press);
    UngrabbingKeyErases(StageUpdate(start, press), key);
  }

  lemma PairReplay(st: Managers, a: Entry, b: Entry)
    ensures StageReplay(st, [a, b]) == StageUpdate(StageUpdate(st, a), b)
  {
    var one := [a];
    assert [a, b] == one + [b] && one == [] + [a];
    hide StageUpdate;
    StageReplaySnoc(st, one, b);
    StageReplaySnoc(st, [], a);
  }

  lemma SortPair(a: Entry, b: Entry)
    requires NeedsSwap(a, b)
    ensures Sort([a, b]) == [b, a]
  {
    var one := [a];
    assert [a, b] == one + [b] && one == [] + [a];
    SortSnoc(one, b);
    SortSnoc([], a);
    InsertSnoc([], a, b);
    assert Insert([], b) == [b];
    hide Sort, Insert;
    assert [b] + [a] == [b, a];
  }
}
