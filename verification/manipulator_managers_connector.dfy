/** A chain of stages, each draining its input queue into the input of the next. */
module ManipulatorManagersConnectors {
  import opened Types
  import opened EventQueues
  import opened ManipulatorManagers

  /** What the manipulators of one stage answer: by step, then by manipulator. */
  type StageAnswers = (nat, nat) -> Answer

  /** The same for a whole pass: by stage first. */
  type PassAnswers = (nat, nat, nat) -> Answer

  function AnswersAt(answers: StageAnswers, step: nat): nat -> Answer {
    (j: nat) => answers(step, j)
  }

  function AnswersOf(answers: PassAnswers, stage: nat): StageAnswers {
    (step: nat, j: nat) => answers(stage, step, j)
  }

  datatype Drained = Drained(input: QueueState, output: QueueState, steps: nat)

  /** Stepping until the stage says that it need not be called again. */
  function Drain(
      input: QueueState, output: QueueState, answers: StageAnswers, step: nat, n: nat, reorder: bool): Drained
    decreases |input.events|
  {
    if input.events == [] then Drained(input, output, step)
    else
      var r := Step(input, output, AnswersAt(answers, step), n, reorder);
      if r.again then Drain(r.input, r.output, answers, step + 1, n, reorder) else Drained(r.input, r.output, step)
  }

  /** Stages 0 to `k - 1`, in turn, on the queues of the chain. */
  function Pass(qs: seq<QueueState>, counts: seq<nat>, answers: PassAnswers, k: nat, reorder: bool)
    : (r: seq<QueueState>)
    requires |qs| == |counts| + 1 && k <= |counts|
    ensures |r| == |qs|
  {
    if k == 0 then qs
    else
      var p := Pass(qs, counts, answers, k - 1, reorder);
      var d := Drain(p[k - 1], p[k], AnswersOf(answers, k - 1), 0, counts[k - 1], reorder);
      p[k - 1 := d.input][k := d.output]
  }

  datatype Connection = Connection(manager: ManipulatorManager, input: Queue, output: Queue)
  {
    ghost predicate Valid()
      reads input, input.flags, output, output.flags
    {
      input.Valid() && output.Valid() && input.Repr() !! output.Repr()
    }

    /** The `while (true)` loop; it ends because every true step shortens the input. */
    method Manipulate(answers: StageAnswers, reorder: bool)
      requires Valid()
      modifies manager, input, output.Repr()
      ensures Valid()
      ensures var n := |old(manager.manipulators)|;
              var d := Drain(old(Snapshot(input)), old(Snapshot(output)), answers, 0, n, reorder);
              Snapshot(input) == d.input && Snapshot(output) == d.output
    {
      var step: nat := 0;
      ghost var n := |manager.manipulators|;
      ghost var goal := Drain(Snapshot(input), Snapshot(output), answers, 0, n, reorder);
      while true
        invariant Valid() && |manager.manipulators| == n
        invariant Drain(Snapshot(input), Snapshot(output), answers, step, n, reorder) == goal
        decreases |input.events|
      {
        var processed := manager.Manipulate(input, output, AnswersAt(answers, step), reorder);
        if !processed {
          break;
        }
        step := step + 1;
      }
    }
  }

  datatype Result = Ok | RuntimeError

  /** Two queues share no object. */
  predicate Apart(p: Queue, q: Queue) {
    p != q && p.flags != q.flags && p.buttons != q.buttons
  }

  /** The connections form a chain over the queues `qs`, and nothing serves twice. */
  ghost predicate Chain(cs: seq<Connection>, qs: seq<Queue>) {
    && |qs| == |cs| + 1
    && (forall i :: 0 <= i < |cs| ==> cs[i].input == qs[i] && cs[i].output == qs[i + 1])
    && (forall i, j :: 0 <= i < j < |qs| ==> Apart(qs[i], qs[j]))
    && (forall i, j :: 0 <= i < j < |cs| ==> cs[i].manager != cs[j].manager)
  }

  ghost predicate InState(qs: seq<Queue>, states: seq<QueueState>)
    reads set q | q in qs :: q, set q | q in qs :: q.flags, set q | q in qs :: q.buttons
  {
    |qs| == |states| && forall i :: 0 <= i < |qs| ==> qs[i].Valid() && Snapshot(qs[i]) == states[i]
  }

  /** The objects of the chain that are queues or parts of them. */
  ghost function QueueObjects(qs: seq<Queue>): set<object> {
    set q, o | q in qs && o in q.Repr() :: o
  }

  lemma StageObjects(cs: seq<Connection>, qs: seq<Queue>, k: nat)
    requires Chain(cs, qs) && k < |cs|
    ensures cs[k].manager in (set c | c in cs :: c.manager)
    ensures cs[k].input in QueueObjects(qs) && cs[k].output.Repr() <= QueueObjects(qs)
  {
    assert cs[k] in cs && qs[k] in qs && qs[k + 1] in qs;
    assert qs[k] in qs[k].Repr();
  }

  lemma ChainLengths(cs: seq<Connection>, qs: seq<Queue>, states: seq<QueueState>)
    requires Chain(cs, qs) && InState(qs, states)
    ensures |qs| == |cs| + 1 == |states|
  {
  }

  lemma PassStarts(qs: seq<QueueState>, counts: seq<nat>, answers: PassAnswers, reorder: bool)
    requires |qs| == |counts| + 1
    ensures Pass(qs, counts, answers, 0, reorder) == qs
  {
  }

  lemma PassGoesOn(qs: seq<QueueState>, counts: seq<nat>, answers: PassAnswers, k: nat, reorder: bool)
    requires |qs| == |counts| + 1 && k < |counts|
    ensures var p := Pass(qs, counts, answers, k, reorder);
            var d := Drain(p[k], p[k + 1], AnswersOf(answers, k), 0, counts[k], reorder);
            Pass(qs, counts, answers, k + 1, reorder) == p[k := d.input][k + 1 := d.output]
  {
    hide Drain;
  }

  /** The loop over the connections of a chain. */
  method RunPass(
      cs: seq<Connection>, answers: PassAnswers, reorder: bool,
      ghost qs: seq<Queue>, ghost before: seq<QueueState>, ghost counts: seq<nat>)
    requires Chain(cs, qs) && InState(qs, before)
    requires |counts| == |cs| && forall i :: 0 <= i < |cs| ==> counts[i] == |cs[i].manager.manipulators|
    modifies set c | c in cs :: c.manager
    modifies QueueObjects(qs)
    ensures InState(qs, Pass(before, counts, answers, |cs|, reorder))
  {
    ChainLengths(cs, qs, before);
    PassStarts(before, counts, answers, reorder);
    hide Chain, Drain, InState, QueueObjects, Pass;
    for k := 0 to |cs|
      invariant InState(qs, Pass(before, counts, answers, k, reorder))
      invariant forall i :: k <= i < |cs| ==> counts[i] == |cs[i].manager.manipulators|
    {
      StageObjects(cs, qs, k);
      PassGoesOn(before, counts, answers, k, reorder);
      RunStage(cs, k, AnswersOf(answers, k), reorder, qs, Pass(before, counts, answers, k, reorder));
    }
  }

  method RunStage(
      cs: seq<Connection>, k: nat, answers: StageAnswers, reorder: bool, ghost qs: seq<Queue>, ghost p: seq<QueueState>)
    requires Chain(cs, qs) && InState(qs, p) && k < |cs|
    modifies cs[k].manager, cs[k].input, cs[k].output.Repr()
    ensures var d := Drain(p[k], p[k + 1], answers, 0, |old(cs[k].manager.manipulators)|, reorder);
            InState(qs, p[k := d.input][k + 1 := d.output])
    ensures forall i :: 0 <= i < |cs| && i != k ==> cs[i].manager.manipulators == old(cs[i].manager.manipulators)
  {
    hide Drain;
    var c := cs[k];
    assert Apart(qs[k], qs[k + 1]);
    assert c.input == qs[k] && c.output == qs[k + 1];
    c.Manipulate(answers, reorder);
    forall i | 0 <= i < |cs| && i != k ensures cs[i].manager.manipulators == old(cs[i].manager.manipulators) {
      assert cs[Min(i, k)].manager != cs[Max(i, k)].manager;
    }
    forall i | 0 <= i < |qs| && i != k && i != k + 1 ensures qs[i].Valid() && Snapshot(qs[i]) == p[i] {
      assert Apart(qs[Min(i, k)], qs[Max(i, k)]) && Apart(qs[Min(i, k + 1)], qs[Max(i, k + 1)]);
    }
  }

  class Connector {
    var connections: seq<Connection>

    constructor ()
      ensures connections == []
    {
      connections := [];
    }

    method EmplaceBackConnection(manager: ManipulatorManager, input: Queue, output: Queue)
      modifies this
      ensures connections == old(connections) + [Connection(manager, input, output)]
    {
      connections := connections + [Connection(manager, input, output)];
    }

    /** The new stage reads what the last one writes; there must be a last one. */
    method EmplaceBackChained(manager: ManipulatorManager, output: Queue, ghost qs: seq<Queue>) returns (r: Result)
      modifies this
      ensures r == if old(connections) == [] then RuntimeError else Ok
      ensures r == RuntimeError ==> connections == old(connections)
      ensures r == Ok ==>
                connections == old(connections) +
                  [Connection(manager, old(connections)[|old(connections)| - 1].output, output)]
      ensures r == Ok && Chain(old(connections), qs)
              && (forall c :: c in old(connections) ==> c.manager != manager)
              && (forall q :: q in qs ==> Apart(q, output))
              ==> Chain(connections, qs + [output])
    {
      if connections == [] {
        return RuntimeError;
      }
      connections := connections + [Connection(manager, connections[|connections| - 1].output, output)];
      r := Ok;
    }

    /** One pass; the queues, their state and the manipulator counts only name where it starts. */
    method Manipulate(
        answers: PassAnswers, reorder: bool, ghost qs: seq<Queue>, ghost before: seq<QueueState>,
        ghost counts: seq<nat>)
      requires Chain(connections, qs) && InState(qs, before)
      requires |counts| == |connections|
      requires forall i :: 0 <= i < |counts| ==> counts[i] == |connections[i].manager.manipulators|
      modifies set c | c in connections :: c.manager
      modifies QueueObjects(qs)
      ensures InState(qs, Pass(before, counts, answers, |counts|, reorder))
    {
      RunPass(connections, answers, reorder, qs, before, counts);
    }
  }
}
