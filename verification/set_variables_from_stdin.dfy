/**
 Delivery of variables read from stdin. The stdin thread appends to a queue;
 the dispatcher thread sends the front of the queue, retries it after errors,
 and pops it when it is acknowledged. The objects here hold the real fields;
 their methods are proved against steps on values.
 */
module SetVariablesFromStdin {
  import opened Types

  /** A queued JSON object, or the reserved null that marks the end of the input. */
  datatype Pending = Variables(json: string) | EndOfInput

  /** The fields of the runner and of the components manager. */
  datatype Core = Core(
    pending: seq<Pending>,
    notices: nat,
    request: Option<string>,
    inFlight: bool,
    failed: bool,
    connected: bool)

  /** Where the dispatcher stands between the locked calls of one task. */
  datatype Pc = Idle | BeforeCompletion | BeforeFetch

  datatype Outcome = Outcome(core: Core, pc: Pc, sent: Option<string>)

  predicate AtEnd(pending: seq<Pending>) {
    pending != [] && pending[|pending| - 1] == EndOfInput
  }

  /** Dropping everything that is left, and telling the waiting thread. */
  function AbortAll(c: Core): Core {
    c.(pending := [], notices := c.notices + 1, request := None)
  }

  function Send(c: Core): Outcome
    requires c.request.Some?
  {
    Outcome(c.(inFlight := true), Idle, c.request)
  }

  /** The pending task up to its second locked call. */
  function StartTask(c: Core): Outcome {
    if c.failed && AtEnd(c.pending) then Outcome(AbortAll(c).(failed := false), Idle, None)
    else if !c.connected || c.inFlight then Outcome(c, Idle, None)
    else if c.request.None? then Outcome(c, BeforeCompletion, None)
    else Send(c)
  }

  function CheckCompletion(c: Core): Outcome {
    if c.pending != [] && c.pending[0] == EndOfInput
    then Outcome(c.(pending := c.pending[1..], notices := c.notices + 1), Idle, None)
    else Outcome(c, BeforeFetch, None)
  }

  function Front(pending: seq<Pending>): Option<string> {
    if pending == [] || pending[0] == EndOfInput then None else Some(pending[0].json)
  }

  function Fetch(c: Core): Outcome {
    var c' := c.(request := Front(c.pending), failed := false);
    if c'.request.None? then Outcome(c', Idle, None) else Send(c')
  }

  /** The whole task, if the stdin thread stays away meanwhile. */
  function ProcessTask(c: Core): Outcome {
    var o := StartTask(c);
    if o.pc == Idle then o
    else
      var p := CheckCompletion(o.core);
      if p.pc == Idle then p else Fetch(p.core)
  }

  function PopFront(c: Core): Core {
    if c.pending == [] then c else c.(pending := c.pending[1..])
  }

  /** The completion handler of a manager that is still alive. */
  function HandleReply(c: Core, error: bool): Core {
    if !error then PopFront(c).(inFlight := false, request := None, failed := false)
    else
      var c' := c.(inFlight := false, failed := true);
      if AtEnd(c.pending) then AbortAll(c') else c'
  }

  // ----- The objects -----

  /** Every method is one critical section of the runner's mutex. */
  class Runner {
    var pending: seq<Pending>
    var notices: nat

    constructor ()
      ensures pending == [] && notices == 0
    {
      pending, notices := [], 0;
    }

    method GetPendingVariables() returns (v: Option<string>)
      ensures v == Front(pending)
    {
      if pending == [] || pending[0] == EndOfInput {
        return None;
      }
      return Some(pending[0].json);
    }

    method AddPendingVariables(json: string)
      modifies this
      ensures pending == old(pending) + [Variables(json)] && notices == old(notices)
    {
      pending := pending + [Variables(json)];
    }

    method EnqueueInputCompletion()
      modifies this
      ensures pending == old(pending) + [EndOfInput] && notices == old(notices)
    {
      pending := pending + [EndOfInput];
    }

    method CompletePendingVariables()
      modifies this
      ensures pending == (if old(pending) == [] then [] else old(pending)[1..]) && notices == old(notices)
    {
      if pending != [] {
        pending := pending[1..];
      }
    }

    method CompleteInputIfFront() returns (completed: bool)
      modifies this
      ensures completed <==> old(pending) != [] && old(pending)[0] == EndOfInput
      ensures pending == (if completed then old(pending)[1..] else old(pending))
      ensures notices == old(notices) + if completed then 1 else 0
    {
      completed := false;
      if pending != [] && pending[0] == EndOfInput {
        pending := pending[1..];
        completed := true;
      }
      if completed {
        notices := notices + 1;
      }
    }

    method AbortPendingVariablesIfInputComplete() returns (completed: bool)
      modifies this
      ensures completed <==> AtEnd(old(pending))
      ensures pending == (if completed then [] else old(pending))
      ensures notices == old(notices) + if completed then 1 else 0
    {
      completed := false;
      if pending != [] && pending[|pending| - 1] == EndOfInput {
        pending := [];
        completed := true;
      }
      if completed {
        notices := notices + 1;
      }
    }
  }

  class ComponentsManager {
    const runner: Runner
    var request: Option<string>
    var inFlight: bool
    var failed: bool
    var connected: bool

    ghost function View(): Core
      reads this, runner
    {
      Core(runner.pending, runner.notices, request, inFlight, failed, connected)
    }

    constructor (runner: Runner)
      ensures this.runner == runner
      ensures View() == Core(runner.pending, runner.notices, None, false, false, false)
    {
      this.runner := runner;
      request, inFlight, failed, connected := None, false, false, false;
    }

    method OnConnected()
      modifies this
      ensures View() == old(View()).(connected := true)
    {
      connected := true;
    }

    /** A connect failure and a closed connection are handled alike. */
    method OnDisconnected()
      modifies this
      ensures View() == old(View()).(connected := false, failed := true)
    {
      connected := false;
      failed := true;
    }

    method ProcessPendingTask() returns (sent: Option<string>)
      modifies this, runner
      ensures Outcome(View(), Idle, sent) == ProcessTask(old(View()))
    {
      sent := None;
      if failed {
        var aborted := runner.AbortPendingVariablesIfInputComplete();
        if aborted {
          request := None;
          failed := false;
          return;
        }
      }
      if !connected {
        return;
      }
      if inFlight {
        return;
      }
      if request.None? {
        var completed := runner.CompleteInputIfFront();
        if completed {
          return;
        }
        request := runner.GetPendingVariables();
        failed := false;
      }
      if request.None? {
        return;
      }
      inFlight := true;
      sent := request;
    }

    method OnReply(error: bool)
      modifies this, runner
      ensures View() == HandleReply(old(View()), error)
    {
      inFlight := false;
      if !error {
        runner.CompletePendingVariables();
        request := None;
        failed := false;
        return;
      }
      failed := true;
      var aborted := runner.AbortPendingVariablesIfInputComplete();
      if aborted {
        request := None;
      }
    }
  }
}
