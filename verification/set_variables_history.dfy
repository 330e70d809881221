/**
 What the connection and failure flags say about the history, and what a send,
 an abort and a retry have to do with it, in every interleaving.
 */
module SetVariablesHistory {
  import opened Types
  import opened SetVariablesFromStdin
  import opened SetVariablesProtocol

  /** The event takes place in `w`; otherwise it changes nothing. */
  predicate Happens(w: World, e: Event) {
    match e
    case ManagerCreated => w.pc == Idle && !w.alive
    case ManagerDestroyed => w.pc == Idle && w.alive
    case ConnectionMade => w.pc == Idle && w.alive
    case ConnectionLost => w.pc == Idle && w.alive
    case TaskStarted => w.pc == Idle && w.alive
    case TaskContinued => w.pc != Idle
    case ReplyArrived(i, _) => w.pc == Idle && i < |w.handlers| && Live(w, w.handlers[i])
    case LineRead(_) => !w.eof
    case InputEnded => !w.eof
  }

  /** Everything but the list of handlers is as it was. */
  ghost predicate SameButHandlers(w: World, w': World) {
    w'.(handlers := w.handlers) == w
  }

  lemma NothingHappens(w: World, e: Event)
    requires !Happens(w, e)
    ensures SameButHandlers(w, Next(w, e))
  {
    hide StartTask, CheckCompletion, Fetch, HandleReply, AtEnd, RemoveHandler, Replied;
  }

  lemma TaskStartedIs(w: World)
    requires Happens(w, TaskStarted)
    ensures var w', o := Next(w, TaskStarted), StartTask(w.core);
            && w'.core == o.core && w'.pc == o.pc && w'.alive
            && w'.aborted == (w.aborted || (w.core.failed && AtEnd(w.core.pending)))
            && w'.sent == if o.sent.Some? then w.sent + [o.sent.value] else w.sent
  {
    hide StartTask, AtEnd;
  }

  lemma TaskContinuedIs(w: World)
    requires Happens(w, TaskContinued)
    ensures var w', o := Next(w, TaskContinued), if w.pc == BeforeCompletion
            then CheckCompletion(w.core) else Fetch(w.core);
            && w'.core == o.core && w'.pc == o.pc && w'.aborted == w.aborted
            && w'.sent == if o.sent.Some? then w.sent + [o.sent.value] else w.sent
  {
    hide CheckCompletion, Fetch;
  }

  lemma ReplyIs(w: World, i: nat, error: bool)
    requires Happens(w, ReplyArrived(i, error))
    ensures var w' := Next(w, ReplyArrived(i, error));
            && w'.core == HandleReply(w.core, error) && w'.pc == Idle && w'.sent == w.sent
            && w'.aborted == (w.aborted || (error && AtEnd(w.core.pending)))
  {
    hide HandleReply, AtEnd, RemoveHandler;
  }

  lemma OtherEventIs(w: World, e: Event)
    requires !e.TaskStarted? && !e.TaskContinued? && !e.ReplyArrived?
    ensures Next(w, e).aborted == w.aborted && Next(w, e).sent == w.sent
  {
  }

  // ----- Flags as marks in the history -----

  /** What an event does to a flag. */
  datatype Mark = Sets | Clears | Neutral

  /** The marks of a run, each made in the world its event met. */
  function Marks(es: seq<Event>, mark: (World, Event) -> Mark): (ms: seq<Mark>)
    ensures |ms| == |es|
  {
    if es == [] then []
    else
      var before := es[..|es| - 1];
      Marks(before, mark) + [mark(Run(START, before), es[|es| - 1])]
  }

  /** The flag was set, and not cleared since. */
  ghost predicate SetSince(ms: seq<Mark>, i: nat) {
    i < |ms| && ms[i] == Sets && forall j :: i < j < |ms| ==> ms[j] != Clears
  }

  ghost predicate IsOn(ms: seq<Mark>) {
    exists i :: SetSince(ms, i)
  }

  lemma IsOnSnoc(ms: seq<Mark>, m: Mark)
    ensures IsOn(ms + [m]) <==> m == Sets || (m == Neutral && IsOn(ms))
  {
    var t := ms + [m];
    assert t[|ms|] == m && forall j :: 0 <= j < |ms| ==> t[j] == ms[j];
    if m == Sets {
      assert SetSince(t, |ms|);
    } else if m == Neutral {
      if i :| SetSince(ms, i) {
        assert SetSince(t, i);
      }
      if i :| SetSince(t, i) {
        assert SetSince(ms, i);
      }
    }
  }

  // ----- Connected -----

  /** Connections are made and lost; a new manager starts without one. */
  function ConnectionMark(w: World, e: Event): Mark {
    if !Happens(w, e) then Neutral
    else
      match e
      case ConnectionMade => Sets
      case ConnectionLost => Clears
      case ManagerCreated => Clears
      case ManagerDestroyed => Clears
      case _ => Neutral
  }

  lemma ConnectedStep(w: World, e: Event)
    ensures Next(w, e).core.connected <==>
            ConnectionMark(w, e) == Sets || (ConnectionMark(w, e) == Neutral && w.core.connected)
  {
    hide StartTask, CheckCompletion, Fetch, HandleReply, AtEnd, RemoveHandler, Live, Advance, Replied;
    TaskKeepsConnection(w.core);
    if !Happens(w, e) {
      NothingHappens(w, e);
      hide Next;
    } else {
      match e
      case TaskStarted =>
        TaskStartedIs(w);
        hide Next;
      case TaskContinued =>
        TaskContinuedIs(w);
        hide Next;
      case ReplyArrived(i, error) =>
        ReplyIs(w, i, error);
        hide Next;
      case _ =>
    }
  }

  lemma TaskKeepsConnection(c: Core)
    ensures StartTask(c).core.connected == CheckCompletion(c).core.connected == Fetch(c).core.connected == c.connected
    ensures HandleReply(c, true).connected == HandleReply(c, false).connected == c.connected
  {
  }

  /** A task that pauses after its first locked call is connected, and the fetch ends it. */
  lemma TaskPauses(c: Core)
    ensures StartTask(c).pc != Idle ==> c.connected && StartTask(c).core == c && StartTask(c).sent.None?
    ensures Fetch(c).pc == Idle && CheckCompletion(c).sent.None?
    ensures StartTask(c).sent.Some? ==> c.connected && !c.inFlight && StartTask(c).core.inFlight
    ensures Fetch(c).sent.Some? ==> Fetch(c).core.inFlight
  {
  }

  /** In every interleaving the manager is connected exactly if a connection was made,
    and neither lost nor given up since. */
  lemma {:induction false} ConnectedIff(es: seq<Event>)
    ensures Run(START, es).core.connected <==> IsOn(Marks(es, ConnectionMark))
  {
    if es != [] {
      var t, e := es[..|es| - 1], es[|es| - 1];
      ConnectedIff(t);
      ConnectedStep(Run(START, t), e);
      IsOnSnoc(Marks(t, ConnectionMark), ConnectionMark(Run(START, t), e));
      hide IsOn, Next, ConnectionMark;
    }
  }

  // ----- Sends -----

  /** A task that is under way found a connection. */
  predicate TaskIsConnected(w: World) {
    w.pc != Idle ==> w.core.connected
  }

  lemma {:induction false} RunTaskIsConnected(es: seq<Event>)
    ensures TaskIsConnected(Run(START, es))
  {
    if es != [] {
      RunTaskIsConnected(es[..|es| - 1]);
      StepTaskIsConnected(Run(START, es[..|es| - 1]), es[|es| - 1]);
    }
  }

  lemma StepTaskIsConnected(w: World, e: Event)
    requires TaskIsConnected(w)
    ensures TaskIsConnected(Next(w, e))
  {
    hide StartTask, CheckCompletion, Fetch, HandleReply, AtEnd, RemoveHandler, Live, Advance, Replied;
    TaskKeepsConnection(w.core);
    TaskPauses(w.core);
    if !Happens(w, e) {
      NothingHappens(w, e);
      hide Next;
    } else {
      match e
      case TaskStarted =>
        TaskStartedIs(w);
        hide Next;
      case TaskContinued =>
        TaskContinuedIs(w);
        hide Next;
      case ReplyArrived(i, error) =>
        ReplyIs(w, i, error);
        hide Next;
      case _ =>
    }
  }

  lemma SendingStep(w: World, e: Event)
    requires TaskIsConnected(w) && Inv(w) && Next(w, e).sent != w.sent
    ensures w.alive && w.core.connected && !w.core.inFlight
    ensures Next(w, e).core.inFlight && |Next(w, e).sent| == |w.sent| + 1
  {
    hide StartTask, CheckCompletion, Fetch, HandleReply, AtEnd, RemoveHandler, Live, Advance, Replied, QueueInv,
      SentInv;
    TaskPauses(w.core);
    if !Happens(w, e) {
      NothingHappens(w, e);
      hide Next;
    } else {
      match e
      case TaskStarted =>
        TaskStartedIs(w);
        hide Next;
      case TaskContinued =>
        TaskContinuedIs(w);
        hide Next;
      case ReplyArrived(i, error) =>
        ReplyIs(w, i, error);
        hide Next;
      case _ =>
    }
  }

  /**
   In every interleaving, whatever is sent is sent by a living manager with nothing
   in flight, over a connection that was made and has been neither lost nor given
   up since.
   */
  lemma SendsNeedAConnection(es: seq<Event>, e: Event)
    requires Next(Run(START, es), e).sent != Run(START, es).sent
    ensures var w := Run(START, es);
            w.alive && w.core.connected && !w.core.inFlight && IsOn(Marks(es, ConnectionMark))
  {
    RunTaskIsConnected(es);
    RunInv(es);
    ConnectedIff(es);
    hide *;
    SendingStep(Run(START, es), e);
  }

  // ----- Failed -----

  /**
   A lost connection and an error reply are failures. A success, a fetched line,
   a task that meets the end marker, and the end of a manager wipe them out.
   */
  function FailureMark(w: World, e: Event): Mark {
    if !Happens(w, e) then Neutral
    else
      match e
      case ConnectionLost => Sets
      case ReplyArrived(_, error) => if error then Sets else Clears
      case ManagerCreated => Clears
      case ManagerDestroyed => Clears
      case TaskContinued => if w.pc == BeforeFetch then Clears else Neutral
      case TaskStarted => if AtEnd(w.core.pending) then Clears else Neutral
      case _ => Neutral
  }

  lemma FailedStep(w: World, e: Event)
    ensures Next(w, e).core.failed <==>
            FailureMark(w, e) == Sets || (FailureMark(w, e) == Neutral && w.core.failed)
  {
    hide StartTask, CheckCompletion, Fetch, HandleReply, AtEnd, RemoveHandler, Live, Advance, Replied;
    TaskAndFailure(w.core);
    if !Happens(w, e) {
      NothingHappens(w, e);
      hide Next;
    } else {
      match e
      case TaskStarted =>
        TaskStartedIs(w);
        hide Next;
      case TaskContinued =>
        TaskContinuedIs(w);
        hide Next;
      case ReplyArrived(i, error) =>
        ReplyIs(w, i, error);
        hide Next;
      case _ =>
    }
  }

  lemma TaskAndFailure(c: Core)
    ensures StartTask(c).core.failed == (c.failed && !AtEnd(c.pending))
    ensures CheckCompletion(c).core.failed == c.failed && !Fetch(c).core.failed
    ensures HandleReply(c, true).failed && !HandleReply(c, false).failed
  {
    hide AtEnd, Front;
  }

  lemma {:induction false} FailedIff(es: seq<Event>)
    ensures Run(START, es).core.failed <==> IsOn(Marks(es, FailureMark))
  {
    if es != [] {
      var t, e := es[..|es| - 1], es[|es| - 1];
      FailedIff(t);
      FailedStep(Run(START, t), e);
      IsOnSnoc(Marks(t, FailureMark), FailureMark(Run(START, t), e));
      hide IsOn, Next, FailureMark;
    }
  }

  // ----- Aborts and retries -----

  /** The step drops the rest of the input: at the end marker, a task that remembers a failure, or an error reply. */
  ghost predicate MustAbort(w: World, e: Event, failure: bool) {
    Happens(w, e) && AtEnd(w.core.pending)
    && ((e == TaskStarted && failure) || (e.ReplyArrived? && e.error))
  }

  lemma AbortNotifies(w: World, e: Event)
    requires Inv(w) && MustAbort(w, e, w.core.failed)
    ensures Next(w, e).core.pending == [] && Next(w, e).core.request.None? && Next(w, e).core.notices == 1
  {
    QueueFacts(w);
    hide Inv, Next, StartTask, CheckCompletion, Fetch, HandleReply, AtEnd, Live;
    TaskAborts(w.core);
    if e.TaskStarted? {
      TaskStartedIs(w);
    } else {
      ReplyIs(w, e.handler, e.error);
    }
  }

  lemma AbortStep(w: World, e: Event)
    requires Inv(w)
    ensures Next(w, e).aborted <==> w.aborted || MustAbort(w, e, w.core.failed)
    ensures MustAbort(w, e, w.core.failed) ==>
              Next(w, e).core.pending == [] && Next(w, e).core.request.None? && Next(w, e).core.notices == 1
  {
    hide Inv, Next, StartTask, CheckCompletion, Fetch, HandleReply, AtEnd, Live;
    if MustAbort(w, e, w.core.failed) {
      AbortNotifies(w, e);
    }
    if !Happens(w, e) {
      NothingHappens(w, e);
    } else {
      match e
      case TaskStarted => TaskStartedIs(w);
      case TaskContinued => TaskContinuedIs(w);
      case ReplyArrived(i, error) => ReplyIs(w, i, error);
      case _ => OtherEventIs(w, e);
    }
  }

  lemma TaskAborts(c: Core)
    ensures c.failed && AtEnd(c.pending) ==>
              var a := StartTask(c).core;
              a.pending == [] && a.request.None? && a.notices == c.notices + 1
    ensures AtEnd(c.pending) ==>
              var a := HandleReply(c, true);
              a.pending == [] && a.request.None? && a.notices == c.notices + 1
  {
    hide AtEnd;
  }

  /**
   In every interleaving the wait is aborted exactly when it must be: once the end
   marker is queued, by the next task if a failure has not been wiped out since,
   and at once by an error reply.
   */
  lemma AbortsExactly(es: seq<Event>, e: Event)
    ensures var w := Run(START, es);
            && (Next(w, e).aborted <==> w.aborted || MustAbort(w, e, IsOn(Marks(es, FailureMark))))
            && (MustAbort(w, e, IsOn(Marks(es, FailureMark))) ==>
                  Next(w, e).core.pending == [] && Next(w, e).core.notices == 1)
  {
    RunInv(es);
    FailedIff(es);
    hide Run, Next, Marks, IsOn, Inv, MustAbort;
    AbortStep(Run(START, es), e);
  }

  /** A task of a connected manager sends a stored request again after an error, unless it must abort. */
  lemma RetriesAfterError(w: World, i: nat)
    requires Inv(w) && w.core.connected && !AtEnd(w.core.pending) && !w.aborted
    requires Happens(w, ReplyArrived(i, true))
    ensures var w' := Next(Next(w, ReplyArrived(i, true)), TaskStarted);
            && w'.sent == w.sent + [w.handlers[i].variables]
            && w'.core.pending == w.core.pending && w'.popped == w.popped && w'.core.inFlight
  {
    var h := w.handlers[i];
    assert w.core.request == Some(h.variables);
    hide Inv, RemoveHandler, Front, CheckCompletion, Fetch;
    var w1 := Next(w, ReplyArrived(i, true));
    assert w1.core == w.core.(inFlight := false, failed := true) && w1.pc == Idle && w1.alive && w1.sent == w.sent;
  }
}
