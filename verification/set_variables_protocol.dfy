/**
 The delivery protocol as a transition system: the stdin thread, the dispatcher
 thread with its locked calls as separate steps, connections that come and go,
 managers that are destroyed and recreated, and replies that arrive late.
 */
module SetVariablesProtocol {
  import opened Types
  import opened SetVariablesFromStdin

  /** A completion handler held by the transport, with the lifetime token of its manager. */
  datatype Handler = Handler(generation: nat, variables: string)

  datatype World = World(
    core: Core,
    pc: Pc,
    alive: bool,
    generation: nat,
    handlers: seq<Handler>,
    // What has happened so far.
    input: seq<string>,
    eof: bool,
    sent: seq<string>,
    positions: seq<nat>,
    popped: seq<Pending>,
    completed: bool,
    aborted: bool,
    troubled: bool)

  datatype Event =
    | LineRead(json: string)
    | InputEnded
    | ManagerCreated
    | ManagerDestroyed
    | ConnectionMade
    | ConnectionLost
    | TaskStarted
    | TaskContinued
    | ReplyArrived(handler: nat, error: bool)

  const NO_CORE := Core([], 0, None, false, false, false)

  const START := World(NO_CORE, Idle, false, 0, [], [], false, [], [], [], false, false, false)

  /** A manager without a request, and not connected. */
  function Disconnected(c: Core): Core {
    Core(c.pending, c.notices, None, false, false, false)
  }

  function RemoveHandler(hs: seq<Handler>, i: nat): seq<Handler>
    requires i < |hs|
  {
    hs[..i] + hs[i + 1..]
  }

  /** The dispatcher has gone one step further in its task. */
  function Advance(w: World, o: Outcome): World {
    var w' := w.(core := o.core, pc := o.pc);
    if o.sent.None? then w'
    else
      w'.(handlers := w.handlers + [Handler(w.generation, o.sent.value)],
      sent := w.sent + [o.sent.value],
      positions := w.positions + [|w.popped|])
  }

  predicate Live(w: World, h: Handler) {
    w.alive && h.generation == w.generation
  }

  function Replied(w: World, h: Handler, error: bool): World {
    var c := HandleReply(w.core, error);
    w.(core := c,
    popped := if !error && w.core.pending != [] then w.popped + [w.core.pending[0]] else w.popped,
    aborted := w.aborted || (error && AtEnd(w.core.pending)),
    troubled := w.troubled || error)
  }

  /** One step; an event that cannot happen in `w` changes nothing. */
  function Next(w: World, e: Event): World {
    match e
    case LineRead(json) =>
      if w.eof then w
      else w.(core := w.core.(pending := w.core.pending + [Variables(json)]), input := w.input + [json])
    case InputEnded =>
      if w.eof then w else w.(core := w.core.(pending := w.core.pending + [EndOfInput]), eof := true)
    case ManagerCreated =>
      if w.pc != Idle || w.alive then w
      else w.(core := Disconnected(w.core), alive := true, generation := w.generation + 1)
    case ManagerDestroyed =>
      if w.pc != Idle || !w.alive then w else w.(core := Disconnected(w.core), alive := false)
    case ConnectionMade =>
      if w.pc != Idle || !w.alive then w else w.(core := w.core.(connected := true))
    case ConnectionLost =>
      if w.pc != Idle || !w.alive then w
      else w.(core := w.core.(connected := false, failed := true), troubled := true)
    case TaskStarted =>
      if w.pc != Idle || !w.alive then w
      else
        Advance(w, StartTask(w.core)).(aborted := w.aborted || (w.core.failed && AtEnd(w.core.pending)))
    case TaskContinued =>
      (match w.pc
       case Idle => w
       case BeforeCompletion =>
         var o := CheckCompletion(w.core);
         Advance(w, o).(completed := w.completed || o.pc == Idle)
       case BeforeFetch => Advance(w, Fetch(w.core)))
    case ReplyArrived(i, error) =>
      if w.pc != Idle || i >= |w.handlers| then w
      else
        var h := w.handlers[i];
        var w' := w.(handlers := RemoveHandler(w.handlers, i));
        if Live(w, h) then Replied(w', h, error) else w'
  }

  function Run(w: World, es: seq<Event>): World {
    if es == [] then w else Next(Run(w, es[..|es| - 1]), es[|es| - 1])
  }

  // ----- The invariant -----

  function Wrap(input: seq<string>): (r: seq<Pending>)
    ensures |r| == |input| && forall i :: 0 <= i < |r| ==> r[i] == Variables(input[i])
  {
    seq(|input|, i requires 0 <= i < |input| => Variables(input[i]))
  }

  /** What must be queued, given what was read and popped. */
  function Expected(w: World): seq<Pending>
    requires |w.popped| <= |w.input|
  {
    if w.aborted then []
    else Wrap(w.input[|w.popped|..]) + (if w.eof && !w.completed then [EndOfInput] else [])
  }

  /** The queue is the unpopped rest of the input, and then the marker. */
  ghost predicate QueueInv(w: World) {
    && |w.popped| <= |w.input|
    && w.popped == Wrap(w.input[..|w.popped|])
    && w.core.pending == Expected(w)
    && w.core.notices == (if w.completed || w.aborted then 1 else 0)
    && !(w.completed && w.aborted)
    && (w.completed ==> w.eof && |w.popped| == |w.input|)
    && (w.aborted ==> w.eof && w.troubled)
    && (w.core.failed ==> w.troubled)
  }

  /** A stored request is the front of the queue; a handler of this manager carries it. */
  ghost predicate RequestInv(w: World) {
    && (w.core.request.Some? ==>
          !w.aborted && |w.popped| < |w.input| && w.core.request.value == w.input[|w.popped|])
    && (!w.alive ==> w.core.request.None? && !w.core.inFlight)
    && (w.pc != Idle ==> w.alive && !w.core.inFlight && w.core.request.None?)
    && (forall i :: 0 <= i < |w.handlers| ==> w.handlers[i].generation <= w.generation)
    && (forall i :: 0 <= i < |w.handlers| && Live(w, w.handlers[i]) ==>
          w.core.inFlight && (w.aborted || w.core.request == Some(w.handlers[i].variables)))
    && (forall i, j :: 0 <= i < j < |w.handlers| ==> !(Live(w, w.handlers[i]) && Live(w, w.handlers[j])))
  }

  /** What was sent is the input in order, without skips, with repeats only; all that was popped was sent. */
  ghost predicate InOrder(sent: seq<string>, positions: seq<nat>, input: seq<string>, popped: nat) {
    && |sent| == |positions|
    && (forall i :: 0 <= i < |sent| ==> positions[i] < |input| && sent[i] == input[positions[i]])
    && (positions != [] ==> positions[0] == 0)
    && (forall i :: 0 <= i && i + 1 < |positions| ==> positions[i] <= positions[i + 1] <= positions[i] + 1)
    && (if positions == [] then popped == 0
        else positions[|positions| - 1] <= popped <= positions[|positions| - 1] + 1)
  }

  ghost predicate LastSentIs(positions: seq<nat>, n: nat) {
    positions != [] && positions[|positions| - 1] == n
  }

  ghost predicate SentInv(w: World) {
    && InOrder(w.sent, w.positions, w.input, |w.popped|)
    && (NoneLive(w) || w.aborted || LastSentIs(w.positions, |w.popped|))
  }

  ghost predicate NoneLive(w: World) {
    forall i :: 0 <= i < |w.handlers| ==> !Live(w, w.handlers[i])
  }

  ghost predicate Inv(w: World) {
    QueueInv(w) && RequestInv(w) && SentInv(w)
  }

  lemma StartInv()
    ensures Inv(START)
  {
  }

  // ----- Every step keeps the invariant -----

  /** What the front and the back of the queue say about the history. */
  lemma QueueFacts(w: World)
    requires QueueInv(w)
    ensures AtEnd(w.core.pending) ==> w.eof && !w.completed && !w.aborted
    ensures w.core.pending != [] ==> !w.aborted
    ensures w.core.notices == (if w.completed || w.aborted then 1 else 0)
    ensures !w.aborted && |w.popped| < |w.input| ==>
              w.core.pending != [] && w.core.pending[0] == Variables(w.input[|w.popped|])
    ensures w.core.pending != [] && w.core.pending[0] == EndOfInput ==>
              w.core.pending == [EndOfInput] && |w.popped| == |w.input| && w.eof && !w.completed
    ensures Front(w.core.pending).Some? ==>
              |w.popped| < |w.input| && Front(w.core.pending).value == w.input[|w.popped|]
  {
    if w.core.pending != [] && |w.popped| < |w.input| {
      assert w.core.pending[0] == Wrap(w.input[|w.popped|..])[0];
    }
  }

  lemma InputInv(w: World, e: Event)
    requires Inv(w) && (e.LineRead? || e.InputEnded?)
    ensures Inv(Next(w, e))
  {
    var w' := Next(w, e);
    if !w.eof {
      InputQueueInv(w, e);
      assert RequestInv(w') by {
        LiveFrame(w, w');
      }
      LiveFrame(w, w');
      hide QueueInv, RequestInv;
      assert InOrder(w.sent, w.positions, w'.input, |w.popped|);
    }
  }

  lemma InputQueueInv(w: World, e: Event)
    requires QueueInv(w) && !w.eof && (e.LineRead? || e.InputEnded?)
    ensures QueueInv(Next(w, e))
  {
    var w' := Next(w, e);
    assert w'.input[..|w.popped|] == w.input[..|w.popped|];
    assert w'.input[|w.popped|..] == w.input[|w.popped|..] + (if e.LineRead? then [e.json] else []);
    assert w'.core.pending == Expected(w');
  }

  lemma ManagerInv(w: World, e: Event)
    requires Inv(w) && (e.ManagerCreated? || e.ManagerDestroyed? || e.ConnectionMade? || e.ConnectionLost?)
    ensures Inv(Next(w, e))
  {
    if e.ManagerCreated? || e.ManagerDestroyed? {
      LifetimeInv(w, e);
    } else {
      ConnectionInv(w, e);
    }
  }

  lemma LifetimeInv(w: World, e: Event)
    requires Inv(w) && (e.ManagerCreated? || e.ManagerDestroyed?)
    ensures Inv(Next(w, e))
  {
    hide QueueInv, SentInv, StartTask, CheckCompletion, Fetch, HandleReply;
    var w' := Next(w, e);
    QueueFrame(w, w');
    assert w' != w ==> NoneLive(w');
    assert RequestInv(w');
    SentFrame(w, w');
  }

  lemma ConnectionInv(w: World, e: Event)
    requires Inv(w) && (e.ConnectionMade? || e.ConnectionLost?)
    ensures Inv(Next(w, e))
  {
    hide QueueInv, SentInv, NoneLive, StartTask, CheckCompletion, Fetch, HandleReply;
    var w' := Next(w, e);
    QueueFrame(w, w');
    LiveFrame(w, w');
    assert RequestInv(w');
    hide RequestInv;
    SentFrame(w, w');
  }

  /** Steps that leave the manager alone leave its handlers alive or dead. */
  lemma LiveFrame(w: World, w': World)
    requires w'.handlers == w.handlers && w'.alive == w.alive && w'.generation == w.generation
    ensures forall i :: 0 <= i < |w.handlers| ==> Live(w', w'.handlers[i]) == Live(w, w.handlers[i])
    ensures NoneLive(w') == NoneLive(w)
  {
  }

  /** Steps that leave the queue and its history alone. */
  lemma QueueFrame(w: World, w': World)
    requires QueueInv(w)
    requires w'.core.pending == w.core.pending && w'.core.notices == w.core.notices
    requires w'.popped == w.popped && w'.input == w.input
    requires w'.eof == w.eof && w'.completed == w.completed && w'.aborted == w.aborted
    requires (w.troubled ==> w'.troubled) && (w'.core.failed ==> w'.troubled || w.core.failed)
    ensures QueueInv(w')
  {
    hide Wrap;
    assert w'.core.pending == Expected(w');
  }

  /** Steps that send nothing and bring no handler to life. */
  lemma SentFrame(w: World, w': World)
    requires SentInv(w)
    requires w'.sent == w.sent && w'.positions == w.positions && w'.input == w.input && w'.popped == w.popped
    requires (NoneLive(w) ==> NoneLive(w')) && (w.aborted ==> w'.aborted)
    ensures SentInv(w')
  {
    hide InOrder, NoneLive;
  }

  lemma SendInv(w: World)
    requires Inv(w) && w.alive && w.pc == Idle && !w.core.inFlight && w.core.request.Some?
    ensures Inv(Advance(w, Send(w.core)))
  {
    hide QueueInv, SentInv, InOrder;
    var w' := Advance(w, Send(w.core));
    assert NoneLive(w);
    QueueFrame(w, w');
    SendRequestInv(w);
    SendSentInv(w);
    hide RequestInv, NoneLive;
  }

  lemma SendRequestInv(w: World)
    requires RequestInv(w) && NoneLive(w) && w.alive && w.pc == Idle && !w.core.inFlight && w.core.request.Some?
    ensures RequestInv(Advance(w, Send(w.core)))
  {
    var w' := Advance(w, Send(w.core));
    forall i | 0 <= i < |w.handlers| ensures !Live(w', w'.handlers[i]) && w'.handlers[i].generation <= w'.generation {
      assert w'.handlers[i] == w.handlers[i];
      assert !Live(w, w.handlers[i]);
    }
  }

  lemma SentOneMore(sent: seq<string>, positions: seq<nat>, input: seq<string>, n: nat)
    requires InOrder(sent, positions, input, n) && n < |input|
    ensures InOrder(sent + [input[n]], positions + [n], input, n)
  {
    var p := positions + [n];
    forall i | 0 <= i && i + 1 < |p| ensures p[i] <= p[i + 1] <= p[i] + 1 {
      assert p[i] == positions[i];
    }
  }

  lemma SendSentInv(w: World)
    requires SentInv(w) && RequestInv(w) && w.core.request.Some?
    ensures SentInv(Advance(w, Send(w.core)))
  {
    hide QueueInv, Live;
    SentOneMore(w.sent, w.positions, w.input, |w.popped|);
  }

  lemma StartTaskInv(w: World)
    requires Inv(w)
    ensures Inv(Next(w, TaskStarted))
  {
    if w.pc == Idle && w.alive {
      if w.core.failed && AtEnd(w.core.pending) {
        AbortInv(w);
      } else if w.core.connected && !w.core.inFlight && w.core.request.Some? {
        SendInv(w);
      } else {
        hide Inv;
        PcInv(w, StartTask(w.core).pc);
      }
    }
  }

  lemma AbortInv(w: World)
    requires Inv(w) && w.pc == Idle && w.core.failed && AtEnd(w.core.pending)
    ensures Inv(w.(core := AbortAll(w.core).(failed := false), aborted := true))
  {
    QueueFacts(w);
    DropInv(w, AbortAll(w.core).(failed := false));
  }

  lemma PcInv(w: World, pc: Pc)
    requires Inv(w) && (pc != Idle ==> w.alive && !w.core.inFlight && w.core.request.None?)
    ensures Inv(w.(pc := pc))
  {
    hide QueueInv, SentInv;
    var w' := w.(pc := pc);
    QueueFrame(w, w');
    LiveFrame(w, w');
    SentFrame(w, w');
    assert RequestInv(w');
  }

  /** Dropping the rest of the input after the marker and a failure. */
  lemma DropInv(w: World, c: Core)
    requires Inv(w) && w.troubled && w.eof && !w.completed && !w.aborted
    requires c.pending == [] && c.request.None? && c.notices == 1 && (c.inFlight ==> w.core.inFlight)
    requires (w.core.inFlight ==> c.inFlight) || NoneLive(w)
    requires w.pc == Idle
    ensures Inv(w.(core := c, aborted := true))
  {
    var w' := w.(core := c, aborted := true);
    assert QueueInv(w');
    LiveFrame(w, w');
    hide QueueInv, InOrder;
    assert RequestInv(w');
    assert SentInv(w');
  }

  lemma ContinueTaskInv(w: World)
    requires Inv(w)
    ensures Inv(Next(w, TaskContinued))
  {
    QueueFacts(w);
    if w.pc == BeforeCompletion {
      if w.core.pending != [] && w.core.pending[0] == EndOfInput {
        CompletedInv(w);
      } else {
        PcInv(w, BeforeFetch);
      }
    } else if w.pc == BeforeFetch {
      FetchInv(w);
    }
  }

  lemma CompletedInv(w: World)
    requires Inv(w) && w.pc == BeforeCompletion && w.core.pending != [] && w.core.pending[0] == EndOfInput
    ensures Inv(w.(core := CheckCompletion(w.core).core, pc := Idle, completed := true))
  {
    var w' := w.(core := CheckCompletion(w.core).core, pc := Idle, completed := true);
    QueueFacts(w);
    assert QueueInv(w') by {
      assert w.input[|w.popped|..] == [];
      assert w'.core.pending == Expected(w');
    }
    LiveFrame(w, w');
    hide QueueInv, InOrder;
    assert RequestInv(w');
    assert SentInv(w');
  }

  lemma FetchInv(w: World)
    requires Inv(w) && w.pc == BeforeFetch
    ensures Inv(Advance(w, Fetch(w.core)))
  {
    hide QueueInv, SentInv;
    var w1 := w.(core := w.core.(request := Front(w.core.pending), failed := false), pc := Idle);
    QueueFacts(w);
    QueueFrame(w, w1);
    LiveFrame(w, w1);
    SentFrame(w, w1);
    assert RequestInv(w1);
    hide RequestInv;
    if w1.core.request.Some? {
      SendInv(w1);
      assert Advance(w, Fetch(w.core)) == Advance(w1, Send(w1.core));
    }
  }

  /** Taking a handler away from the transport. */
  lemma RemoveInv(w: World, i: nat)
    requires Inv(w) && i < |w.handlers|
    ensures Inv(w.(handlers := RemoveHandler(w.handlers, i)))
    ensures Live(w, w.handlers[i]) ==> NoneLive(w.(handlers := RemoveHandler(w.handlers, i)))
  {
    hide QueueInv, SentInv;
    var w' := w.(handlers := RemoveHandler(w.handlers, i));
    forall j | 0 <= j < |w'.handlers|
      ensures w'.handlers[j] == w.handlers[if j < i then j else j + 1]
    {
    }
    assert NoneLive(w) ==> NoneLive(w');
    QueueFrame(w, w');
    SentFrame(w, w');
    assert RequestInv(w');
  }

  lemma ReplyInv(w: World, i: nat, error: bool)
    requires Inv(w)
    ensures Inv(Next(w, ReplyArrived(i, error)))
  {
    if w.pc == Idle && i < |w.handlers| {
      var h, w1 := w.handlers[i], w.(handlers := RemoveHandler(w.handlers, i));
      RemoveInv(w, i);
      if Live(w, h) {
        if error {
          ErrorInv(w1, h);
        } else {
          AcknowledgedInv(w1, h);
        }
      }
    }
  }

  lemma ErrorInv(w: World, h: Handler)
    requires Inv(w) && NoneLive(w) && w.pc == Idle && w.alive
    ensures Inv(Replied(w, h, true))
  {
    hide QueueInv, SentInv;
    var w1 := w.(core := w.core.(inFlight := false, failed := true), troubled := true);
    QueueFacts(w);
    QueueFrame(w, w1);
    LiveFrame(w, w1);
    SentFrame(w, w1);
    assert RequestInv(w1);
    hide RequestInv, NoneLive;
    if AtEnd(w.core.pending) {
      DropInv(w1, HandleReply(w.core, true));
    }
  }

  lemma AcknowledgedQueue(w: World, h: Handler)
    requires QueueInv(w) && (w.aborted || |w.popped| < |w.input|)
    ensures QueueInv(Replied(w, h, false))
  {
    var w' := Replied(w, h, false);
    QueueFacts(w);
    if !w.aborted {
      assert w.input[..|w.popped| + 1] == w.input[..|w.popped|] + [w.input[|w.popped|]];
      assert w'.popped == Wrap(w'.input[..|w'.popped|]);
      assert w.input[|w.popped|..][1..] == w.input[|w'.popped|..];
      assert w'.core.pending == Expected(w');
    }
  }

  lemma AcknowledgedInv(w: World, h: Handler)
    requires Inv(w) && NoneLive(w) && w.pc == Idle && w.alive
    requires w.aborted || (w.core.request.Some? && LastSentIs(w.positions, |w.popped|))
    ensures Inv(Replied(w, h, false))
  {
    var w' := Replied(w, h, false);
    AcknowledgedQueue(w, h);
    LiveFrame(w, w');
    hide QueueInv;
    assert RequestInv(w');
    assert SentInv(w');
  }

  lemma NextInv(w: World, e: Event)
    requires Inv(w)
    ensures Inv(Next(w, e))
  {
    hide *;
    match e
    case LineRead(_) | InputEnded => InputInv(w, e);
    case ManagerCreated | ManagerDestroyed | ConnectionMade | ConnectionLost => ManagerInv(w, e);
    case TaskStarted => StartTaskInv(w);
    case TaskContinued => ContinueTaskInv(w);
    case ReplyArrived(i, error) => ReplyInv(w, i, error);
  }

  lemma {:induction false} RunInv(es: seq<Event>)
    ensures Inv(Run(START, es))
  {
    if es == [] {
      StartInv();
    } else {
      RunInv(es[..|es| - 1]);
      NextInv(Run(START, es[..|es| - 1]), es[|es| - 1]);
    }
  }

  // ----- What follows for every run -----

  /** What is queued first is the stored request, if there is one. */
  lemma RequestIsFront(es: seq<Event>)
    ensures var c := Run(START, es).core;
            c.request.Some? ==> c.pending != [] && c.pending[0] == Variables(c.request.value)
  {
    RunInv(es);
    QueueFacts(Run(START, es));
  }

  /**
   Delivery is in order and skips nothing: what was popped is a prefix of the
   input, what was sent walks through the input in steps of zero or one, and
   nothing is popped that was not sent.
   */
  lemma DeliveredInOrder(es: seq<Event>)
    ensures var w := Run(START, es);
            && |w.popped| <= |w.input| && w.popped == Wrap(w.input[..|w.popped|])
            && InOrder(w.sent, w.positions, w.input, |w.popped|)
  {
    RunInv(es);
  }

  lemma ReplyPops(w: World, i: nat)
    requires Inv(w) && w.pc == Idle && i < |w.handlers| && Live(w, w.handlers[i])
    ensures var w' := Next(w, ReplyArrived(i, false));
            if w.aborted then w'.core.pending == w.core.pending == []
            else w.core.pending == [Variables(w.handlers[i].variables)] + w'.core.pending
  {
    var h := w.handlers[i];
    assert h in w.handlers;
    PoppedOne(w, h);
    hide Inv, StartTask, CheckCompletion, Fetch, AtEnd, RemoveHandler;
    assert Next(w, ReplyArrived(i, false)).core == HandleReply(w.core, false);
  }

  /** What the invariant says about the handler of a live manager. */
  lemma PoppedOne(w: World, h: Handler)
    requires Inv(w) && h in w.handlers && Live(w, h)
    ensures w.aborted ==> w.core.pending == []
    ensures !w.aborted ==> w.core.pending != [] && w.core.pending[0] == Variables(h.variables)
  {
    QueueFacts(w);
    hide SentInv;
  }

  /** A successful reply pops exactly what it acknowledges, or nothing after an abort. */
  lemma ReplyPopsWhatItAcknowledged(es: seq<Event>, i: nat)
    requires var w := Run(START, es); w.pc == Idle && i < |w.handlers| && Live(w, w.handlers[i])
    ensures var w := Run(START, es);
            var w' := Next(w, ReplyArrived(i, false));
            if w.aborted then w'.core.pending == w.core.pending == []
            else w.core.pending == [Variables(w.handlers[i].variables)] + w'.core.pending
  {
    var w := Run(START, es);
    RunInv(es);
    hide *;
    ReplyPops(w, i);
  }

  /** Once a manager is destroyed, a later one has a later generation. */
  ghost predicate Outlived(w: World, generation: nat) {
    w.generation >= generation && (w.alive ==> w.generation > generation)
  }

  lemma OutlivedStep(w: World, e: Event, generation: nat)
    requires Outlived(w, generation)
    ensures Outlived(Next(w, e), generation)
  {
    hide StartTask, CheckCompletion, Fetch, HandleReply, RemoveHandler, AtEnd, Live;
    match e
    case TaskStarted =>
    case TaskContinued =>
    case ReplyArrived(_, _) =>
    case _ =>
  }

  lemma {:induction false} OutlivedRun(w: World, es: seq<Event>, generation: nat)
    requires Outlived(w, generation)
    ensures Outlived(Run(w, es), generation)
  {
    if es != [] {
      OutlivedRun(w, es[..|es| - 1], generation);
      OutlivedStep(Run(w, es[..|es| - 1]), es[|es| - 1], generation);
    }
  }

  /**
   Whatever happens after a manager was destroyed, a reply for one of its handlers
   that the transport still holds changes nothing but the list of handlers.
   */
  lemma LateReplyIgnored(w: World, es: seq<Event>, i: nat, error: bool)
    requires !w.alive && i < |Run(w, es).handlers| && Run(w, es).handlers[i].generation <= w.generation
    ensures var v := Run(w, es);
            !Live(v, v.handlers[i]) && Next(v, ReplyArrived(i, error)).(handlers := v.handlers) == v
  {
    hide Run, StartTask, CheckCompletion, Fetch, HandleReply, RemoveHandler, AtEnd, Replied, Advance;
    OutlivedRun(w, es, w.generation);
  }

  predicate IsTrouble(e: Event) {
    e.ConnectionLost? || (e.ReplyArrived? && e.error)
  }

  lemma {:induction false} TroubleHasACause(es: seq<Event>)
    ensures Run(START, es).troubled ==> exists i :: 0 <= i < |es| && IsTrouble(es[i])
  {
    if es != [] {
      var before, e := es[..|es| - 1], es[|es| - 1];
      TroubleHasACause(before);
      TroubleStep(Run(START, before), e);
      hide Next;
      if Run(START, before).troubled {
        var i :| 0 <= i < |before| && IsTrouble(before[i]);
        assert IsTrouble(es[i]);
      } else if Run(START, es).troubled {
        assert IsTrouble(es[|es| - 1]);
      }
    }
  }

  lemma TroubleStep(w: World, e: Event)
    ensures Next(w, e).troubled ==> w.troubled || IsTrouble(e)
  {
    hide StartTask, CheckCompletion, Fetch, HandleReply, AtEnd, RemoveHandler, Live;
    match e
    case TaskStarted =>
    case TaskContinued =>
    case ReplyArrived(_, _) =>
    case _ =>
  }

  /**
   The waiting thread is told at most once: either through the marker at the
   front, and then every line read was acknowledged and popped, or through an
   abort, and then the input had ended and something had gone wrong.
   */
  lemma CompletionIsSound(es: seq<Event>)
    ensures var w := Run(START, es);
            && w.core.notices <= 1
            && (w.core.notices == 1 <==> w.completed || w.aborted)
            && (w.completed ==> !w.aborted && w.eof && w.popped == Wrap(w.input))
            && (w.aborted ==> w.eof && exists i :: 0 <= i < |es| && IsTrouble(es[i]))
  {
    RunInv(es);
    TroubleHasACause(es);
    var w := Run(START, es);
    assert w.completed ==> w.input[..|w.popped|] == w.input;
  }

  /** Undisturbed, the three steps of a task are what the object's method does. */
  lemma TaskIsItsSteps(w: World)
    requires w.pc == Idle && w.alive
    ensures var w' := Next(Next(Next(w, TaskStarted), TaskContinued), TaskContinued);
            && w'.core == ProcessTask(w.core).core && w'.pc == Idle
            && w'.sent == (var v := ProcessTask(w.core).sent; if v.Some? then w.sent + [v.value] else w.sent)
  {
    hide Live, Replied, RemoveHandler, CheckCompletion, Fetch;
    var w1 := Next(w, TaskStarted);
    if StartTask(w.core).pc != Idle {
      assert StartTask(w.core) == Outcome(w.core, BeforeCompletion, None);
      assert w1 == w.(pc := BeforeCompletion);
      CompletionThenFetch(w1);
      hide Next, StartTask;
    } else {
      hide ProcessTask;
      StartedIsWhole(w);
    }
  }

  lemma StartedIsWhole(w: World)
    requires w.pc == Idle && w.alive && StartTask(w.core).pc == Idle
    ensures var w' := Next(Next(Next(w, TaskStarted), TaskContinued), TaskContinued);
            var o := ProcessTask(w.core);
            w'.core == o.core && w'.pc == Idle && w'.sent == if o.sent.Some? then w.sent + [o.sent.value] else w.sent
  {
    hide StartTask, CheckCompletion, Fetch, Live, Replied, AtEnd;
  }

  lemma CompletionThenFetch(w: World)
    requires w.pc == BeforeCompletion
    ensures var w' := Next(Next(w, TaskContinued), TaskContinued);
            var p := CheckCompletion(w.core);
            var o := if p.pc == Idle then p else Fetch(p.core);
            && w'.core == o.core && w'.pc == Idle
            && w'.sent == if o.sent.Some? then w.sent + [o.sent.value] else w.sent
  {
    hide Live, Replied, RemoveHandler, StartTask;
    if CheckCompletion(w.core).pc != Idle {
      assert Next(w, TaskContinued) == w.(pc := BeforeFetch);
    }
  }

  // ----- Nothing stands in the way of delivery -----

  /** Connected, nothing under way, nothing gone wrong, and the whole input read. */
  ghost predicate Healthy(w: World) {
    && Inv(w) && NoneLive(w) && w.alive && w.pc == Idle && w.eof && !w.completed && !w.aborted
    && w.core.connected && !w.core.inFlight && !w.core.failed && w.core.request.None?
  }

  function OneTask(): seq<Event> {
    [TaskStarted, TaskContinued, TaskContinued]
  }

  lemma {:induction false} RunConcat(w: World, es: seq<Event>, fs: seq<Event>)
    ensures Run(w, es + fs) == Run(Run(w, es), fs)
  {
    if fs == [] {
      assert es + fs == es;
    } else {
      RunConcat(w, es, fs[..|fs| - 1]);
      assert (es + fs)[..|es + fs| - 1] == es + fs[..|fs| - 1];
    }
  }

  lemma RunOne(w: World, e: Event)
    ensures Run(w, [e]) == Next(w, e)
  {
    var es := [e];
    assert es[..|es| - 1] == [];
  }

  lemma RunTask(w: World)
    ensures Run(w, OneTask()) == Next(Next(Next(w, TaskStarted), TaskContinued), TaskContinued)
  {
    hide Next;
    RunConcat(w, [TaskStarted], [TaskContinued]);
    RunConcat(w, [TaskStarted, TaskContinued], [TaskContinued]);
    RunOne(w, TaskStarted);
    RunOne(Next(w, TaskStarted), TaskContinued);
    RunOne(Next(Next(w, TaskStarted), TaskContinued), TaskContinued);
    assert [TaskStarted] + [TaskContinued] == [TaskStarted, TaskContinued];
    assert [TaskStarted, TaskContinued] + [TaskContinued] == OneTask();
  }

  /** One task and its acknowledgement move the delivery on by one line. */
  lemma RoundDelivers(w: World)
    requires Healthy(w) && |w.popped| < |w.input|
    ensures var w1 := Next(Next(Next(w, TaskStarted), TaskContinued), TaskContinued);
            var w2 := Next(w1, ReplyArrived(|w.handlers|, false));
            Healthy(w2) && w2.input == w.input && |w2.popped| == |w.popped| + 1
  {
    hide Inv, Next, NoneLive;
    var w1 := Next(Next(Next(w, TaskStarted), TaskContinued), TaskContinued);
    HealthyFront(w);
    RoundSends(w);
    NextInv(w, TaskStarted);
    NextInv(Next(w, TaskStarted), TaskContinued);
    NextInv(Next(Next(w, TaskStarted), TaskContinued), TaskContinued);
    NextInv(w1, ReplyArrived(|w.handlers|, false));
    ReplyToLast(w1, w.handlers, Handler(w.generation, w.input[|w.popped|]));
    LiveFrame(w, Next(w1, ReplyArrived(|w.handlers|, false)));
  }

  lemma RoundSends(w: World)
    requires Healthy(w) && |w.popped| < |w.input|
    ensures var w1 := Next(Next(Next(w, TaskStarted), TaskContinued), TaskContinued);
            && w1.handlers == w.handlers + [Handler(w.generation, w.input[|w.popped|])]
            && w1.core == w.core.(request := Some(w.input[|w.popped|]), inFlight := true)
            && w1.pc == Idle && w1.alive && w1.eof && !w1.completed && !w1.aborted
            && w1.input == w.input && w1.popped == w.popped && w1.generation == w.generation
  {
    HealthyFront(w);
    hide Inv, NoneLive;
    assert Front(w.core.pending) == Some(w.input[|w.popped|]);
  }

  lemma HealthyFront(w: World)
    requires Healthy(w) && |w.popped| < |w.input|
    ensures w.core.pending != [] && w.core.pending[0] == Variables(w.input[|w.popped|])
  {
    QueueFacts(w);
  }

  /** A success for the newest handler, which is live. */
  lemma ReplyToLast(w: World, hs: seq<Handler>, h: Handler)
    requires w.pc == Idle && w.handlers == hs + [h] && Live(w, h) && w.core.pending != []
    ensures var w' := Next(w, ReplyArrived(|hs|, false));
            && w'.core == HandleReply(w.core, false) && w'.popped == w.popped + [w.core.pending[0]]
            && w' == w.(core := w'.core, popped := w'.popped, handlers := hs)
  {
    hide StartTask, CheckCompletion, Fetch, HandleReply, AtEnd;
    assert RemoveHandler(w.handlers, |hs|) == hs;
  }

  lemma LastTaskCompletes(w: World)
    requires Healthy(w) && |w.popped| == |w.input|
    ensures var w' := Next(Next(w, TaskStarted), TaskContinued);
            w'.completed && w'.input == w.input && w'.popped == w.popped
  {
    assert w.input[|w.popped|..] == [];
  }

  /** If nothing goes wrong any more, tasks and acknowledgements deliver everything and end the wait. */
  lemma {:induction false} HealthyDelivers(w: World) returns (es: seq<Event>)
    requires Healthy(w)
    ensures Run(w, es).completed && Run(w, es).input == w.input && Inv(Run(w, es))
    ensures Run(w, es).popped == Wrap(w.input)
    decreases |w.input| - |w.popped|
  {
    if |w.popped| == |w.input| {
      es := [TaskStarted] + [TaskContinued];
      CompletingRun(w);
    } else {
      var w' := OneRound(w);
      var rest := HealthyDelivers(w');
      RunConcat(w, OneTask() + [ReplyArrived(|w.handlers|, false)], rest);
      es := OneTask() + [ReplyArrived(|w.handlers|, false)] + rest;
    }
  }

  lemma CompletingRun(w: World)
    requires Healthy(w) && |w.popped| == |w.input|
    ensures var w' := Run(w, [TaskStarted] + [TaskContinued]);
            w'.completed && w'.input == w.input && Inv(w') && w'.popped == Wrap(w.input)
  {
    LastTaskCompletes(w);
    hide Next;
    RunConcat(w, [TaskStarted], [TaskContinued]);
    RunOne(w, TaskStarted);
    RunOne(Next(w, TaskStarted), TaskContinued);
    NextInv(w, TaskStarted);
    NextInv(Next(w, TaskStarted), TaskContinued);
    assert w.input[..|w.input|] == w.input;
  }

  lemma OneRound(w: World) returns (w': World)
    requires Healthy(w) && |w.popped| < |w.input|
    ensures w' == Run(w, OneTask() + [ReplyArrived(|w.handlers|, false)])
    ensures Healthy(w') && w'.input == w.input && |w'.popped| == |w.popped| + 1
  {
    hide Next;
    var reply := ReplyArrived(|w.handlers|, false);
    RunTask(w);
    RoundDelivers(w);
    RunOne(Run(w, OneTask()), reply);
    RunConcat(w, OneTask(), [reply]);
    w' := Run(w, OneTask() + [reply]);
  }
}
