/**
 Events the program posted itself, remembered for a short time so that they can
 be ignored when they come back. Expired entries are purged from the front only.
 */
module KeyboardSuppressions {
  import opened Types
  import opened Sequences
  import opened EventQueueEntries

  datatype Item = Item(event: Switch, eventType: EventType, expiresAt: int)

  datatype Config = Config(ttl: int, maxSize: nat)

  datatype Op =
    | Enqueue(event: Switch, eventType: EventType, now: int)
    | Consume(event: Switch, eventType: EventType, now: int)
    | PurgeExpired(now: int)

  predicate Ignored(e: Switch) {
    !e.IsValid() || e.IsPointingButton()
  }

  predicate Matches(x: Item, e: Switch, t: EventType) {
    x.event == e && x.eventType == t
  }

  // ----- The deque -----

  function PurgeFront(q: seq<Item>, now: int): seq<Item> {
    if q != [] && q[0].expiresAt <= now then PurgeFront(q[1..], now) else q
  }

  function Excess(size: nat, maxSize: nat): nat {
    if size > maxSize then size - maxSize else 0
  }

  /** The newest `n` entries. */
  function Newest(q: seq<Item>, n: nat): seq<Item> {
    q[Excess(|q|, n)..]
  }

  /** The first index from `i` on whose entry `p` accepts, or the length. */
  function FindFrom(q: seq<Item>, p: Item -> bool, i: nat): (r: nat)
    requires i <= |q|
    ensures i <= r <= |q| && (r < |q| ==> p(q[r])) && forall j :: i <= j < r ==> !p(q[j])
    decreases |q| - i
  {
    if i == |q| || p(q[i]) then i else FindFrom(q, p, i + 1)
  }

  function RemoveFirst(q: seq<Item>, p: Item -> bool): seq<Item> {
    var i := FindFrom(q, p, 0);
    if i == |q| then q else RemoveAt(q, i)
  }

  function Matching(e: Switch, t: EventType): Item -> bool {
    x => Matches(x, e, t)
  }

  function Step(cfg: Config, q: seq<Item>, op: Op): (seq<Item>, bool) {
    match op
    case Enqueue(e, t, now) =>
      if Ignored(e) then (q, false)
      else (Newest(PurgeFront(q, now) + [Item(e, t, now + cfg.ttl)], cfg.maxSize), false)
    case Consume(e, t, now) =>
      var live := PurgeFront(q, now);
      (RemoveFirst(live, Matching(e, t)), FindFrom(live, Matching(e, t), 0) < |live|)
    case PurgeExpired(now) => (PurgeFront(q, now), false)
  }

  class KeyboardSuppression {
    const cfg: Config
    var entries: seq<Item>

    constructor (cfg: Config)
      ensures this.cfg == cfg && entries == []
    {
      this.cfg := cfg;
      entries := [];
    }

    method Purge(now: int)
      modifies this
      ensures entries == PurgeFront(old(entries), now)
    {
      while entries != [] && entries[0].expiresAt <= now
        invariant PurgeFront(entries, now) == PurgeFront(old(entries), now)
        decreases |entries|
      {
        entries := entries[1..];
      }
    }

    method EnqueueEvent(event: Switch, eventType: EventType, now: int)
      modifies this
      ensures entries == Step(cfg, old(entries), Enqueue(event, eventType, now)).0
    {
      if Ignored(event) {
        return;
      }
      Purge(now);
      entries := entries + [Item(event, eventType, now + cfg.ttl)];
      while |entries| > cfg.maxSize
        invariant Newest(entries, cfg.maxSize) ==
                  Newest(PurgeFront(old(entries), now) + [Item(event, eventType, now + cfg.ttl)], cfg.maxSize)
        decreases |entries|
      {
        entries := entries[1..];
      }
    }

    method ConsumeEvent(event: Switch, eventType: EventType, now: int) returns (found: bool)
      modifies this
      ensures (entries, found) == Step(cfg, old(entries), Consume(event, eventType, now))
    {
      Purge(now);
      var i := 0;
      while i < |entries| && !Matches(entries[i], event, eventType)
        invariant i <= |entries| && entries == PurgeFront(old(entries), now)
        invariant FindFrom(entries, Matching(event, eventType), 0) == FindFrom(entries, Matching(event, eventType), i)
      {
        i := i + 1;
      }
      found := i < |entries|;
      if found {
        entries := RemoveAt(entries, i);
      }
    }
  }

  // ----- The ledger: nothing is purged, what has expired is just not looked at -----

  function LiveAt(now: int): Item -> bool {
    (x: Item) => x.expiresAt > now
  }

  function LiveMatching(e: Switch, t: EventType, now: int): Item -> bool {
    (x: Item) => x.expiresAt > now && Matches(x, e, t)
  }

  /** Takes away the oldest `n` live entries. */
  function Evict(ledger: seq<Item>, now: int, n: nat): seq<Item> {
    if n == 0 then ledger else Evict(RemoveFirst(ledger, LiveAt(now)), now, n - 1)
  }

  function LedgerStep(cfg: Config, ledger: seq<Item>, op: Op): (seq<Item>, bool) {
    match op
    case Enqueue(e, t, now) =>
      if Ignored(e) then (ledger, false)
      else
        var more := ledger + [Item(e, t, now + cfg.ttl)];
        (Evict(more, now, Excess(|Filter(more, LiveAt(now))|, cfg.maxSize)), false)
    case Consume(e, t, now) =>
      (RemoveFirst(ledger, LiveMatching(e, t, now)),
       FindFrom(ledger, LiveMatching(e, t, now), 0) < |ledger|)
    case PurgeExpired(now) => (ledger, false)
  }

  function Deque(cfg: Config, ops: seq<Op>): seq<Item> {
    if ops == [] then [] else Step(cfg, Deque(cfg, ops[..|ops| - 1]), ops[|ops| - 1]).0
  }

  function Ledger(cfg: Config, ops: seq<Op>): seq<Item> {
    if ops == [] then [] else LedgerStep(cfg, Ledger(cfg, ops[..|ops| - 1]), ops[|ops| - 1]).0
  }

  ghost predicate ClockNeverRunsBack(ops: seq<Op>) {
    forall i, j :: 0 <= i <= j < |ops| ==> ops[i].now <= ops[j].now
  }

  // ----- The invariant: the deque is the ledger without a dead front -----

  ghost predicate ByExpiry(q: seq<Item>) {
    forall i, j :: 0 <= i <= j < |q| ==> q[i].expiresAt <= q[j].expiresAt
  }

  ghost predicate AllDead(s: seq<Item>, now: int) {
    forall x :: x in s ==> x.expiresAt <= now
  }

  ghost predicate Agrees(cfg: Config, ledger: seq<Item>, dead: seq<Item>, q: seq<Item>, now: int) {
    && ledger == dead + q && AllDead(dead, now) && ByExpiry(q) && |q| <= cfg.maxSize
    && forall x :: x in q ==> x.expiresAt <= now + cfg.ttl
  }

  lemma {:induction false} PurgeSplits(q: seq<Item>, now: int) returns (n: nat)
    requires ByExpiry(q)
    ensures n <= |q| && PurgeFront(q, now) == q[n..] && AllDead(q[..n], now)
    ensures forall x :: x in q[n..] ==> x.expiresAt > now
  {
    if q != [] && q[0].expiresAt <= now {
      var m := PurgeSplits(q[1..], now);
      n := m + 1;
      assert q[1..][m..] == q[n..];
      assert q[..n] == [q[0]] + q[1..][..m];
    } else {
      n := 0;
    }
  }

  lemma {:induction false} DeadFilter(s: seq<Item>, now: int)
    requires AllDead(s, now)
    ensures Filter(s, LiveAt(now)) == []
  {
    if s != [] {
      DeadFilter(s[..|s| - 1], now);
    }
  }

  lemma {:induction false} LiveFilter(s: seq<Item>, now: int)
    requires forall x :: x in s ==> x.expiresAt > now
    ensures Filter(s, LiveAt(now)) == s
  {
    if s != [] {
      LiveFilter(s[..|s| - 1], now);
    }
  }

  lemma LiveSuffix(dead: seq<Item>, q: seq<Item>, now: int)
    requires AllDead(dead, now) && forall x :: x in q ==> x.expiresAt > now
    ensures Filter(dead + q, LiveAt(now)) == q
  {
    FilterAppend(dead, q, LiveAt(now));
    DeadFilter(dead, now);
    LiveFilter(q, now);
    assert [] + q == q;
  }

  lemma {:induction false} FindSkips(dead: seq<Item>, q: seq<Item>, p: Item -> bool, i: nat)
    requires i <= |dead| && forall x :: x in dead ==> !p(x)
    ensures FindFrom(dead + q, p, i) == |dead| + FindFrom(q, p, 0)
    decreases |dead| - i
  {
    if i < |dead| {
      assert (dead + q)[i] in dead;
      FindSkips(dead, q, p, i + 1);
    } else {
      FindShifted(dead, q, p, 0);
    }
  }

  lemma {:induction false} FindShifted(dead: seq<Item>, q: seq<Item>, p: Item -> bool, i: nat)
    requires i <= |q|
    ensures FindFrom(dead + q, p, |dead| + i) == |dead| + FindFrom(q, p, i)
    decreases |q| - i
  {
    if i < |q| && !p(q[i]) {
      FindShifted(dead, q, p, i + 1);
    }
  }

  lemma {:induction false} FindSame(q: seq<Item>, p: Item -> bool, r: Item -> bool, i: nat)
    requires i <= |q| && forall x :: x in q ==> p(x) == r(x)
    ensures FindFrom(q, p, i) == FindFrom(q, r, i)
    decreases |q| - i
  {
    if i < |q| && !p(q[i]) {
      FindSame(q, p, r, i + 1);
    }
  }

  lemma RemoveSkips(dead: seq<Item>, q: seq<Item>, p: Item -> bool)
    requires forall x :: x in dead ==> !p(x)
    ensures RemoveFirst(dead + q, p) == dead + RemoveFirst(q, p)
  {
    hide FindFrom;
    FindSkips(dead, q, p, 0);
    var i := FindFrom(q, p, 0);
    if i < |q| {
      assert RemoveAt(dead + q, |dead| + i) == dead + RemoveAt(q, i);
    }
  }

  lemma DropOldestLive(dead: seq<Item>, q: seq<Item>, now: int)
    requires AllDead(dead, now) && q != [] && q[0].expiresAt > now
    ensures RemoveFirst(dead + q, LiveAt(now)) == dead + q[1..]
  {
    RemoveSkips(dead, q, LiveAt(now));
    assert RemoveAt(q, 0) == q[1..];
  }

  lemma {:induction false} EvictSkips(dead: seq<Item>, q: seq<Item>, now: int, n: nat)
    requires AllDead(dead, now) && (forall i :: 0 <= i < |q| ==> q[i].expiresAt > now) && n <= |q|
    ensures Evict(dead + q, now, n) == dead + q[n..]
    decreases n
  {
    if n == 0 {
      assert q[0..] == q;
    } else {
      DropOldestLive(dead, q, now);
      hide RemoveFirst, AllDead;
      EvictSkips(dead, q[1..], now, n - 1);
      assert q[1..][n - 1..] == q[n..];
    }
  }

  /** One operation: both sides answer alike and stay in agreement. */
  lemma StepAgrees(cfg: Config, ledger: seq<Item>, dead: seq<Item>, q: seq<Item>, last: int, op: Op)
    returns (dead': seq<Item>)
    requires cfg.ttl > 0 && Agrees(cfg, ledger, dead, q, last) && last <= op.now
    ensures Agrees(cfg, LedgerStep(cfg, ledger, op).0, dead', Step(cfg, q, op).0, op.now)
    ensures LedgerStep(cfg, ledger, op).1 == Step(cfg, q, op).1
    ensures !(op.Enqueue? && Ignored(op.event)) ==>
              Filter(LedgerStep(cfg, ledger, op).0, LiveAt(op.now)) == Step(cfg, q, op).0
  {
    if op.Enqueue? && Ignored(op.event) {
      dead' := dead;
      AgreesLater(cfg, ledger, dead, q, last, op.now);
    } else {
      dead' := AcceptedAgrees(cfg, ledger, dead, q, last, op);
    }
  }

  lemma AcceptedAgrees(cfg: Config, ledger: seq<Item>, dead: seq<Item>, q: seq<Item>, last: int, op: Op)
    returns (dead': seq<Item>)
    requires cfg.ttl > 0 && Agrees(cfg, ledger, dead, q, last) && last <= op.now && Accepted(op)
    ensures Agrees(cfg, LedgerStep(cfg, ledger, op).0, dead', Step(cfg, q, op).0, op.now)
    ensures LedgerStep(cfg, ledger, op).1 == Step(cfg, q, op).1
    ensures Filter(LedgerStep(cfg, ledger, op).0, LiveAt(op.now)) == Step(cfg, q, op).0
  {
    var n := PurgeSplits(q, op.now);
    dead' := dead + q[..n];
    var live := PurgeFront(q, op.now);
    DeadGrows(cfg, ledger, dead, q, last, op.now, n);
    hide *;
    match op {
      case Enqueue(_, _, _) => EnqueueStepAgrees(cfg, ledger, dead', q, op);
      case Consume(_, _, _) => ConsumeStepAgrees(cfg, ledger, dead', q, op);
      case PurgeExpired(_) => PurgeStepAgrees(cfg, ledger, dead', q, op);
    }
  }

  lemma EnqueueStepAgrees(cfg: Config, ledger: seq<Item>, dead: seq<Item>, q: seq<Item>, op: Op)
    requires cfg.ttl > 0 && op.Enqueue? && !Ignored(op.event)
    requires Agrees(cfg, ledger, dead, PurgeFront(q, op.now), op.now)
    requires forall x :: x in PurgeFront(q, op.now) ==> x.expiresAt > op.now
    ensures Agrees(cfg, LedgerStep(cfg, ledger, op).0, dead, Step(cfg, q, op).0, op.now)
    ensures LedgerStep(cfg, ledger, op).1 == Step(cfg, q, op).1
    ensures Filter(LedgerStep(cfg, ledger, op).0, LiveAt(op.now)) == Step(cfg, q, op).0
  {
    EnqueueAgrees(cfg, ledger, dead, PurgeFront(q, op.now), op);
  }

  lemma ConsumeStepAgrees(cfg: Config, ledger: seq<Item>, dead: seq<Item>, q: seq<Item>, op: Op)
    requires cfg.ttl > 0 && op.Consume?
    requires Agrees(cfg, ledger, dead, PurgeFront(q, op.now), op.now)
    requires forall x :: x in PurgeFront(q, op.now) ==> x.expiresAt > op.now
    ensures Agrees(cfg, LedgerStep(cfg, ledger, op).0, dead, Step(cfg, q, op).0, op.now)
    ensures LedgerStep(cfg, ledger, op).1 == Step(cfg, q, op).1
    ensures Filter(LedgerStep(cfg, ledger, op).0, LiveAt(op.now)) == Step(cfg, q, op).0
  {
    ConsumeAgrees(cfg, ledger, dead, PurgeFront(q, op.now), op);
  }

  lemma PurgeStepAgrees(cfg: Config, ledger: seq<Item>, dead: seq<Item>, q: seq<Item>, op: Op)
    requires op.PurgeExpired?
    requires Agrees(cfg, ledger, dead, PurgeFront(q, op.now), op.now)
    requires forall x :: x in PurgeFront(q, op.now) ==> x.expiresAt > op.now
    ensures Agrees(cfg, LedgerStep(cfg, ledger, op).0, dead, Step(cfg, q, op).0, op.now)
    ensures LedgerStep(cfg, ledger, op).1 == Step(cfg, q, op).1
    ensures Filter(LedgerStep(cfg, ledger, op).0, LiveAt(op.now)) == Step(cfg, q, op).0
  {
    LiveOfAgreeing(cfg, ledger, dead, PurgeFront(q, op.now), op.now);
  }

  lemma AgreesLater(cfg: Config, ledger: seq<Item>, dead: seq<Item>, q: seq<Item>, last: int, now: int)
    requires Agrees(cfg, ledger, dead, q, last) && last <= now
    ensures Agrees(cfg, ledger, dead, q, now)
  {
  }

  lemma DeadGrows(cfg: Config, ledger: seq<Item>, dead: seq<Item>, q: seq<Item>, last: int, now: int, n: nat)
    requires Agrees(cfg, ledger, dead, q, last) && last <= now && n <= |q| && AllDead(q[..n], now)
    ensures Agrees(cfg, ledger, dead + q[..n], q[n..], now)
  {
    var front, back := q[..n], q[n..];
    assert q == front + back;
    assert ledger == (dead + front) + back;
    assert AllDead(dead + front, now);
    assert ByExpiry(back);
    assert forall x :: x in back ==> x in q;
  }

  lemma LiveOfAgreeing(cfg: Config, ledger: seq<Item>, dead: seq<Item>, live: seq<Item>, now: int)
    requires Agrees(cfg, ledger, dead, live, now) && forall x :: x in live ==> x.expiresAt > now
    ensures Filter(ledger, LiveAt(now)) == live
  {
    LiveSuffix(dead, live, now);
  }

  /** What the ledger does when an event is accepted: the oldest live entries make room. */
  lemma LedgerEnqueues(cfg: Config, ledger: seq<Item>, dead: seq<Item>, live: seq<Item>, op: Op)
    requires cfg.ttl > 0 && op.Enqueue? && !Ignored(op.event)
    requires ledger == dead + live && AllDead(dead, op.now) && forall x :: x in live ==> x.expiresAt > op.now
    ensures LedgerStep(cfg, ledger, op).0 ==
            dead + Newest(live + [Item(op.event, op.eventType, op.now + cfg.ttl)], cfg.maxSize)
  {
    var item := Item(op.event, op.eventType, op.now + cfg.ttl);
    var more := live + [item];
    assert LedgerStep(cfg, ledger, op).0 ==
           Evict(ledger + [item], op.now, Excess(|Filter(ledger + [item], LiveAt(op.now))|, cfg.maxSize));
    hide LedgerStep, Evict, Filter, AllDead;
    AppendAssoc(dead, live, item);
    forall x | x in more ensures x.expiresAt > op.now {
      assert x in live || x == item;
    }
    LiveSuffix(dead, more, op.now);
    forall i | 0 <= i < |more| ensures more[i].expiresAt > op.now {
      assert more[i] in more;
    }
    EvictSkips(dead, more, op.now, Excess(|more|, cfg.maxSize));
  }

  lemma EnqueueAgrees(cfg: Config, ledger: seq<Item>, dead: seq<Item>, live: seq<Item>, op: Op)
    requires cfg.ttl > 0 && op.Enqueue? && !Ignored(op.event)
    requires Agrees(cfg, ledger, dead, live, op.now) && forall x :: x in live ==> x.expiresAt > op.now
    ensures var q := Newest(live + [Item(op.event, op.eventType, op.now + cfg.ttl)], cfg.maxSize);
            && Agrees(cfg, LedgerStep(cfg, ledger, op).0, dead, q, op.now)
            && Filter(LedgerStep(cfg, ledger, op).0, LiveAt(op.now)) == q
  {
    LedgerEnqueues(cfg, ledger, dead, live, op);
    var item := Item(op.event, op.eventType, op.now + cfg.ttl);
    var more := live + [item];
    NewestSorted(live, item, Excess(|more|, cfg.maxSize));
    hide LedgerStep, ByExpiry, Filter, AllDead;
    assert Agrees(cfg, LedgerStep(cfg, ledger, op).0, dead, Newest(more, cfg.maxSize), op.now);
    LiveSuffix(dead, Newest(more, cfg.maxSize), op.now);
  }

  lemma NewestSorted(live: seq<Item>, item: Item, drop: nat)
    requires ByExpiry(live) && drop <= |live + [item]| && forall x :: x in live ==> x.expiresAt <= item.expiresAt
    ensures ByExpiry((live + [item])[drop..])
    ensures forall x :: x in (live + [item])[drop..] ==> x in live || x == item
  {
    var more := live + [item];
    forall i, j | 0 <= i <= j < |more| ensures more[i].expiresAt <= more[j].expiresAt {
      if i < |live| {
        assert more[i] in live;
      }
    }
  }

  lemma ConsumeAgrees(cfg: Config, ledger: seq<Item>, dead: seq<Item>, live: seq<Item>, op: Op)
    requires cfg.ttl > 0 && op.Consume?
    requires Agrees(cfg, ledger, dead, live, op.now) && forall x :: x in live ==> x.expiresAt > op.now
    ensures var p := Matching(op.event, op.eventType);
            && Agrees(cfg, LedgerStep(cfg, ledger, op).0, dead, RemoveFirst(live, p), op.now)
            && LedgerStep(cfg, ledger, op).1 == (FindFrom(live, p, 0) < |live|)
            && Filter(LedgerStep(cfg, ledger, op).0, LiveAt(op.now)) == RemoveFirst(live, p)
  {
    var p, r := Matching(op.event, op.eventType), LiveMatching(op.event, op.eventType, op.now);
    FindSame(live, p, r, 0);
    FindSkips(dead, live, r, 0);
    RemoveSkips(dead, live, r);
    RemovedSorted(live, p);
    hide ByExpiry, FindFrom;
    LiveSuffix(dead, RemoveFirst(live, p), op.now);
  }

  lemma RemovedSorted(live: seq<Item>, p: Item -> bool)
    requires ByExpiry(live)
    ensures ByExpiry(RemoveFirst(live, p)) && |RemoveFirst(live, p)| <= |live|
    ensures forall x :: x in RemoveFirst(live, p) ==> x in live
  {
    hide FindFrom;
    var i := FindFrom(live, p, 0);
    if i < |live| {
      assert forall j :: 0 <= j < |live| - 1 ==> RemoveAt(live, i)[j] == live[if j < i then j else j + 1];
    }
  }

  lemma {:induction false} RunAgrees(cfg: Config, ops: seq<Op>, last: int) returns (dead: seq<Item>)
    requires cfg.ttl > 0 && ClockNeverRunsBack(ops)
    requires ops != [] ==> last == ops[|ops| - 1].now
    ensures Agrees(cfg, Ledger(cfg, ops), dead, Deque(cfg, ops), last)
  {
    if ops == [] {
      dead := [];
    } else {
      var before, op := ops[..|ops| - 1], ops[|ops| - 1];
      var l := if before == [] then op.now else before[|before| - 1].now;
      var d := RunAgrees(cfg, before, l);
      dead := StepAgrees(cfg, Ledger(cfg, before), d, Deque(cfg, before), l, op);
    }
  }

  ghost predicate Accepted(op: Op) {
    !(op.Enqueue? && Ignored(op.event))
  }

  /** After an accepted operation the deque holds exactly the live entries of the ledger. */
  ghost predicate Exact(cfg: Config) {
    forall ops, op :: ClockNeverRunsBack(ops + [op]) && Accepted(op) ==>
      Deque(cfg, ops + [op]) == Filter(Ledger(cfg, ops + [op]), LiveAt(op.now))
  }

  /**
   Purging only from the front is exact in every run, and a consume succeeds
   exactly if the ledger has a live matching entry.
   */
  lemma PurgingIsExact(cfg: Config, ops: seq<Op>, op: Op)
    requires cfg.ttl > 0 && ClockNeverRunsBack(ops + [op])
    ensures Accepted(op) ==> Deque(cfg, ops + [op]) == Filter(Ledger(cfg, ops + [op]), LiveAt(op.now))
    ensures Step(cfg, Deque(cfg, ops), op).1 == LedgerStep(cfg, Ledger(cfg, ops), op).1
    ensures |Deque(cfg, ops + [op])| <= cfg.maxSize
  {
    var all := ops + [op];
    assert all[..|all| - 1] == ops;
    assert ClockNeverRunsBack(ops) by {
      assert forall i :: 0 <= i < |ops| ==> ops[i] == all[i];
    }
    var last := if ops == [] then op.now else ops[|ops| - 1].now;
    assert ops != [] ==> all[|ops| - 1].now <= all[|ops|].now;
    var dead := RunAgrees(cfg, ops, last);
    var dead' := StepAgrees(cfg, Ledger(cfg, ops), dead, Deque(cfg, ops), last, op);
  }

  lemma {:induction false} NoRoomNoEntries(cfg: Config, ops: seq<Op>)
    requires cfg.maxSize == 0
    ensures Deque(cfg, ops) == []
  {
    if ops != [] {
      NoRoomNoEntries(cfg, ops[..|ops| - 1]);
    }
  }

  /** Without a time to live the ledger holds nothing that is still live. */
  lemma {:induction false} LedgerIsDead(cfg: Config, ops: seq<Op>, now: int)
    requires cfg.ttl <= 0 && ClockNeverRunsBack(ops) && forall op :: op in ops ==> op.now <= now
    ensures AllDead(Ledger(cfg, ops), now)
  {
    if ops != [] {
      var before, op := ops[..|ops| - 1], ops[|ops| - 1];
      assert op in ops && forall o :: o in before ==> o in ops;
      LedgerIsDead(cfg, before, op.now);
      DeadStep(cfg, Ledger(cfg, before), op);
    }
  }

  lemma DeadStep(cfg: Config, ledger: seq<Item>, op: Op)
    requires cfg.ttl <= 0 && AllDead(ledger, op.now)
    ensures AllDead(LedgerStep(cfg, ledger, op).0, op.now)
  {
    if op.Enqueue? {
      DeadFilter(ledger + [Item(op.event, op.eventType, op.now + cfg.ttl)], op.now);
    } else if op.Consume? {
      RemovedItems(ledger, LiveMatching(op.event, op.eventType, op.now));
    }
  }

  lemma RemovedItems(s: seq<Item>, p: Item -> bool)
    ensures forall x :: x in RemoveFirst(s, p) ==> x in s
  {
  }

  /** Exact in all runs exactly if entries live at all, or there is no room for any. */
  lemma ExactIff(cfg: Config)
    ensures Exact(cfg) <==> cfg.ttl > 0 || cfg.maxSize == 0
  {
    if cfg.ttl > 0 || cfg.maxSize == 0 {
      forall ops, op | ClockNeverRunsBack(ops + [op]) && Accepted(op)
        ensures Deque(cfg, ops + [op]) == Filter(Ledger(cfg, ops + [op]), LiveAt(op.now))
      {
        if cfg.ttl > 0 {
          PurgingIsExact(cfg, ops, op);
        } else {
          NoRoomIsExact(cfg, ops, op);
        }
      }
    } else {
      BornDead(cfg);
    }
  }

  lemma NoRoomIsExact(cfg: Config, ops: seq<Op>, op: Op)
    requires cfg.ttl <= 0 && cfg.maxSize == 0 && ClockNeverRunsBack(ops + [op])
    ensures Deque(cfg, ops + [op]) == Filter(Ledger(cfg, ops + [op]), LiveAt(op.now))
  {
    var all := ops + [op];
    forall o | o in all ensures o.now <= op.now {
      var i :| 0 <= i < |all| && all[i] == o;
      assert all[i].now <= all[|all| - 1].now;
    }
    hide Filter, Deque, Ledger;
    NoRoomNoEntries(cfg, all);
    LedgerIsDead(cfg, all, op.now);
    DeadFilter(Ledger(cfg, all), op.now);
  }

  lemma BornDead(cfg: Config)
    requires cfg.ttl <= 0 && cfg.maxSize > 0
    ensures !Exact(cfg)
  {
    var op := Enqueue(Switch(KEYBOARD_OR_KEYPAD, 0x04), KeyDown, 0);
    var ops := [] + [op];
    assert ops[..|ops| - 1] == [];
    var item := Item(op.event, op.eventType, cfg.ttl);
    assert [] + [item] == [item];
    assert Deque(cfg, ops) == [item];
    FilterOne(item, LiveAt(0));
    assert Ledger(cfg, ops) == [item];
    assert ClockNeverRunsBack(ops) && Accepted(op);
  }

  // ----- Every accepted enqueue answers at most one consume -----

  function CountItems(q: seq<Item>, e: Switch, t: EventType): nat {
    |Filter(q, Matching(e, t))|
  }

  function Enqueued(ops: seq<Op>, e: Switch, t: EventType): nat {
    if ops == [] then 0
    else
      var op := ops[|ops| - 1];
      Enqueued(ops[..|ops| - 1], e, t) +
      if op.Enqueue? && !Ignored(op.event) && op.event == e && op.eventType == t then 1 else 0
  }

  function Answered(cfg: Config, ops: seq<Op>, e: Switch, t: EventType): nat {
    if ops == [] then 0
    else
      var op := ops[|ops| - 1];
      Answered(cfg, ops[..|ops| - 1], e, t) +
      if op.Consume? && op.event == e && op.eventType == t && Step(cfg, Deque(cfg, ops[..|ops| - 1]), op).1
      then 1 else 0
  }

  lemma {:induction false} PurgeIsSuffix(q: seq<Item>, now: int) returns (n: nat)
    ensures n <= |q| && PurgeFront(q, now) == q[n..]
  {
    n := 0;
    if q != [] && q[0].expiresAt <= now {
      var m := PurgeIsSuffix(q[1..], now);
      n := m + 1;
      assert q[1..][m..] == q[n..];
    }
  }

  lemma SuffixCount(q: seq<Item>, n: nat, e: Switch, t: EventType)
    requires n <= |q|
    ensures CountItems(q[n..], e, t) <= CountItems(q, e, t)
  {
    assert q == q[..n] + q[n..];
    FilterAppend(q[..n], q[n..], Matching(e, t));
  }

  lemma RemoveCount(q: seq<Item>, e: Switch, t: EventType, f: Switch, u: EventType)
    ensures var i := FindFrom(q, Matching(f, u), 0);
            CountItems(RemoveFirst(q, Matching(f, u)), e, t) +
            (if i < |q| && e == f && t == u then 1 else 0) == CountItems(q, e, t)
  {
    var i := FindFrom(q, Matching(f, u), 0);
    if i < |q| {
      if e == f && t == u {
        FilterAround(q, i, Matching(e, t));
      } else {
        FilterRemoveAt(q, i, Matching(e, t));
      }
    }
  }

  /** In any run whatsoever, a key is answered at most as often as it was accepted. */
  lemma {:induction false} AnswersAreBacked(cfg: Config, ops: seq<Op>, e: Switch, t: EventType)
    ensures CountItems(Deque(cfg, ops), e, t) + Answered(cfg, ops, e, t) <= Enqueued(ops, e, t)
  {
    if ops != [] {
      var before, op := ops[..|ops| - 1], ops[|ops| - 1];
      AnswersAreBacked(cfg, before, e, t);
      StepBacked(cfg, Deque(cfg, before), op, e, t);
    }
  }

  lemma StepBacked(cfg: Config, q: seq<Item>, op: Op, e: Switch, t: EventType)
    ensures var r := Step(cfg, q, op);
            CountItems(r.0, e, t) +
            (if op.Consume? && op.event == e && op.eventType == t && r.1 then 1 else 0) <=
            CountItems(q, e, t) +
            (if op.Enqueue? && !Ignored(op.event) && op.event == e && op.eventType == t then 1 else 0)
  {
    var n := PurgeIsSuffix(q, op.now);
    SuffixCount(q, n, e, t);
    var live := q[n..];
    if op.Enqueue? && !Ignored(op.event) {
      var item := Item(op.event, op.eventType, op.now + cfg.ttl);
      FilterSnoc(live, item, Matching(e, t));
      var more := live + [item];
      SuffixCount(more, Excess(|more|, cfg.maxSize), e, t);
    } else if op.Consume? {
      RemoveCount(live, e, t, op.event, op.eventType);
    }
  }

  // ----- What is accepted, and for how long -----

  /** Undefined switches and pointing buttons are not enqueued, and purge nothing; everything else is answered once. */
  lemma IgnoredLeaveNoTrace(cfg: Config, q: seq<Item>, e: Switch, t: EventType, now: int)
    ensures e.page == 0 || e.usage == 0 || e.page == 0x09 ==> Step(cfg, q, Enqueue(e, t, now)).0 == q
  {
  }

  /** Whatever the deque holds, an accepted event is answered until its time to live is over. */
  lemma AcceptedIsAnswered(cfg: Config, q: seq<Item>, e: Switch, t: EventType, now: int, later: int)
    requires e.page != 0 && e.usage != 0 && e.page != 0x09 && cfg.maxSize > 0
    requires later < now + cfg.ttl
    ensures Step(cfg, Step(cfg, q, Enqueue(e, t, now)).0, Consume(e, t, later)).1
  {
    var item := Item(e, t, now + cfg.ttl);
    var q' := Step(cfg, q, Enqueue(e, t, now)).0;
    assert q' != [] && q'[|q'| - 1] == item;
    var n := PurgeIsSuffix(q', later);
    PurgeKeepsLive(q', later, item);
    hide PurgeFront;
    var live := PurgeFront(q', later);
    assert live[|live| - 1] == item;
  }

  lemma {:induction false} PurgeKeepsLive(q: seq<Item>, now: int, item: Item)
    requires q != [] && q[|q| - 1] == item && item.expiresAt > now
    ensures var r := PurgeFront(q, now); r != [] && r[|r| - 1] == item
  {
    if q[0].expiresAt <= now {
      PurgeKeepsLive(q[1..], now, item);
    }
  }

  /** Alone in the deque it is answered for its own key and type only, before its time is over, and not twice. */
  lemma AnsweredOnceAndInTime(cfg: Config, e: Switch, t: EventType, now: int, f: Switch, u: EventType, later: int)
    requires e.page != 0 && e.usage != 0 && e.page != 0x09 && cfg.maxSize > 0
    ensures var q := Step(cfg, [], Enqueue(e, t, now)).0;
            var r := Step(cfg, q, Consume(f, u, later));
            && (r.1 <==> f == e && u == t && later < now + cfg.ttl)
            && (r.1 ==> r.0 == [])
  {
    var item := Item(e, t, now + cfg.ttl);
    assert Step(cfg, [], Enqueue(e, t, now)).0 == [item];
    assert [item][1..] == [];
    assert PurgeFront([item], later) == if item.expiresAt <= later then [] else [item];
  }
}
