/** What a scope achieves while it lives, and that it leaves no trace afterwards. */
module ScopeTheorems {
  import opened Types
  import opened ActiveModifierFlags
  import opened ModifierFlagLists
  import opened Sequences
  import opened ModifierFlagManagers
  import opened ScopedModifierFlags

  // ----- Lock entries, the only ones that saturate -----

  /** The signs of the lock entries of a flag, in list order. */
  function LockSigns(s: seq<ActiveFlag>, m: ModifierFlag): seq<int> {
    if s == [] then []
    else
      var f := s[|s| - 1];
      var signs := LockSigns(s[..|s| - 1], m);
      if f.flag == m && f.Kind() == Lock then signs + [f.Count()] else signs
  }

  function Negated(signs: seq<int>): seq<int> {
    if signs == [] then [] else Negated(signs[..|signs| - 1]) + [-signs[|signs| - 1]]
  }

  /** A counter that saturates at -1 and 1 after every step. */
  function Saturate(c: int, signs: seq<int>): int {
    if signs == [] then c else Clamp(Saturate(c, signs[..|signs| - 1]) + signs[|signs| - 1], -1, 1)
  }

  lemma NegatedOne(signs: seq<int>, x: int)
    ensures Negated(signs + [x]) == Negated(signs) + [-x]
  {
    assert (signs + [x])[..|signs + [x]| - 1] == signs;
  }

  lemma SaturateOne(c: int, signs: seq<int>, x: int)
    ensures Saturate(c, signs + [x]) == Clamp(Saturate(c, signs) + x, -1, 1)
  {
    assert (signs + [x])[..|signs + [x]| - 1] == signs;
  }

  function ScopeKey(kind: FlagKind, m: ModifierFlag): CounterKey {
    CounterKey(kind, m, 0)
  }

  /** What is left of the lock entries of a flag once all their inverses went to device 0. */
  function LockResidue(s: seq<ActiveFlag>, m: ModifierFlag): int {
    var own := Counter(s, ScopeKey(Lock, m));
    Sum(s, m, Lock) - own + Saturate(own, Negated(LockSigns(s, m)))
  }

  /** The lock counter of device 0 survives being run down and up again. */
  predicate LocksRestored(s: seq<ActiveFlag>, m: ModifierFlag) {
    var own := Counter(s, ScopeKey(Lock, m));
    Saturate(Saturate(own, Negated(LockSigns(s, m))), LockSigns(s, m)) == own
  }

  // ----- Forcing one flag off -----

  /** What undoing one entry on device 0 does to the counter of its flag and kind there. */
  lemma UndoStep(c: int, f: ActiveFlag, kind: FlagKind)
    ensures StepCounter(c, PushFlag(MakeActiveFlag(f.ty.Inverse(), f.flag, 0)), ScopeKey(kind, f.flag)) ==
            if f.Kind() != kind then c
            else if kind == Lock then Clamp(c - f.Count(), -1, 1)
            else if kind == LedLock then (if f.Count() < 0 then 1 else 0)
            else c - f.Count()
  {
  }

  /** One more entry in the copied list, and what its inverse does. */
  lemma InversesOne(t: seq<ActiveFlag>, f: ActiveFlag, c: int, m: ModifierFlag, kind: FlagKind)
    ensures var before := PushAllCounter(c, Inverses(t, m), ScopeKey(kind, m));
            PushAllCounter(c, Inverses(t + [f], m), ScopeKey(kind, m)) ==
            if f.flag != m || f.Kind() != kind then before
            else if kind == Lock then Clamp(before - f.Count(), -1, 1)
            else if kind == LedLock then (if f.Count() < 0 then 1 else 0)
            else before - f.Count()
  {
    InversesSnoc(t, f, m);
    hide Inverses, PushAllCounter, StepCounter, MakeActiveFlag;
    if f.flag == m {
      var u := MakeActiveFlag(f.ty.Inverse(), m, 0);
      CounterOne(c, Inverses(t, m), u, ScopeKey(kind, m));
      UndoStep(PushAllCounter(c, Inverses(t, m), ScopeKey(kind, m)), f, kind);
    }
  }

  lemma LockSignsOne(t: seq<ActiveFlag>, f: ActiveFlag, m: ModifierFlag)
    ensures LockSigns(t + [f], m) ==
            if f.flag == m && f.Kind() == Lock then LockSigns(t, m) + [f.Count()] else LockSigns(t, m)
  {
    assert (t + [f])[..|t + [f]| - 1] == t;
  }

  lemma InversesLockOne(t: seq<ActiveFlag>, f: ActiveFlag, c: int, m: ModifierFlag)
    requires PushAllCounter(c, Inverses(t, m), ScopeKey(Lock, m)) == Saturate(c, Negated(LockSigns(t, m)))
    ensures PushAllCounter(c, Inverses(t + [f], m), ScopeKey(Lock, m)) == Saturate(c, Negated(LockSigns(t + [f], m)))
  {
    hide *;
    InversesOne(t, f, c, m, Lock);
    LockSignsOne(t, f, m);
    NegatedOne(LockSigns(t, m), f.Count());
    SaturateOne(c, Negated(LockSigns(t, m)), -f.Count());
  }

  lemma {:induction false} InversesLock(s: seq<ActiveFlag>, c: int, m: ModifierFlag)
    ensures PushAllCounter(c, Inverses(s, m), ScopeKey(Lock, m)) == Saturate(c, Negated(LockSigns(s, m)))
  {
    if s == [] {
    } else {
      var t, f := s[..|s| - 1], s[|s| - 1];
      assert s == t + [f];
      InversesLock(t, c, m);
      InversesLockOne(t, f, c, m);
    }
  }

  lemma {:induction false} InversesAdditive(s: seq<ActiveFlag>, c: int, m: ModifierFlag, kind: FlagKind)
    requires kind == Plain || kind == Sticky
    ensures PushAllCounter(c, Inverses(s, m), ScopeKey(kind, m)) == c - Sum(s, m, kind)
  {
    if s != [] {
      var t, f := s[..|s| - 1], s[|s| - 1];
      assert s == t + [f];
      InversesAdditive(t, c, m, kind);
      InversesOne(t, f, c, m, kind);
      hide Inverses, PushAllCounter;
    }
  }

  /** The LED counter ends at 0 if an LED entry is undone, and stays put otherwise. */
  lemma {:induction false} InversesLed(s: seq<ActiveFlag>, c: int, m: ModifierFlag)
    requires forall f :: f in s ==> f.ty != DecreaseLedLock
    ensures PushAllCounter(c, Inverses(s, m), ScopeKey(LedLock, m)) ==
            if exists f :: f in s && f.flag == m && f.IsLedLock() then 0 else c
  {
    if s != [] {
      var t, f := s[..|s| - 1], s[|s| - 1];
      assert s == t + [f];
      assert forall g :: g in s <==> g in t || g == f;
      InversesLed(t, c, m);
      InversesOne(t, f, c, m, LedLock);
      hide Inverses, PushAllCounter;
    }
  }

  lemma LedEntryIffCounter(s: seq<ActiveFlag>, m: ModifierFlag)
    requires Canonical(s)
    ensures (exists f :: f in s && f.flag == m && f.IsLedLock()) <==> Counter(s, ScopeKey(LedLock, m)) == 1
    ensures Counter(s, ScopeKey(LedLock, m)) == 0 || Counter(s, ScopeKey(LedLock, m)) == 1
    ensures forall f :: f in s ==> f.ty != DecreaseLedLock
  {
    forall f | f in s ensures f.ty != DecreaseLedLock {
      assert Storable(f, multiset(s)[f]);
    }
    if f :| f in s && f.flag == m && f.IsLedLock() {
      assert Storable(f, multiset(s)[f]);
      LockMember(s, f);
    }
    LockMember(s, ActiveFlag(IncreaseLedLock, m, 0));
    CanonicalAt(s, ScopeKey(LedLock, m));
  }

  /** Pushes on device 0 move the sums of their flag as far as the counters of device 0. */
  lemma {:induction false} PushAllSum(s: seq<ActiveFlag>, ps: seq<ActiveFlag>, m: ModifierFlag, kind: FlagKind)
    requires Canonical(s) && ScopeEntries(ps)
    ensures Sum(PushAll(s, ps), m, kind) - Sum(s, m, kind) ==
            PushAllCounter(Counter(s, ScopeKey(kind, m)), ps, ScopeKey(kind, m)) - Counter(s, ScopeKey(kind, m))
  {
    if ps != [] {
      var qs, f := ps[..|ps| - 1], ps[|ps| - 1];
      PushAllSum(s, qs, m, kind);
      PushAllRefines(s, qs, ScopeKey(kind, m));
      PushSum(PushAll(s, qs), f, m, kind);
    }
  }

  lemma ForcedOff(s: seq<ActiveFlag>, m: ModifierFlag)
    requires Canonical(s)
    ensures Pressed(PushAll(s, Inverses(s, m)), m) <==> LockResidue(s, m) > 0
  {
    var ps := Inverses(s, m);
    var t := PushAll(s, ps);
    InversesEntries(s, m);
    PushAllSum(s, ps, m, Plain);
    PushAllSum(s, ps, m, Lock);
    PushAllSum(s, ps, m, Sticky);
    InversesAdditive(s, Counter(s, ScopeKey(Plain, m)), m, Plain);
    InversesAdditive(s, Counter(s, ScopeKey(Sticky, m)), m, Sticky);
    InversesLock(s, Counter(s, ScopeKey(Lock, m)), m);
    assert Net(t, m) == LockResidue(s, m);
    ForcedOffLed(s, m);
    if OnlyLed(t, m) {
      OnlyLedNet(t, m);
    }
  }

  lemma ForcedOffLed(s: seq<ActiveFlag>, m: ModifierFlag)
    requires Canonical(s)
    ensures Sum(PushAll(s, Inverses(s, m)), m, LedLock) == 0
  {
    var k := ScopeKey(LedLock, m);
    InversesEntries(s, m);
    PushAllRefines(s, Inverses(s, m), k);
    LedEntryIffCounter(s, m);
    InversesLed(s, Counter(s, k), m);
    LedSum(PushAll(s, Inverses(s, m)), m);
  }

  // ----- The flags do not disturb each other -----

  function OfFlag(m: ModifierFlag): ActiveFlag -> bool {
    (f: ActiveFlag) => f.flag == m
  }

  lemma CancelKeepsOthers(s: seq<ActiveFlag>, f: ActiveFlag, m: ModifierFlag)
    requires f.flag != m
    ensures Filter(Cancel(s, f), OfFlag(m)) == Filter(s, OfFlag(m))
  {
    var i := FirstPaired(s, f, 0);
    if i == |s| {
      FilterAppend(s, [f], OfFlag(m));
      FilterOne(f, OfFlag(m));
    } else {
      FilterRemoveAt(s, i, OfFlag(m));
    }
  }

  lemma PushKeepsOthers(s: seq<ActiveFlag>, f: ActiveFlag, m: ModifierFlag)
    requires Canonical(s) && f.flag != m
    ensures Filter(Push(s, f), OfFlag(m)) == Filter(s, OfFlag(m))
  {
    PushIsCancel(s, f);
    if f.ty == DecreaseLedLock {
      FilterTwice(s, NotPairedWith(f), OfFlag(m));
    } else if f.AnyLock() {
      FilterTwice(s, Except(f), OfFlag(m));
      CancelKeepsOthers(Filter(s, Except(f)), f, m);
    } else {
      CancelKeepsOthers(s, f, m);
    }
  }

  lemma {:induction false} PushAllKeepsOthers(s: seq<ActiveFlag>, ps: seq<ActiveFlag>, m: ModifierFlag)
    requires Canonical(s) && ScopeEntries(ps) && forall f :: f in ps ==> f.flag != m
    ensures Canonical(PushAll(s, ps))
    ensures Filter(PushAll(s, ps), OfFlag(m)) == Filter(s, OfFlag(m))
  {
    PushAllRefines(s, ps, ScopeKey(Plain, m));
    if ps != [] {
      PushAllKeepsOthers(s, ps[..|ps| - 1], m);
      PushKeepsOthers(PushAll(s, ps[..|ps| - 1]), ps[|ps| - 1], m);
    }
  }

  /** What the scope reads of a flag depends on the entries of that flag alone. */
  lemma {:induction false} OnlyOwnEntries(s: seq<ActiveFlag>, m: ModifierFlag)
    ensures Inverses(Filter(s, OfFlag(m)), m) == Inverses(s, m)
    ensures LockSigns(Filter(s, OfFlag(m)), m) == LockSigns(s, m)
  {
    if s != [] {
      var t, f := s[..|s| - 1], s[|s| - 1];
      assert s == t + [f];
      OnlyOwnEntries(t, m);
      hide Filter, Inverses, LockSigns;
      FilterSnoc(t, f, OfFlag(m));
      InversesSnoc(t, f, m);
      InversesSnoc(Filter(t, OfFlag(m)), f, m);
      LockSignsOne(t, f, m);
      LockSignsOne(Filter(t, OfFlag(m)), f, m);
    }
  }

  lemma {:induction false} OnlyOwnSum(s: seq<ActiveFlag>, m: ModifierFlag, kind: FlagKind)
    ensures Sum(Filter(s, OfFlag(m)), m, kind) == Sum(s, m, kind)
  {
    if s != [] {
      var t, f := s[..|s| - 1], s[|s| - 1];
      assert s == t + [f];
      OnlyOwnSum(t, m, kind);
      hide Filter, Sum;
      FilterSnoc(t, f, OfFlag(m));
      SumSnoc(t, f, m, kind);
      SumSnoc(Filter(t, OfFlag(m)), f, m, kind);
    }
  }

  lemma AgreePressed(s: seq<ActiveFlag>, t: seq<ActiveFlag>, m: ModifierFlag)
    requires Filter(s, OfFlag(m)) == Filter(t, OfFlag(m))
    ensures Pressed(s, m) == Pressed(t, m)
  {
    FilterKeeps(s, OfFlag(m));
    FilterKeeps(t, OfFlag(m));
    forall kind ensures Sum(s, m, kind) == Sum(t, m, kind) {
      OnlyOwnSum(s, m, kind);
      OnlyOwnSum(t, m, kind);
    }
    hide Sum, Filter;
    assert OnlyLed(s, m) <==> forall f :: f in Filter(s, OfFlag(m)) ==> f.IsLedLock();
    assert OnlyLed(t, m) <==> forall f :: f in Filter(t, OfFlag(m)) ==> f.IsLedLock();
  }

  lemma AgreeLocks(s: seq<ActiveFlag>, t: seq<ActiveFlag>, m: ModifierFlag)
    requires Filter(s, OfFlag(m)) == Filter(t, OfFlag(m))
    ensures Inverses(s, m) == Inverses(t, m)
    ensures LockSigns(s, m) == LockSigns(t, m)
    ensures Counter(s, ScopeKey(Lock, m)) == Counter(t, ScopeKey(Lock, m))
    ensures LockResidue(s, m) == LockResidue(t, m)
  {
    OnlyOwnEntries(s, m);
    OnlyOwnEntries(t, m);
    OnlyOwnSum(s, m, Lock);
    OnlyOwnSum(t, m, Lock);
    var p := Positive(ScopeKey(Lock, m));
    FilterMultiset(s, OfFlag(m), p);
    FilterMultiset(t, OfFlag(m), p);
    FilterMultiset(s, OfFlag(m), p.Opposite());
    FilterMultiset(t, OfFlag(m), p.Opposite());
  }

  lemma {:induction false} ScopePushesFlags(s: seq<ActiveFlag>, wanted: set<ModifierFlag>, flags: seq<ModifierFlag>)
    requires Canonical(s)
    ensures forall f :: f in ScopePushes(s, wanted, flags) ==> f.flag in flags
  {
    if flags != [] {
      var rest, m := flags[..|flags| - 1], flags[|flags| - 1];
      assert flags == rest + [m];
      ScopePushesFlags(s, wanted, rest);
      TurnEntries(s, wanted, rest, m);
    }
  }

  /** The constructor's turn for one flag, on the list as it then is. */
  function Turn(s: seq<ActiveFlag>, wanted: set<ModifierFlag>, flags: seq<ModifierFlag>, m: ModifierFlag)
    : seq<ActiveFlag>
    requires Canonical(s)
  {
    FlagPushes(PushAll(s, ScopePushes(s, wanted, flags)), m in wanted, m)
  }

  lemma TurnEntries(s: seq<ActiveFlag>, wanted: set<ModifierFlag>, flags: seq<ModifierFlag>, m: ModifierFlag)
    requires Canonical(s)
    ensures ScopePushes(s, wanted, flags + [m]) == ScopePushes(s, wanted, flags) + Turn(s, wanted, flags, m)
    ensures ScopeEntries(Turn(s, wanted, flags, m)) && forall f :: f in Turn(s, wanted, flags, m) ==> f.flag == m
  {
    ScopePushesSnoc(s, wanted, flags, m);
    FlagPushesEntries(PushAll(s, ScopePushes(s, wanted, flags)), m in wanted, m);
  }

  /** When its turn comes, a flag still has the entries it had at the start. */
  lemma BeforeItsTurn(s: seq<ActiveFlag>, wanted: set<ModifierFlag>, flags: seq<ModifierFlag>, m: ModifierFlag)
    requires Canonical(s) && m !in flags
    ensures Canonical(PushAll(s, ScopePushes(s, wanted, flags)))
    ensures Filter(PushAll(s, ScopePushes(s, wanted, flags)), OfFlag(m)) == Filter(s, OfFlag(m))
  {
    ScopePushesFlags(s, wanted, flags);
    PushAllKeepsOthers(s, ScopePushes(s, wanted, flags), m);
  }

  // ----- What the scope achieves -----

  /** What a scope makes of one flag that it controls. */
  predicate PressedUnderScope(s: seq<ActiveFlag>, wanted: set<ModifierFlag>, m: ModifierFlag) {
    m in wanted || (Pressed(s, m) && LockResidue(s, m) > 0)
  }

  /**
   Once the constructor is done, a flag it controls is pressed exactly if it was
   asked for, or if it was pressed and its lock entries outlast their inverses.
   */
  lemma {:induction false} ScopeForces(s: seq<ActiveFlag>, wanted: set<ModifierFlag>, flags: seq<ModifierFlag>,
      m: ModifierFlag)
    requires Canonical(s) && Distinct(flags) && m in flags
    ensures Pressed(PushAll(s, ScopePushes(s, wanted, flags)), m) <==> PressedUnderScope(s, wanted, m)
  {
    var rest, last := flags[..|flags| - 1], flags[|flags| - 1];
    assert flags == rest + [last] && last !in rest;
    hide *;
    var ps, qs := ScopePushes(s, wanted, rest), Turn(s, wanted, rest, last);
    TurnEntries(s, wanted, rest, last);
    PushAllAppend(s, ps, qs);
    BeforeItsTurn(s, wanted, rest, last);
    if m == last {
      ForcedInTurn(s, wanted, rest, m);
    } else {
      assert Distinct(rest) by {
        DistinctPrefix(flags);
      }
      ScopeForces(s, wanted, rest, m);
      PushAllKeepsOthers(PushAll(s, ps), qs, m);
      AgreePressed(PushAll(s, ps), PushAll(PushAll(s, ps), qs), m);
    }
  }

  lemma DistinctPrefix(flags: seq<ModifierFlag>)
    requires Distinct(flags) && flags != []
    ensures Distinct(flags[..|flags| - 1])
  {
  }

  lemma ForcedInTurn(s: seq<ActiveFlag>, wanted: set<ModifierFlag>, flags: seq<ModifierFlag>, m: ModifierFlag)
    requires Canonical(s) && m !in flags
    ensures Pressed(PushAll(PushAll(s, ScopePushes(s, wanted, flags)), Turn(s, wanted, flags, m)), m) <==>
            PressedUnderScope(s, wanted, m)
  {
    var t := PushAll(s, ScopePushes(s, wanted, flags));
    BeforeItsTurn(s, wanted, flags, m);
    hide ScopePushes, PushAll, Pressed, LockResidue, Filter, FlagPushes, Canonical;
    AgreePressed(s, t, m);
    AgreeLocks(s, t, m);
    ForcedFlag(t, m in wanted, m);
  }

  lemma ForcedFlag(s: seq<ActiveFlag>, wanted: bool, m: ModifierFlag)
    requires Canonical(s)
    ensures Pressed(PushAll(s, FlagPushes(s, wanted, m)), m) <==>
            wanted || (Pressed(s, m) && LockResidue(s, m) > 0)
  {
    if wanted {
      IncreasesEntries(s, m);
    } else if Pressed(s, m) {
      ForcedOff(s, m);
    }
  }

  // ----- The scope leaves no trace -----

  /** Operations on which a scope and its surroundings do not meet. */
  predicate Undisturbing(op: Op) {
    match op
    case PushFlag(f) => f.Kind() == Plain || f.Kind() == Sticky || (f.Kind() == Lock && f.device != 0)
    case EraseDevice(d) => d != 0
    case EraseDeviceExceptLockAndSticky(d) => d != 0
    case EraseCapsLockSticky | EraseSticky | Reset => false
  }

  /** The net effect of pushes on one additive counter. */
  function Drift(ps: seq<ActiveFlag>, k: CounterKey): int {
    if ps == [] then 0
    else Drift(ps[..|ps| - 1], k) + if ps[|ps| - 1].Key() == k then ps[|ps| - 1].Count() else 0
  }

  /** One push and its undoing, at the end of each list. */
  lemma PushedAndUndone(c: int, qs: seq<ActiveFlag>, f: ActiveFlag, k: CounterKey)
    ensures PushAllCounter(c, qs + [f], k) == StepCounter(PushAllCounter(c, qs, k), PushFlag(f), k)
    ensures PushAllCounter(c, UndoAll(qs + [f]), k) ==
            StepCounter(PushAllCounter(c, UndoAll(qs), k), PushFlag(Undo(f)), k)
  {
    hide PushAllCounter, UndoAll, StepCounter;
    CounterOne(c, qs, f, k);
    UndoAllSnoc(qs, f);
    CounterOne(c, UndoAll(qs), Undo(f), k);
  }

  lemma DriftOne(qs: seq<ActiveFlag>, f: ActiveFlag, k: CounterKey)
    ensures Drift(qs + [f], k) == Drift(qs, k) + if f.Key() == k then f.Count() else 0
  {
    assert (qs + [f])[..|qs + [f]| - 1] == qs;
  }

  lemma CountsAndUncounts(c: int, f: ActiveFlag, k: CounterKey)
    requires k.kind == Plain || k.kind == Sticky
    ensures StepCounter(c, PushFlag(f), k) == c + if f.Key() == k then f.Count() else 0
    ensures StepCounter(c, PushFlag(Undo(f)), k) == c - if f.Key() == k then f.Count() else 0
  {
  }

  lemma AdditivePush(c: int, qs: seq<ActiveFlag>, f: ActiveFlag, k: CounterKey)
    requires k.kind == Plain || k.kind == Sticky
    requires PushAllCounter(c, qs, k) == c + Drift(qs, k) && PushAllCounter(c, UndoAll(qs), k) == c - Drift(qs, k)
    ensures PushAllCounter(c, qs + [f], k) == c + Drift(qs + [f], k)
    ensures PushAllCounter(c, UndoAll(qs + [f]), k) == c - Drift(qs + [f], k)
  {
    hide PushAllCounter, UndoAll, Drift, StepCounter, Undo;
    PushedAndUndone(c, qs, f, k);
    DriftOne(qs, f, k);
    CountsAndUncounts(PushAllCounter(c, qs, k), f, k);
    CountsAndUncounts(PushAllCounter(c, UndoAll(qs), k), f, k);
  }

  lemma QuietPush(c: int, qs: seq<ActiveFlag>, f: ActiveFlag, k: CounterKey)
    requires f.Constructed() && f.Key() != k
    requires PushAllCounter(c, qs, k) == c && PushAllCounter(c, UndoAll(qs), k) == c
    ensures PushAllCounter(c, qs + [f], k) == c && PushAllCounter(c, UndoAll(qs + [f]), k) == c
  {
    hide PushAllCounter, UndoAll;
    PushedAndUndone(c, qs, f, k);
  }

  lemma {:induction false} AdditivePushes(c: int, ps: seq<ActiveFlag>, k: CounterKey)
    requires k.kind == Plain || k.kind == Sticky
    ensures PushAllCounter(c, ps, k) == c + Drift(ps, k)
    ensures PushAllCounter(c, UndoAll(ps), k) == c - Drift(ps, k)
  {
    if ps != [] {
      var qs, f := ps[..|ps| - 1], ps[|ps| - 1];
      assert ps == qs + [f];
      AdditivePushes(c, qs, k);
      AdditivePush(c, qs, f, k);
    }
  }

  lemma {:induction false} AdditiveRun(c: int, d: int, ops: seq<Op>, k: CounterKey)
    requires forall op :: op in ops ==> Undisturbing(op)
    requires k.kind == Plain || k.kind == Sticky
    requires k.device != 0 ==> d == 0
    ensures RunCounter(c + d, ops, k) == RunCounter(c, ops, k) + d
  {
    if ops != [] {
      AdditiveRun(c, d, ops[..|ops| - 1], k);
      assert Undisturbing(ops[|ops| - 1]);
    }
  }

  lemma {:induction false} QuietRun(c: int, ops: seq<Op>, k: CounterKey)
    requires forall op :: op in ops ==> Undisturbing(op)
    requires k.device == 0 && (k.kind == Lock || k.kind == LedLock)
    ensures RunCounter(c, ops, k) == c
  {
    if ops != [] {
      QuietRun(c, ops[..|ops| - 1], k);
      assert Undisturbing(ops[|ops| - 1]);
    }
  }

  /** Pushes that never touch counter `k` leave it alone, and so does taking them back. */
  lemma {:induction false} QuietPushes(c: int, ps: seq<ActiveFlag>, k: CounterKey)
    requires forall f :: f in ps ==> f.Constructed() && f.Key() != k
    ensures PushAllCounter(c, ps, k) == c && PushAllCounter(c, UndoAll(ps), k) == c
  {
    if ps != [] {
      var qs, f := ps[..|ps| - 1], ps[|ps| - 1];
      assert ps == qs + [f] && f in ps;
      QuietPushes(c, qs, k);
      QuietPush(c, qs, f, k);
    }
  }

  /** What handling `flags` pushes on the lock and LED counters of one flag. */
  function OwnPushes(s: seq<ActiveFlag>, wanted: set<ModifierFlag>, flags: seq<ModifierFlag>, m: ModifierFlag)
    : seq<ActiveFlag>
  {
    if m in flags && m !in wanted && Pressed(s, m) then Inverses(s, m) else []
  }

  /** The turn of the flag itself pushes what it would have pushed at the start. */
  lemma OwnTurn(s: seq<ActiveFlag>, wanted: set<ModifierFlag>, flags: seq<ModifierFlag>, c: int, kind: FlagKind,
      m: ModifierFlag)
    requires Canonical(s) && m !in flags
    requires kind == Lock || kind == LedLock
    ensures PushAllCounter(c, Turn(s, wanted, flags, m), ScopeKey(kind, m)) ==
            PushAllCounter(c, OwnPushes(s, wanted, [m], m), ScopeKey(kind, m))
    ensures PushAllCounter(c, UndoAll(Turn(s, wanted, flags, m)), ScopeKey(kind, m)) ==
            PushAllCounter(c, UndoAll(OwnPushes(s, wanted, [m], m)), ScopeKey(kind, m))
  {
    var t := PushAll(s, ScopePushes(s, wanted, flags));
    BeforeItsTurn(s, wanted, flags, m);
    AgreePressed(s, t, m);
    AgreeLocks(s, t, m);
    hide Pressed, Filter;
    if m in wanted {
      IncreasesEntries(t, m);
      QuietPushes(c, Increases(t, m), ScopeKey(kind, m));
    }
  }

  lemma OwnPushesSnoc(s: seq<ActiveFlag>, wanted: set<ModifierFlag>, flags: seq<ModifierFlag>, last: ModifierFlag,
      m: ModifierFlag)
    ensures OwnPushes(s, wanted, flags + [last], m) ==
            if last != m then OwnPushes(s, wanted, flags, m) else OwnPushes(s, wanted, [m], m)
  {
  }

  /** On a saturating counter, all that a scope pushes is what it pushed for its own flag. */
  lemma {:induction false} ScopeOnSaturating(
      s: seq<ActiveFlag>, wanted: set<ModifierFlag>, flags: seq<ModifierFlag>, c: int, d: int, kind: FlagKind,
      m: ModifierFlag)
    requires Canonical(s) && Distinct(flags)
    requires kind == Lock || kind == LedLock
    ensures PushAllCounter(c, ScopePushes(s, wanted, flags), ScopeKey(kind, m)) ==
            PushAllCounter(c, OwnPushes(s, wanted, flags, m), ScopeKey(kind, m))
    ensures PushAllCounter(d, UndoAll(ScopePushes(s, wanted, flags)), ScopeKey(kind, m)) ==
            PushAllCounter(d, UndoAll(OwnPushes(s, wanted, flags, m)), ScopeKey(kind, m))
  {
    if flags != [] {
      var rest, last := flags[..|flags| - 1], flags[|flags| - 1];
      assert flags == rest + [last] && last !in rest;
      DistinctPrefix(flags);
      hide *;
      var ps, qs, k := ScopePushes(s, wanted, rest), Turn(s, wanted, rest, last), ScopeKey(kind, m);
      TurnEntries(s, wanted, rest, last);
      PushedThenUndone(c, d, ps, qs, k);
      OwnPushesSnoc(s, wanted, rest, last, m);
      if last != m {
        ScopeOnSaturating(s, wanted, rest, c, d, kind, m);
        QuietEntries(PushAllCounter(c, ps, k), qs, last, kind, m);
        QuietEntries(PushAllCounter(d, UndoAll(ps), k), qs, last, kind, m);
      } else {
        EarlierTurns(s, wanted, rest, c, d, kind, m);
        OwnTurn(s, wanted, rest, c, kind, m);
        OwnTurn(s, wanted, rest, d, kind, m);
      }
    }
  }

  lemma PushedThenUndone(c: int, d: int, ps: seq<ActiveFlag>, qs: seq<ActiveFlag>, k: CounterKey)
    ensures PushAllCounter(c, ps + qs, k) == PushAllCounter(PushAllCounter(c, ps, k), qs, k)
    ensures PushAllCounter(d, UndoAll(ps + qs), k) == PushAllCounter(PushAllCounter(d, UndoAll(ps), k), UndoAll(qs), k)
  {
    PushAllCounterAppend(c, ps, qs, k);
    PushAllAppend([], ps, qs);
    PushAllCounterAppend(d, UndoAll(ps), UndoAll(qs), k);
  }

  lemma QuietEntries(c: int, qs: seq<ActiveFlag>, turn: ModifierFlag, kind: FlagKind, m: ModifierFlag)
    requires ScopeEntries(qs) && turn != m && forall f :: f in qs ==> f.flag == turn
    ensures PushAllCounter(c, qs, ScopeKey(kind, m)) == c && PushAllCounter(c, UndoAll(qs), ScopeKey(kind, m)) == c
  {
    QuietPushes(c, qs, ScopeKey(kind, m));
  }

  lemma EarlierTurns(
      s: seq<ActiveFlag>, wanted: set<ModifierFlag>, flags: seq<ModifierFlag>, c: int, d: int, kind: FlagKind,
      m: ModifierFlag)
    requires Canonical(s) && m !in flags
    ensures PushAllCounter(c, ScopePushes(s, wanted, flags), ScopeKey(kind, m)) == c
    ensures PushAllCounter(d, UndoAll(ScopePushes(s, wanted, flags)), ScopeKey(kind, m)) == d
  {
    ScopePushesFlags(s, wanted, flags);
    QuietPushes(c, ScopePushes(s, wanted, flags), ScopeKey(kind, m));
    QuietPushes(d, ScopePushes(s, wanted, flags), ScopeKey(kind, m));
  }

  lemma {:induction false} UndoInversesLock(s: seq<ActiveFlag>, c: int, m: ModifierFlag)
    ensures PushAllCounter(c, UndoAll(Inverses(s, m)), ScopeKey(Lock, m)) == Saturate(c, LockSigns(s, m))
  {
    if s != [] {
      hide *;
      var t, f := s[..|s| - 1], s[|s| - 1];
      assert s == t + [f];
      UndoInversesLock(t, c, m);
      UndoInversesOne(t, f, c, m, Lock);
      LockSignsOne(t, f, m);
      SaturateOne(c, LockSigns(t, m), f.Count());
    }
  }

  lemma RedoStep(c: int, f: ActiveFlag, kind: FlagKind)
    requires kind == Lock || kind == LedLock
    ensures StepCounter(c, PushFlag(Undo(MakeActiveFlag(f.ty.Inverse(), f.flag, 0))), ScopeKey(kind, f.flag)) ==
            if f.Kind() != kind then c
            else if kind == Lock then Clamp(c + f.Count(), -1, 1)
            else (if f.Count() > 0 then 1 else 0)
  {
  }

  lemma UndoInversesOne(t: seq<ActiveFlag>, f: ActiveFlag, c: int, m: ModifierFlag, kind: FlagKind)
    requires kind == Lock || kind == LedLock
    ensures var before := PushAllCounter(c, UndoAll(Inverses(t, m)), ScopeKey(kind, m));
            PushAllCounter(c, UndoAll(Inverses(t + [f], m)), ScopeKey(kind, m)) ==
            if f.flag != m || f.Kind() != kind then before
            else if kind == Lock then Clamp(before + f.Count(), -1, 1)
            else (if f.Count() > 0 then 1 else 0)
  {
    InversesSnoc(t, f, m);
    if f.flag == m {
      var u := MakeActiveFlag(f.ty.Inverse(), m, 0);
      UndoAllSnoc(Inverses(t, m), u);
      CounterOne(c, UndoAll(Inverses(t, m)), Undo(u), ScopeKey(kind, m));
      hide Inverses, UndoAll, PushAllCounter;
      RedoStep(PushAllCounter(c, UndoAll(Inverses(t, m)), ScopeKey(kind, m)), f, kind);
    }
  }

  lemma UndoInversesLedOne(t: seq<ActiveFlag>, f: ActiveFlag, c: int, m: ModifierFlag)
    requires f.ty != DecreaseLedLock
    requires PushAllCounter(c, UndoAll(Inverses(t, m)), ScopeKey(LedLock, m)) ==
             if exists g :: g in t && g.flag == m && g.IsLedLock() then 1 else c
    ensures PushAllCounter(c, UndoAll(Inverses(t + [f], m)), ScopeKey(LedLock, m)) ==
            if exists g :: g in t + [f] && g.flag == m && g.IsLedLock() then 1 else c
  {
    hide Inverses, UndoAll, PushAllCounter;
    var s := t + [f];
    assert forall g :: g in s <==> g in t || g == f;
    UndoInversesOne(t, f, c, m, LedLock);
  }

  lemma {:induction false} UndoInversesLed(s: seq<ActiveFlag>, c: int, m: ModifierFlag)
    requires forall f :: f in s ==> f.ty != DecreaseLedLock
    ensures PushAllCounter(c, UndoAll(Inverses(s, m)), ScopeKey(LedLock, m)) ==
            if exists f :: f in s && f.flag == m && f.IsLedLock() then 1 else c
  {
    if s != [] {
      var t, f := s[..|s| - 1], s[|s| - 1];
      assert s == t + [f];
      UndoInversesLed(t, c, m);
      UndoInversesLedOne(t, f, c, m);
    }
  }

  /** The counter a scope with operations inside leaves behind. */
  function ScopedCounter(s: seq<ActiveFlag>, wanted: set<ModifierFlag>, flags: seq<ModifierFlag>, ops: seq<Op>,
      k: CounterKey): int
    requires Canonical(s)
  {
    var ps := ScopePushes(s, wanted, flags);
    PushAllCounter(RunCounter(PushAllCounter(Counter(s, k), ps, k), ops, k), UndoAll(ps), k)
  }

  predicate ForcedOffBy(s: seq<ActiveFlag>, wanted: set<ModifierFlag>, flags: seq<ModifierFlag>, m: ModifierFlag) {
    m in flags && m !in wanted && Pressed(s, m)
  }

  lemma ScopedCounterSaturating(
      s: seq<ActiveFlag>, wanted: set<ModifierFlag>, flags: seq<ModifierFlag>, ops: seq<Op>, kind: FlagKind,
      m: ModifierFlag)
    requires Canonical(s) && Distinct(flags) && forall op :: op in ops ==> Undisturbing(op)
    requires kind == Lock || kind == LedLock
    ensures ScopedCounter(s, wanted, flags, ops, ScopeKey(kind, m)) ==
            RunCounter(Counter(s, ScopeKey(kind, m)), ops, ScopeKey(kind, m)) <==>
            (kind == Lock && ForcedOffBy(s, wanted, flags, m) ==> LocksRestored(s, m))
  {
    var k := ScopeKey(kind, m);
    var c := Counter(s, k);
    var ps := ScopePushes(s, wanted, flags);
    var d := PushAllCounter(c, ps, k);
    QuietRun(c, ops, k);
    QuietRun(d, ops, k);
    ScopeOnSaturating(s, wanted, flags, c, d, kind, m);
    hide ScopePushes, RunCounter, Pressed;
    if ForcedOffBy(s, wanted, flags, m) {
      if kind == Lock {
        InversesLock(s, c, m);
        UndoInversesLock(s, d, m);
      } else {
        LedEntryIffCounter(s, m);
        InversesLed(s, c, m);
        UndoInversesLed(s, d, m);
      }
    }
  }

  lemma ScopedCounterElsewhere(s: seq<ActiveFlag>, wanted: set<ModifierFlag>, flags: seq<ModifierFlag>,
      ops: seq<Op>, k: CounterKey)
    requires Canonical(s) && forall op :: op in ops ==> Undisturbing(op)
    requires k.device != 0 || k.kind == Plain || k.kind == Sticky
    ensures ScopedCounter(s, wanted, flags, ops, k) == RunCounter(Counter(s, k), ops, k)
  {
    AdditiveRoundTrip(Counter(s, k), ScopePushes(s, wanted, flags), ops, k);
  }

  lemma NotOfScope(ps: seq<ActiveFlag>, k: CounterKey)
    requires ScopeEntries(ps) && k.device != 0
    ensures forall f :: f in ps ==> f.Constructed() && f.Key() != k
  {
  }

  lemma AdditiveRoundTrip(c: int, ps: seq<ActiveFlag>, ops: seq<Op>, k: CounterKey)
    requires ScopeEntries(ps) && forall op :: op in ops ==> Undisturbing(op)
    requires k.device != 0 || k.kind == Plain || k.kind == Sticky
    ensures PushAllCounter(RunCounter(PushAllCounter(c, ps, k), ops, k), UndoAll(ps), k) == RunCounter(c, ops, k)
  {
    hide PushAllCounter, UndoAll, RunCounter, Drift;
    if k.device != 0 {
      NotOfScope(ps, k);
      QuietPushes(c, ps, k);
      QuietPushes(RunCounter(c, ops, k), ps, k);
    } else {
      AdditivePushes(c, ps, k);
      AdditiveRun(c, Drift(ps, k), ops, k);
      AdditivePushes(RunCounter(c + Drift(ps, k), ops, k), ps, k);
    }
  }

  /** The list after the scope: constructed, used, destroyed. */
  function ScopedRun(
      s: seq<ActiveFlag>, wanted: set<ModifierFlag>, flags: seq<ModifierFlag>, ops: seq<Op>): seq<ActiveFlag>
    requires Canonical(s)
  {
    var ps := ScopePushes(s, wanted, flags);
    PushAll(Run(PushAll(s, ps), ops), UndoAll(ps))
  }

  lemma ScopedRunRefines(s: seq<ActiveFlag>, wanted: set<ModifierFlag>, flags: seq<ModifierFlag>, ops: seq<Op>,
      k: CounterKey)
    requires Canonical(s) && forall op :: op in ops ==> WellFormed(op)
    ensures Canonical(ScopedRun(s, wanted, flags, ops)) && Canonical(Run(s, ops))
    ensures Counter(ScopedRun(s, wanted, flags, ops), k) == ScopedCounter(s, wanted, flags, ops, k)
    ensures Counter(Run(s, ops), k) == RunCounter(Counter(s, k), ops, k)
  {
    var ps := ScopePushes(s, wanted, flags);
    PushAllRefines(s, ps, k);
    RunRefines(PushAll(s, ps), ops, k);
    forall f | f in UndoAll(ps) ensures f.Constructed() {
      UndoConstructed(ps, f);
    }
    PushAllRefines(Run(PushAll(s, ps), ops), UndoAll(ps), k);
    RunRefines(s, ops, k);
  }

  /**
   A scope leaves the same entries as if it had never existed, whatever was
   pushed or erased meanwhile, exactly if the lock entries of every flag it
   forces off survive being run down and up again on device 0.
   */
  lemma ScopeTransparentIff(s: seq<ActiveFlag>, wanted: set<ModifierFlag>, flags: seq<ModifierFlag>, ops: seq<Op>)
    requires Canonical(s) && Distinct(flags) && forall op :: op in ops ==> WellFormed(op) && Undisturbing(op)
    ensures multiset(ScopedRun(s, wanted, flags, ops)) == multiset(Run(s, ops)) <==>
            forall m :: ForcedOffBy(s, wanted, flags, m) ==> LocksRestored(s, m)
  {
    var a, b := ScopedRun(s, wanted, flags, ops), Run(s, ops);
    ScopedRunRefines(s, wanted, flags, ops, ScopeKey(Plain, Zero));
    if multiset(a) == multiset(b) {
      forall m | ForcedOffBy(s, wanted, flags, m) ensures LocksRestored(s, m) {
        ScopedRunRefines(s, wanted, flags, ops, ScopeKey(Lock, m));
        ScopedCounterSaturating(s, wanted, flags, ops, Lock, m);
      }
    }
    if forall m :: ForcedOffBy(s, wanted, flags, m) ==> LocksRestored(s, m) {
      forall k ensures Counter(a, k) == Counter(b, k) {
        ScopedRunRefines(s, wanted, flags, ops, k);
        if k.device != 0 || k.kind == Plain || k.kind == Sticky {
          ScopedCounterElsewhere(s, wanted, flags, ops, k);
        } else {
          ScopedCounterSaturating(s, wanted, flags, ops, k.kind, k.flag);
        }
      }
      CountersDetermineList(a, b);
    }
  }

  // ----- The ordinary case: at most one lock entry for each flag -----

  ghost predicate OneLock(s: seq<ActiveFlag>, m: ModifierFlag) {
    forall i, j :: 0 <= i < j < |s| ==> !(IsLockOf(s[i], m) && IsLockOf(s[j], m))
  }

  predicate IsLockOf(f: ActiveFlag, m: ModifierFlag) {
    f.flag == m && f.Kind() == Lock
  }

  lemma {:induction false} OneLockSigns(s: seq<ActiveFlag>, m: ModifierFlag) returns (i: nat)
    requires OneLock(s, m)
    ensures i <= |s| && (i < |s| ==> IsLockOf(s[i], m))
    ensures forall j :: 0 <= j < |s| && IsLockOf(s[j], m) ==> j == i
    ensures LockSigns(s, m) == if i < |s| then [s[i].Count()] else []
    ensures Sum(s, m, Lock) == if i < |s| then s[i].Count() else 0
  {
    if s == [] {
      i := 0;
    } else {
      var f := s[|s| - 1];
      i := OneLockSigns(s[..|s| - 1], m);
      if !IsLockOf(f, m) && i == |s| - 1 {
        i := |s|;
      }
    }
  }

  /** One lock entry, on whatever device, is cancelled exactly and restored exactly. */
  lemma OneLockSuffices(s: seq<ActiveFlag>, m: ModifierFlag)
    requires Canonical(s) && OneLock(s, m)
    ensures LockResidue(s, m) == 0 && LocksRestored(s, m)
  {
    var own := Counter(s, ScopeKey(Lock, m));
    var i := OneLockSigns(s, m);
    OwnLock(s, m, i);
    if i < |s| {
      var x := s[i].Count();
      OneSign(own, x);
      OneSign(own, -x);
      OneSign(Clamp(own - x, -1, 1), x);
    }
  }

  lemma OneSign(c: int, x: int)
    ensures Negated([x]) == [-x] && Saturate(c, [x]) == Clamp(c + x, -1, 1)
  {
    var s := [x];
    assert s[..|s| - 1] == [];
  }

  /** The lock counter of device 0 is the one lock entry's sign if that entry is there. */
  lemma OwnLock(s: seq<ActiveFlag>, m: ModifierFlag, i: nat)
    requires Canonical(s) && i <= |s|
    requires forall j :: 0 <= j < |s| && IsLockOf(s[j], m) ==> j == i
    ensures Counter(s, ScopeKey(Lock, m)) ==
            if i < |s| && IsLockOf(s[i], m) && s[i].device == 0 then s[i].Count() else 0
  {
    var k := ScopeKey(Lock, m);
    var p := Positive(k);
    LockMember(s, p);
    KeyEntries(p, k);
    assert p in s ==> exists j :: 0 <= j < |s| && s[j] == p;
    assert p.Opposite() in s ==> exists j :: 0 <= j < |s| && s[j] == p.Opposite();
    if i < |s| && IsLockOf(s[i], m) && s[i].device == 0 {
      assert s[i] in s;
      assert s[i] == p || s[i] == p.Opposite();
    }
  }

  /** The scope forces exactly the requested set, and disappears without a trace. */
  lemma ScopeWithOneLock(s: seq<ActiveFlag>, wanted: set<ModifierFlag>, flags: seq<ModifierFlag>, ops: seq<Op>)
    requires Canonical(s) && Distinct(flags) && forall m :: OneLock(s, m)
    requires forall op :: op in ops ==> WellFormed(op) && Undisturbing(op)
    ensures forall m :: m in flags ==>
              (Pressed(PushAll(s, ScopePushes(s, wanted, flags)), m) <==> m in wanted)
    ensures multiset(ScopedRun(s, wanted, flags, ops)) == multiset(Run(s, ops))
  {
    forall m ensures LockResidue(s, m) == 0 && LocksRestored(s, m) {
      OneLockSuffices(s, m);
    }
    forall m | m in flags
      ensures Pressed(PushAll(s, ScopePushes(s, wanted, flags)), m) <==> m in wanted
    {
      ScopeForces(s, wanted, flags, m);
    }
    ScopeTransparentIff(s, wanted, flags, ops);
  }

  lemma ScopedFlagsDistinct()
    ensures Distinct(SCOPED_FLAGS)
  {
  }

  /** The scope controls every flag but the two sentinels, each once. */
  lemma ScopedFlagsAreAll()
    ensures Distinct(SCOPED_FLAGS)
    ensures forall m :: m in SCOPED_FLAGS <==> m != Zero && m != End
  {
    ScopedFlagsDistinct();
    forall m | m != Zero && m != End ensures m in SCOPED_FLAGS {
      ControlsFlag(m);
    }
  }

  lemma ControlsFlag(m: ModifierFlag)
    requires m != Zero && m != End
    ensures m in SCOPED_FLAGS
  {
    var i := match m
      case CapsLock => 0
      case LeftControl => 1
      case LeftShift => 2
      case LeftOption => 3
      case LeftCommand => 4
      case RightControl => 5
      case RightShift => 6
      case RightOption => 7
      case RightCommand => 8
      case _ => 9;
    assert SCOPED_FLAGS[i] == m;
  }

  /**
   The objects: while the scope lives exactly the wanted flags are pressed, whatever
   flag is asked for, and once it is destroyed only the operations done meanwhile
   have left a trace.
   */
  method ConstructUseDestroy(manager: ModifierFlagManager, wanted: set<ModifierFlag>, ops: seq<Op>)
    returns (pressed: set<ModifierFlag>)
    requires manager.Valid() && forall m :: OneLock(manager.active, m)
    requires forall op :: op in ops ==> WellFormed(op) && Undisturbing(op)
    modifies manager
    ensures manager.Valid()
    ensures forall m :: m != Zero && m != End ==> (m in pressed <==> m in wanted)
    ensures multiset(manager.active) == multiset(Run(old(manager.active), ops))
  {
    ghost var start := manager.active;
    ScopedFlagsAreAll();
    ScopeWithOneLock(start, wanted, SCOPED_FLAGS, ops);
    hide *;
    var scope := new ScopedModifierFlags(manager, wanted);
    pressed := PressedAmong(manager, SCOPED_FLAGS);
    PerformAll(manager, ops);
    scope.Destroy();
    ScopedRunIs(start, wanted, SCOPED_FLAGS, ops);
  }

  lemma ScopedRunIs(s: seq<ActiveFlag>, wanted: set<ModifierFlag>, flags: seq<ModifierFlag>, ops: seq<Op>)
    requires Canonical(s)
    ensures ScopedRun(s, wanted, flags, ops) ==
            PushAll(Run(PushAll(s, ScopePushes(s, wanted, flags)), ops), UndoAll(ScopePushes(s, wanted, flags)))
  {
  }

  method PressedAmong(manager: ModifierFlagManager, flags: seq<ModifierFlag>) returns (pressed: set<ModifierFlag>)
    ensures forall m :: m in pressed <==> m in flags && Pressed(manager.active, m)
  {
    pressed := {};
    for n := 0 to |flags|
      invariant forall m :: m in pressed <==> m in flags[..n] && Pressed(manager.active, m)
    {
      var p := manager.IsPressed(flags[n]);
      pressed := if p then pressed + {flags[n]} else pressed;
    }
  }

  method PerformAll(manager: ModifierFlagManager, ops: seq<Op>)
    requires manager.Valid() && forall op :: op in ops ==> WellFormed(op)
    modifies manager
    ensures manager.Valid() && manager.active == Run(old(manager.active), ops)
  {
    ghost var start := manager.active;
    assert ops[..0] == [];
    for n := 0 to |ops|
      invariant manager.Valid() && manager.active == Run(start, ops[..n])
    {
      var op := ops[n];
      assert ops[..n + 1][..n] == ops[..n] && WellFormed(op);
      if op.PushFlag? {
        manager.PushBack(op.f);
      } else {
        manager.Erase(op);
      }
    }
    assert ops[..|ops|] == ops;
  }

  /**
   Two lock entries on different devices, reached by two pushes: a scope that
   asks for nothing leaves the flag pressed, and changes the entries for good.
   */
  lemma TwoLocksCanonical(a: ActiveFlag, b: ActiveFlag)
    requires a == ActiveFlag(IncreaseLock, LeftShift, 1) && b == ActiveFlag(IncreaseLock, LeftShift, 2)
    ensures Canonical([a, b])
  {
    hide Run, Push, Apply, Counter;
    TwoLocksRun(a, b);
    RunRefines([], [PushFlag(a), PushFlag(b)], a.Key());
  }

  lemma TwoLocksDefeatScope()
    ensures var a, b := ActiveFlag(IncreaseLock, LeftShift, 1), ActiveFlag(IncreaseLock, LeftShift, 2);
            && Run([], [PushFlag(a), PushFlag(b)]) == [a, b] && Canonical([a, b])
            && Pressed(PushAll([a, b], ScopePushes([a, b], {}, SCOPED_FLAGS)), LeftShift)
            && multiset(ScopedRun([a, b], {}, SCOPED_FLAGS, [])) != multiset([a, b])
  {
    hide *;
    var a, b := ActiveFlag(IncreaseLock, LeftShift, 1), ActiveFlag(IncreaseLock, LeftShift, 2);
    TwoLocksRun(a, b);
    TwoLocksCanonical(a, b);
    TwoLocksResidue(a, b);
    ScopedFlagsDistinct();
    ScopedFlagsAreAll();
    TwoLocksScope([a, b]);
  }

  lemma TwoLocksScope(s: seq<ActiveFlag>)
    requires Canonical(s) && Distinct(SCOPED_FLAGS) && LeftShift in SCOPED_FLAGS
    requires Pressed(s, LeftShift) && LockResidue(s, LeftShift) > 0 && !LocksRestored(s, LeftShift)
    ensures Pressed(PushAll(s, ScopePushes(s, {}, SCOPED_FLAGS)), LeftShift)
    ensures multiset(ScopedRun(s, {}, SCOPED_FLAGS, [])) != multiset(s)
  {
    ScopeForces(s, {}, SCOPED_FLAGS, LeftShift);
    ScopeTransparentIff(s, {}, SCOPED_FLAGS, []);
    assert ForcedOffBy(s, {}, SCOPED_FLAGS, LeftShift);
    assert Run(s, []) == s;
    hide ScopedRun, ScopePushes, PushAll, Pressed, LockResidue, LocksRestored, Canonical, Distinct;
  }

  lemma TwoLocksResidue(a: ActiveFlag, b: ActiveFlag)
    requires a == ActiveFlag(IncreaseLock, LeftShift, 1) && b == ActiveFlag(IncreaseLock, LeftShift, 2)
    ensures Pressed([a, b], LeftShift) && LockResidue([a, b], LeftShift) > 0 && !LocksRestored([a, b], LeftShift)
  {
    hide Saturate, Negated, Sum, LockSigns, OnlyLed;
    TwoLocksSums(a, b);
    NotOnlyLed(a, b);
    SaturateTwo(0, -1, -1);
    SaturateTwo(-1, 1, 1);
  }

  lemma NotOnlyLed(a: ActiveFlag, b: ActiveFlag)
    requires a == ActiveFlag(IncreaseLock, LeftShift, 1)
    ensures !OnlyLed([a, b], LeftShift)
  {
    assert a in [a, b];
  }

  lemma TwoLocksSums(a: ActiveFlag, b: ActiveFlag)
    requires a == ActiveFlag(IncreaseLock, LeftShift, 1) && b == ActiveFlag(IncreaseLock, LeftShift, 2)
    ensures LockSigns([a, b], LeftShift) == [1, 1]
    ensures Sum([a, b], LeftShift, Lock) == 2
    ensures Sum([a, b], LeftShift, Plain) == 0 && Sum([a, b], LeftShift, Sticky) == 0
  {
    assert [a, b] == [a] + [b] && [] + [a] == [a];
    LockSignsOne([a], b, LeftShift);
    LockSignsOne([], a, LeftShift);
    forall kind ensures Sum([a, b], LeftShift, kind) == Share(a, LeftShift, kind) + Share(b, LeftShift, kind) {
      SumAppend([a], [b], LeftShift, kind);
      SumOne(a, LeftShift, kind);
      SumOne(b, LeftShift, kind);
    }
  }

  lemma SaturateTwo(c: int, x: int, y: int)
    ensures Saturate(c, [x, y]) == Clamp(Clamp(c + x, -1, 1) + y, -1, 1)
    ensures Negated([x, y]) == [-x, -y]
  {
    var s := [x, y];
    var t := [x];
    assert s[..|s| - 1] == t && t[..|t| - 1] == [];
    assert Negated(t) == [-x] && Saturate(c, t) == Clamp(c + x, -1, 1);
  }

  lemma TwoLocksRun(a: ActiveFlag, b: ActiveFlag)
    requires a == ActiveFlag(IncreaseLock, LeftShift, 1) && b == ActiveFlag(IncreaseLock, LeftShift, 2)
    ensures Run([], [PushFlag(a), PushFlag(b)]) == [a, b]
  {
    var ops := [PushFlag(a), PushFlag(b)];
    assert ops[..1] == [PushFlag(a)] && ops[..1][..0] == [];
    FilterOne(a, Except(b));
    PushIsCancel([], a);
    PushIsCancel([a], b);
    assert [] + [a] == [a] && [a] + [b] == [a, b];
    assert Push([], a) == [a];
    assert Push([a], b) == [a, b];
    assert Run([], ops[..1]) == Apply(Run([], []), PushFlag(a));
  }
}
