/**
 The list of signed modifier entries, edited in place, and its meaning:
 one integer counter for every (kind, flag, device).
 */
module ModifierFlagLists {
  import opened Types
  import opened ActiveModifierFlags
  import opened Sequences

  // ----- The list operations as functions -----

  /** The first index at or after `j` whose entry is paired with `f`, or the length. */
  function FirstPaired(s: seq<ActiveFlag>, f: ActiveFlag, j: nat): (r: nat)
    requires j <= |s|
    ensures j <= r <= |s|
    ensures r < |s| ==> f.IsPaired(s[r])
    ensures forall i :: j <= i < r ==> !f.IsPaired(s[i])
    decreases |s| - j
  {
    if j == |s| || f.IsPaired(s[j]) then j else FirstPaired(s, f, j + 1)
  }

  /** The nested index loops of `erase_pairs`, from outer index `i` on. */
  function ErasePairsFrom(s: seq<ActiveFlag>, i: nat): seq<ActiveFlag>
    decreases |s|, |s| - i
  {
    if i >= |s| then s
    else
      var j := FirstPaired(s, s[i], i + 1);
      if j == |s| then ErasePairsFrom(s, i + 1)
      // The loop steps back by one, but not below zero, and then forward by one.
      else ErasePairsFrom(RemoveAt(RemoveAt(s, j), i), if i > 0 then i else 1)
  }

  function ErasePairs(s: seq<ActiveFlag>): seq<ActiveFlag> {
    ErasePairsFrom(s, 0)
  }

  function Except(f: ActiveFlag): ActiveFlag -> bool {
    g => g != f
  }

  function NotPairedWith(f: ActiveFlag): ActiveFlag -> bool {
    (g: ActiveFlag) => !g.IsPaired(f)
  }

  function Push(s: seq<ActiveFlag>, f: ActiveFlag): seq<ActiveFlag> {
    match f.ty
    case Increase | Decrease | IncreaseSticky | DecreaseSticky =>
      ErasePairs(s + [f])
    case IncreaseLock | DecreaseLock | IncreaseLedLock =>
      ErasePairs(Filter(s, Except(f)) + [f])
    case DecreaseLedLock =>
      Filter(s, NotPairedWith(f))
  }

  datatype Op =
    | PushFlag(f: ActiveFlag)
    | EraseDevice(device: DeviceId)
    | EraseDeviceExceptLockAndSticky(device: DeviceId)
    | EraseCapsLockSticky
    | EraseSticky
    | Reset

  /** Which entries an erasing operation lets stay. */
  predicate Survives(op: Op, g: ActiveFlag) {
    match op
    case PushFlag(_) => true
    case EraseDevice(d) => g.device != d
    case EraseDeviceExceptLockAndSticky(d) => !(g.device == d && !g.AnyLock() && !g.IsSticky())
    case EraseCapsLockSticky => !(g.flag == CapsLock && g.IsSticky())
    case EraseSticky => !g.IsSticky()
    case Reset => false
  }

  function Surviving(op: Op): ActiveFlag -> bool {
    g => Survives(op, g)
  }

  function Apply(s: seq<ActiveFlag>, op: Op): seq<ActiveFlag> {
    if op.PushFlag? then Push(s, op.f) else Filter(s, Surviving(op))
  }

  function Run(s: seq<ActiveFlag>, ops: seq<Op>): seq<ActiveFlag> {
    if ops == [] then s else Apply(Run(s, ops[..|ops| - 1]), ops[|ops| - 1])
  }

  // ----- The meaning: independent counters -----

  function Clamp(c: int, lo: int, hi: int): int {
    Max(lo, Min(hi, c))
  }

  /** What one operation does to the counter of key `k`; no other counter is consulted. */
  function StepCounter(c: int, op: Op, k: CounterKey): int {
    match op
    case PushFlag(f) =>
      if f.Key() != k then c
      else (match f.Kind()
            case Plain | Sticky => c + f.Count()
            case Lock => Clamp(c + f.Count(), -1, 1)
            case LedLock => if f.Count() > 0 then 1 else 0)
    case EraseDevice(d) => if k.device == d then 0 else c
    case EraseDeviceExceptLockAndSticky(d) => if k.device == d && k.kind == Plain then 0 else c
    case EraseCapsLockSticky => if k.flag == CapsLock && k.kind == Sticky then 0 else c
    case EraseSticky => if k.kind == Sticky then 0 else c
    case Reset => 0
  }

  function RunCounter(c: int, ops: seq<Op>, k: CounterKey): int {
    if ops == [] then c else StepCounter(RunCounter(c, ops[..|ops| - 1], k), ops[|ops| - 1], k)
  }

  function Positive(k: CounterKey): ActiveFlag {
    match k.kind
    case Plain => ActiveFlag(Increase, k.flag, k.device)
    case Lock => ActiveFlag(IncreaseLock, k.flag, k.device)
    case LedLock => ActiveFlag(IncreaseLedLock, k.flag, k.device)
    case Sticky => ActiveFlag(IncreaseSticky, k.flag, k.device)
  }

  /** The counter that a list of entries represents. */
  function Counter(s: seq<ActiveFlag>, k: CounterKey): int {
    multiset(s)[Positive(k)] as int - multiset(s)[Positive(k).Opposite()] as int
  }

  ghost predicate PairFree(s: seq<ActiveFlag>) {
    forall f :: f in s ==> f.Opposite() !in s
  }

  /** An entry that the list can hold, given how often it occurs. */
  predicate Storable(f: ActiveFlag, multiplicity: nat) {
    && f.Constructed()
    && f.ty != DecreaseLedLock
    && (f.AnyLock() ==> multiplicity <= 1)
  }

  /** The invariant of the list. */
  ghost predicate Canonical(s: seq<ActiveFlag>) {
    && PairFree(s)
    && forall f :: f in s ==> Storable(f, multiset(s)[f])
  }

  ghost predicate WellFormed(op: Op) {
    op.PushFlag? ==> op.f.Constructed()
  }

  // ----- What erasing pairs does -----

  /** Cancels the oldest opposite entry, or appends: what a push means. */
  function Cancel(s: seq<ActiveFlag>, f: ActiveFlag): seq<ActiveFlag> {
    var i := FirstPaired(s, f, 0);
    if i == |s| then s + [f] else RemoveAt(s, i)
  }

  /** One turn of the outer loop, whose search for a partner of the entry at `i` ended at `j`. */
  lemma ErasePairsStep(s: seq<ActiveFlag>, i: nat, j: nat)
    requires i < j <= |s| && forall k :: i < k < j ==> !s[i].IsPaired(s[k])
    requires j < |s| ==> s[i].IsPaired(s[j])
    ensures j == |s| ==> ErasePairsFrom(s, i) == ErasePairsFrom(s, i + 1)
    ensures j < |s| ==>
              && |RemoveAt(s, j)| == |s| - 1 && |RemoveAt(RemoveAt(s, j), i)| == |s| - 2
              && ErasePairsFrom(s, i) == ErasePairsFrom(RemoveAt(RemoveAt(s, j), i), if i > 0 then i else 1)
  {
    assert FirstPaired(s, s[i], i + 1) == j;
    hide FirstPaired;
  }

  lemma ErasePairsEnd(s: seq<ActiveFlag>, i: nat)
    requires i >= |s|
    ensures ErasePairsFrom(s, i) == s
  {
  }

  /** A list in which no two entries are paired is left alone. */
  lemma {:induction false} ErasePairsNoPair(s: seq<ActiveFlag>, i: nat)
    requires PairFree(s)
    ensures ErasePairsFrom(s, i) == s
    decreases |s| - i
  {
    if i < |s| {
      var j := FirstPaired(s, s[i], i + 1);
      assert s[i] in s;
      if j < |s| {
        PairedIffOpposite(s[j], s[i]);
        assert false;
      }
      ErasePairsNoPair(s, i + 1);
    }
  }

  lemma CancelPairFree(s: seq<ActiveFlag>, f: ActiveFlag)
    requires PairFree(s)
    ensures PairFree(Cancel(s, f))
  {
    var i := FirstPaired(s, f, 0);
    if i == |s| {
      forall g | g in s + [f] ensures g.Opposite() !in s + [f] {
        PairedIffOpposite(f, g);
        if g.Opposite() in s {
          var j :| 0 <= j < |s| && s[j] == g.Opposite();
          PairedIffOpposite(f, s[j]);
        }
      }
    } else {
      assert forall g :: g in RemoveAt(s, i) ==> g in s;
    }
  }

  /** The general in-place loops reduce to `Cancel` when one entry joins a pair-free list. */
  lemma {:induction false} ErasePairsAfterAppend(s: seq<ActiveFlag>, f: ActiveFlag, i: nat)
    requires PairFree(s)
    requires i <= FirstPaired(s, f, 0)
    ensures ErasePairsFrom(s + [f], i) == Cancel(s, f)
    decreases |s| - i
  {
    var t := s + [f];
    var first := FirstPaired(s, f, 0);
    if i < |s| {
      var j := FirstPaired(t, t[i], i + 1);
      PairedIffOpposite(f, s[i]);
      assert s[i] in s;
      if j < |s| {
        PairedIffOpposite(s[j], s[i]);
        assert false;
      }
      if i == first {
        assert t[i].IsPaired(t[|s|]);
        assert RemoveAt(t, |s|) == s;
        CancelPairFree(s, f);
        ErasePairsNoPair(RemoveAt(s, i), if i > 0 then i else 1);
      } else {
        assert !t[i].IsPaired(t[|s|]);
        ErasePairsAfterAppend(s, f, i + 1);
      }
    } else {
      assert ErasePairsFrom(t, |s|) == t;
    }
  }

  // ----- The list refines the counters -----

  /** The multiplicities after a push of an entry that may cancel. */
  lemma CancelMultiset(s: seq<ActiveFlag>, f: ActiveFlag)
    requires PairFree(s)
    ensures multiset(Cancel(s, f)) ==
            if f.Opposite() in s then multiset(s) - multiset{f.Opposite()} else multiset(s) + multiset{f}
    ensures f.Opposite() in s ==> f !in s
  {
    var i := FirstPaired(s, f, 0);
    if i < |s| {
      PairedIffOpposite(f, s[i]);
      RemoveAtMultiset(s, i);
      assert s[i] in s;
    } else if f.Opposite() in s {
      var j :| 0 <= j < |s| && s[j] == f.Opposite();
      PairedIffOpposite(f, s[j]);
      assert false;
    }
  }

  /** `Push` without its loops, on the lists the manager holds. */
  lemma PushIsCancel(s: seq<ActiveFlag>, f: ActiveFlag)
    requires PairFree(s)
    ensures f.ty != DecreaseLedLock ==>
              Push(s, f) == Cancel(if f.AnyLock() then Filter(s, Except(f)) else s, f)
  {
    var t := if f.AnyLock() then Filter(s, Except(f)) else s;
    FilterKeeps(s, (g: ActiveFlag) => g != f);
    ErasePairsAfterAppend(t, f, 0);
  }

  /** The two entries of one counter in a canonical list. */
  lemma CanonicalAt(s: seq<ActiveFlag>, k: CounterKey)
    requires Canonical(s)
    ensures multiset(s)[Positive(k)] == Max(0, Counter(s, k))
    ensures multiset(s)[Positive(k).Opposite()] == Max(0, -Counter(s, k))
    ensures k.kind == Lock ==> -1 <= Counter(s, k) <= 1
    ensures k.kind == LedLock ==> 0 <= Counter(s, k) <= 1 && (k.device != 0 ==> Counter(s, k) == 0)
  {
    var p := Positive(k);
    assert p in s <==> p in multiset(s);
    assert p.Opposite() in s <==> p.Opposite() in multiset(s);
  }

  lemma FilterCanonical(s: seq<ActiveFlag>, keep: ActiveFlag -> bool)
    requires Canonical(s)
    ensures Canonical(Filter(s, keep))
  {
    FilterKeeps(s, keep);
    forall f | f in Filter(s, keep) ensures Storable(f, multiset(Filter(s, keep))[f]) {
      FilterMultiset(s, keep, f);
    }
  }

  lemma FilterRefines(s: seq<ActiveFlag>, keep: ActiveFlag -> bool, k: CounterKey)
    requires Canonical(s)
    ensures Canonical(Filter(s, keep))
    ensures Counter(Filter(s, keep), k) ==
            (if keep(Positive(k)) then Max(0, Counter(s, k)) else 0) -
            (if keep(Positive(k).Opposite()) then Max(0, -Counter(s, k)) else 0)
  {
    FilterCanonical(s, keep);
    CanonicalAt(s, k);
    FilterMultiset(s, keep, Positive(k));
    FilterMultiset(s, keep, Positive(k).Opposite());
  }

  lemma CancelCanonical(s: seq<ActiveFlag>, f: ActiveFlag)
    requires Canonical(s) && f.Constructed() && f.ty != DecreaseLedLock
    requires f.AnyLock() ==> f !in s
    ensures Canonical(Cancel(s, f))
  {
    var t := Cancel(s, f);
    CancelPairFree(s, f);
    forall g | g in t ensures Storable(g, multiset(t)[g]) {
      CancelMultiset(s, f);
      assert g in multiset(t);
      assert g != f ==> multiset(t)[g] <= multiset(s)[g] && g in multiset(s);
      assert g != f ==> g in s;
    }
  }

  lemma CancelCounter(s: seq<ActiveFlag>, f: ActiveFlag, k: CounterKey)
    requires PairFree(s)
    ensures Counter(Cancel(s, f), k) == Counter(s, k) + if f.Key() == k then f.Count() else 0
  {
    CancelMultiset(s, f);
    assert f.Opposite() in s ==> f.Opposite() in multiset(s);
    KeyEntries(f, k);
  }

  lemma CancelRefines(s: seq<ActiveFlag>, f: ActiveFlag, k: CounterKey)
    requires Canonical(s) && f.Constructed() && f.ty != DecreaseLedLock
    requires f.AnyLock() ==> f !in s
    ensures Canonical(Cancel(s, f))
    ensures Counter(Cancel(s, f), k) == Counter(s, k) + if f.Key() == k then f.Count() else 0
  {
    CancelCanonical(s, f);
    CancelCounter(s, f, k);
  }

  lemma PushLockIsCancel(s: seq<ActiveFlag>, f: ActiveFlag)
    requires Canonical(s) && f.AnyLock() && f.ty != DecreaseLedLock
    ensures Push(s, f) == Cancel(Filter(s, Except(f)), f)
  {
    hide Push, Cancel, Filter;
    PushIsCancel(s, f);
  }

  /** The two entries that move counter `k`. */
  lemma KeyEntries(f: ActiveFlag, k: CounterKey)
    ensures Positive(k).Count() == 1 && Positive(k).Opposite().Count() == -1
    ensures f.Key() == k <==> f == Positive(k) || f == Positive(k).Opposite()
    ensures f.Key() == k <==> f.Opposite() == Positive(k) || f.Opposite() == Positive(k).Opposite()
    ensures Positive(k) != Positive(k).Opposite()
    ensures f.Opposite().Opposite() == f && f.Opposite().Count() == -f.Count()
  {
  }

  lemma PushLockRefines(s: seq<ActiveFlag>, f: ActiveFlag, k: CounterKey)
    requires Canonical(s) && f.Constructed() && f.AnyLock() && f.ty != DecreaseLedLock
    ensures Canonical(Push(s, f))
    ensures Counter(Push(s, f), k) == StepCounter(Counter(s, k), PushFlag(f), k)
  {
    hide Push, Cancel, Filter, Canonical, Counter;
    var t := Filter(s, Except(f));
    PushLockIsCancel(s, f);
    FilterRefines(s, Except(f), k);
    FilterKeeps(s, Except(f));
    CancelRefines(t, f, k);
    CanonicalAt(s, k);
    KeyEntries(f, k);
  }

  lemma PushLedOffRefines(s: seq<ActiveFlag>, f: ActiveFlag, k: CounterKey)
    requires Canonical(s) && f.Constructed() && f.ty == DecreaseLedLock
    ensures Canonical(Push(s, f))
    ensures Counter(Push(s, f), k) == StepCounter(Counter(s, k), PushFlag(f), k)
  {
    FilterRefines(s, NotPairedWith(f), k);
    PairedIffOpposite(Positive(k), f);
    PairedIffOpposite(Positive(k).Opposite(), f);
    CanonicalAt(s, k);
  }

  lemma PushRefines(s: seq<ActiveFlag>, f: ActiveFlag, k: CounterKey)
    requires Canonical(s) && f.Constructed()
    ensures Canonical(Push(s, f))
    ensures Counter(Push(s, f), k) == StepCounter(Counter(s, k), PushFlag(f), k)
  {
    if f.ty == DecreaseLedLock {
      PushLedOffRefines(s, f, k);
    } else if f.AnyLock() {
      PushLockRefines(s, f, k);
    } else {
      PushIsCancel(s, f);
      CancelCanonical(s, f);
      CancelCounter(s, f, k);
    }
  }

  /** Every operation keeps the list canonical, and moves every counter as `StepCounter` says. */
  lemma ApplyRefines(s: seq<ActiveFlag>, op: Op, k: CounterKey)
    requires Canonical(s) && WellFormed(op)
    ensures Canonical(Apply(s, op))
    ensures Counter(Apply(s, op), k) == StepCounter(Counter(s, k), op, k)
  {
    if op.PushFlag? {
      PushRefines(s, op.f, k);
    } else {
      FilterRefines(s, Surviving(op), k);
    }
  }

  /** The erasing operations, entry by entry. */
  lemma ErasedEntries(s: seq<ActiveFlag>, f: ActiveFlag, d: DeviceId)
    ensures f in Apply(s, EraseDevice(d)) <==> f in s && f.device != d
    ensures f in Apply(s, EraseDeviceExceptLockAndSticky(d)) <==>
            f in s && !(f.device == d && (f.ty == Increase || f.ty == Decrease))
    ensures f in Apply(s, EraseCapsLockSticky) <==>
            f in s && !(f.flag == CapsLock && (f.ty == IncreaseSticky || f.ty == DecreaseSticky))
    ensures f in Apply(s, EraseSticky) <==> f in s && f.ty != IncreaseSticky && f.ty != DecreaseSticky
    ensures f !in Apply(s, Reset)
  {
    FilterKeeps(s, Surviving(EraseDevice(d)));
    FilterKeeps(s, Surviving(EraseDeviceExceptLockAndSticky(d)));
    FilterKeeps(s, Surviving(EraseCapsLockSticky));
    FilterKeeps(s, Surviving(EraseSticky));
    FilterKeeps(s, Surviving(Reset));
    hide Filter;
  }

  /** Over every run of operations from the empty list. */
  lemma {:induction false} RunRefines(s: seq<ActiveFlag>, ops: seq<Op>, k: CounterKey)
    requires Canonical(s) && forall op :: op in ops ==> WellFormed(op)
    ensures Canonical(Run(s, ops))
    ensures Counter(Run(s, ops), k) == RunCounter(Counter(s, k), ops, k)
  {
    if ops != [] {
      RunRefines(s, ops[..|ops| - 1], k);
      ApplyRefines(Run(s, ops[..|ops| - 1]), ops[|ops| - 1], k);
    }
  }

  /** The counters determine the list up to order. */
  lemma CountersDetermineList(s: seq<ActiveFlag>, t: seq<ActiveFlag>)
    requires Canonical(s) && Canonical(t)
    requires forall k :: Counter(s, k) == Counter(t, k)
    ensures multiset(s) == multiset(t)
  {
    forall f ensures multiset(s)[f] == multiset(t)[f] {
      var k := f.Key();
      assert f == Positive(k) || f == Positive(k).Opposite();
      CanonicalAt(s, k);
      CanonicalAt(t, k);
    }
  }

  // ----- Which modifiers are pressed -----

  /** The signed number of entries of one flag and kind, over all devices. */
  function Sum(s: seq<ActiveFlag>, m: ModifierFlag, kind: FlagKind): int {
    if s == [] then 0
    else Sum(s[..|s| - 1], m, kind) + Share(s[|s| - 1], m, kind)
  }

  function Share(f: ActiveFlag, m: ModifierFlag, kind: FlagKind): int {
    if f.flag == m && f.Kind() == kind then f.Count() else 0
  }

  /** The signed number of entries of one flag other than LED entries. */
  function Net(s: seq<ActiveFlag>, m: ModifierFlag): int {
    Sum(s, m, Plain) + Sum(s, m, Lock) + Sum(s, m, Sticky)
  }

  predicate OnlyLed(s: seq<ActiveFlag>, m: ModifierFlag) {
    forall f :: f in s && f.flag == m ==> f.IsLedLock()
  }

  predicate Pressed(s: seq<ActiveFlag>, m: ModifierFlag) {
    if OnlyLed(s, m) then Sum(s, m, LedLock) > 0 else Net(s, m) > 0
  }

  lemma {:induction false} SumAppend(s: seq<ActiveFlag>, t: seq<ActiveFlag>, m: ModifierFlag, kind: FlagKind)
    ensures Sum(s + t, m, kind) == Sum(s, m, kind) + Sum(t, m, kind)
  {
    if t == [] {
      assert s + t == s;
    } else {
      SumAppend(s, t[..|t| - 1], m, kind);
      assert (s + t)[..|s + t| - 1] == s + t[..|t| - 1];
    }
  }

  lemma SumSnoc(s: seq<ActiveFlag>, f: ActiveFlag, m: ModifierFlag, kind: FlagKind)
    ensures Sum(s + [f], m, kind) == Sum(s, m, kind) + Share(f, m, kind)
  {
    assert (s + [f])[..|s + [f]| - 1] == s;
  }

  lemma SumOne(f: ActiveFlag, m: ModifierFlag, kind: FlagKind)
    ensures Sum([f], m, kind) == Share(f, m, kind)
  {
    assert [f][..0] == [];
  }

  lemma SumRemoveAt(s: seq<ActiveFlag>, i: nat, m: ModifierFlag, kind: FlagKind)
    requires i < |s|
    ensures Sum(RemoveAt(s, i), m, kind) == Sum(s, m, kind) - Share(s[i], m, kind)
  {
    assert s == s[..i] + [s[i]] + s[i + 1..];
    SumAppend(s[..i] + [s[i]], s[i + 1..], m, kind);
    SumAppend(s[..i], [s[i]], m, kind);
    SumAppend(s[..i], s[i + 1..], m, kind);
    SumOne(s[i], m, kind);
  }

  lemma SumCancel(s: seq<ActiveFlag>, f: ActiveFlag, m: ModifierFlag, kind: FlagKind)
    ensures Sum(Cancel(s, f), m, kind) == Sum(s, m, kind) + Share(f, m, kind)
  {
    var i := FirstPaired(s, f, 0);
    if i == |s| {
      SumAppend(s, [f], m, kind);
      SumOne(f, m, kind);
    } else {
      SumRemoveAt(s, i, m, kind);
      PairedIffOpposite(f, s[i]);
    }
  }

  lemma {:induction false} SumExcept(s: seq<ActiveFlag>, f: ActiveFlag, m: ModifierFlag, kind: FlagKind)
    requires multiset(s)[f] <= 1
    ensures Sum(Filter(s, Except(f)), m, kind) == Sum(s, m, kind) - if f in s then Share(f, m, kind) else 0
  {
    if s != [] {
      var t, g := s[..|s| - 1], s[|s| - 1];
      assert s == t + [g];
      assert multiset(s) == multiset(t) + multiset{g};
      SumExcept(t, f, m, kind);
      assert f in t <==> f in multiset(t);
      hide Sum, Filter;
      FilterSnoc(t, g, Except(f));
      SumSnoc(t, g, m, kind);
      SumSnoc(Filter(t, Except(f)), g, m, kind);
    }
  }

  lemma {:induction false} NotPairedIsExcept(s: seq<ActiveFlag>, f: ActiveFlag)
    ensures Filter(s, NotPairedWith(f)) == Filter(s, Except(f.Opposite()))
  {
    if s != [] {
      NotPairedIsExcept(s[..|s| - 1], f);
      PairedIffOpposite(s[|s| - 1], f);
    }
  }

  lemma PushLockSum(s: seq<ActiveFlag>, f: ActiveFlag, m: ModifierFlag, kind: FlagKind)
    requires Canonical(s) && f.Constructed() && f.AnyLock() && f.ty != DecreaseLedLock
    ensures Sum(Push(s, f), m, kind) ==
            Sum(s, m, kind) + if f in s then 0 else Share(f, m, kind)
  {
    assert f in s ==> Storable(f, multiset(s)[f]);
    assert f in s <==> f in multiset(s);
    PushIsCancel(s, f);
    SumExcept(s, f, m, kind);
    SumCancel(Filter(s, Except(f)), f, m, kind);
  }

  lemma PushLedOffSum(s: seq<ActiveFlag>, f: ActiveFlag, m: ModifierFlag, kind: FlagKind)
    requires Canonical(s) && f.Constructed() && f.ty == DecreaseLedLock
    ensures Sum(Push(s, f), m, kind) ==
            Sum(s, m, kind) + if f.Opposite() in s then Share(f, m, kind) else 0
  {
    var g := f.Opposite();
    assert g in s ==> Storable(g, multiset(s)[g]);
    assert g in s <==> g in multiset(s);
    NotPairedIsExcept(s, f);
    SumExcept(s, g, m, kind);
  }

  /** In a canonical list a lock entry is there exactly when its counter has its sign. */
  lemma LockMember(s: seq<ActiveFlag>, f: ActiveFlag)
    requires Canonical(s) && f.Constructed()
    ensures f in s <==> Counter(s, f.Key()) * f.Count() > 0
    ensures f.Opposite() in s <==> Counter(s, f.Key()) * f.Count() < 0
    ensures f.AnyLock() ==> -1 <= Counter(s, f.Key()) <= 1
  {
    CanonicalAt(s, f.Key());
    KeyEntries(f, f.Key());
    assert f in s <==> f in multiset(s);
    assert f.Opposite() in s <==> f.Opposite() in multiset(s);
  }

  lemma PushPlainSum(s: seq<ActiveFlag>, f: ActiveFlag, m: ModifierFlag, kind: FlagKind)
    requires Canonical(s) && !f.AnyLock()
    ensures Sum(Push(s, f), m, kind) == Sum(s, m, kind) + Share(f, m, kind)
  {
    PushIsCancel(s, f);
    SumCancel(s, f, m, kind);
  }

  /** A push moves the sum of its flag and kind exactly as far as its own counter. */
  lemma PushSum(s: seq<ActiveFlag>, f: ActiveFlag, m: ModifierFlag, kind: FlagKind)
    requires Canonical(s) && f.Constructed()
    ensures Sum(Push(s, f), m, kind) ==
            Sum(s, m, kind) +
            if f.flag == m && f.Kind() == kind
            then StepCounter(Counter(s, f.Key()), PushFlag(f), f.Key()) - Counter(s, f.Key())
            else 0
  {
    hide Push, Cancel, Filter, Canonical, Counter, Sum, ErasePairs;
    LockMember(s, f);
    if f.ty == DecreaseLedLock {
      CanonicalAt(s, f.Key());
      PushLedOffSum(s, f, m, kind);
    } else if f.AnyLock() {
      CanonicalAt(s, f.Key());
      PushLockSum(s, f, m, kind);
    } else {
      PushPlainSum(s, f, m, kind);
    }
  }

  lemma SumEmpty(m: ModifierFlag)
    ensures forall kind :: Sum([], m, kind) == 0
  {
  }

  lemma PressedStep(s: seq<ActiveFlag>, f: ActiveFlag, m: ModifierFlag)
    ensures Net(s + [f], m) == Net(s, m) + if f.flag == m && !f.IsLedLock() then f.Count() else 0
    ensures Sum(s + [f], m, LedLock) == Sum(s, m, LedLock) + if f.flag == m && f.IsLedLock() then f.Count() else 0
    ensures OnlyLed(s + [f], m) <==> OnlyLed(s, m) && (f.flag == m ==> f.IsLedLock())
  {
    SumSnoc(s, f, m, Plain);
    SumSnoc(s, f, m, Lock);
    SumSnoc(s, f, m, Sticky);
    SumSnoc(s, f, m, LedLock);
    assert forall g :: g in s + [f] <==> g in s || g == f;
    hide Sum;
  }

  // ----- Pressed, in terms of the counters alone -----

  function SumOver(s: seq<ActiveFlag>, keys: seq<CounterKey>): int {
    if keys == [] then 0 else Counter(s, keys[0]) + SumOver(s, keys[1..])
  }

  /** The same sum, read off the run alone. */
  function RunSum(ops: seq<Op>, keys: seq<CounterKey>): int {
    if keys == [] then 0 else RunCounter(0, ops, keys[0]) + RunSum(ops, keys[1..])
  }

  lemma {:induction false} SumOverIsRunSum(s: seq<ActiveFlag>, ops: seq<Op>, keys: seq<CounterKey>)
    requires forall k :: k in keys ==> Counter(s, k) == RunCounter(0, ops, k)
    ensures SumOver(s, keys) == RunSum(ops, keys)
  {
    if keys != [] {
      SumOverIsRunSum(s, ops, keys[1..]);
    }
  }

  /** The counters of flag `m`, LED counters apart. */
  predicate CountsFor(k: CounterKey, m: ModifierFlag) {
    k.flag == m && k.kind != LedLock
  }

  lemma {:induction false} SumOverAppend(s: seq<ActiveFlag>, f: ActiveFlag, keys: seq<CounterKey>)
    requires Distinct(keys)
    ensures SumOver(s + [f], keys) == SumOver(s, keys) + if f.Key() in keys then f.Count() else 0
  {
    if keys != [] {
      SumOverAppend(s, f, keys[1..]);
      KeyEntries(f, keys[0]);
      assert keys == [keys[0]] + keys[1..];
    }
  }

  lemma {:induction false} SumOverEmpty(keys: seq<CounterKey>)
    ensures SumOver([], keys) == 0
  {
    if keys != [] {
      SumOverEmpty(keys[1..]);
    }
  }

  lemma {:induction false} SumOverIsNet(s: seq<ActiveFlag>, m: ModifierFlag, keys: seq<CounterKey>)
    requires Distinct(keys) && forall k :: k in keys ==> CountsFor(k, m)
    requires forall f :: f in s && CountsFor(f.Key(), m) ==> f.Key() in keys
    ensures SumOver(s, keys) == Net(s, m)
  {
    if s == [] {
      SumOverEmpty(keys);
    } else {
      var t, f := s[..|s| - 1], s[|s| - 1];
      assert s == t + [f];
      SumOverIsNet(t, m, keys);
      SumOverAppend(t, f, keys);
      PressedStep(t, f, m);
    }
  }

  /**
   `is_pressed` after any run: with any duplicate-free listing of the flag's
   counters that misses no nonzero one, the flag is pressed iff their sum is
   positive, or all of them are zero and the LED counter is on.
   */
  lemma PressedIsCounterFormula(ops: seq<Op>, m: ModifierFlag, keys: seq<CounterKey>)
    requires forall op :: op in ops ==> WellFormed(op)
    requires Distinct(keys) && forall k :: k in keys ==> CountsFor(k, m)
    requires forall k :: CountsFor(k, m) && RunCounter(0, ops, k) != 0 ==> k in keys
    ensures Pressed(Run([], ops), m) <==>
            if forall k :: k in keys ==> RunCounter(0, ops, k) == 0
            then RunCounter(0, ops, CounterKey(LedLock, m, 0)) == 1
            else RunSum(ops, keys) > 0
  {
    var s := Run([], ops);
    RunRefines([], ops, CounterKey(LedLock, m, 0));
    forall k ensures Counter(s, k) == RunCounter(0, ops, k) {
      RunRefines([], ops, k);
    }
    forall f | f in s && CountsFor(f.Key(), m) ensures f.Key() in keys && Counter(s, f.Key()) != 0 {
      LockMember(s, f);
    }
    SumOverIsNet(s, m, keys);
    SumOverIsRunSum(s, ops, keys);
    OnlyLedByCounters(s, m, keys);
    LedSum(s, m);
  }

  lemma OnlyLedByCounters(s: seq<ActiveFlag>, m: ModifierFlag, keys: seq<CounterKey>)
    requires Canonical(s) && forall k :: k in keys ==> CountsFor(k, m)
    requires forall f :: f in s && CountsFor(f.Key(), m) ==> f.Key() in keys && Counter(s, f.Key()) != 0
    ensures OnlyLed(s, m) <==> forall k :: k in keys ==> Counter(s, k) == 0
  {
    if OnlyLed(s, m) {
      forall k | k in keys ensures Counter(s, k) == 0 {
        LockMember(s, Positive(k));
        KeyEntries(Positive(k), k);
      }
    }
  }

  /** The only LED entry a canonical list can hold for a flag is the shared one. */
  lemma LedEntry(s: seq<ActiveFlag>, f: ActiveFlag)
    requires Canonical(s) && f in s
    ensures f.IsLedLock() ==> f == ActiveFlag(IncreaseLedLock, f.flag, 0)
    ensures f.AnyLock() ==> multiset(s)[f] == 1
  {
    assert Storable(f, multiset(s)[f]);
    assert f in multiset(s);
  }

  lemma LedSum(s: seq<ActiveFlag>, m: ModifierFlag)
    requires Canonical(s)
    ensures Sum(s, m, LedLock) == Counter(s, CounterKey(LedLock, m, 0))
  {
    var f := ActiveFlag(IncreaseLedLock, m, 0);
    var t := Filter(s, Except(f));
    forall g | g in t && g.flag == m ensures !g.IsLedLock() {
      FilterKeeps(s, Except(f));
      LedEntry(s, g);
    }
    NoLedNoSum(t, m);
    LockMember(s, f);
    if f in s {
      LedEntry(s, f);
    } else {
      assert f !in multiset(s);
    }
    hide Sum, Canonical, Filter;
    SumExcept(s, f, m, LedLock);
    CanonicalAt(s, CounterKey(LedLock, m, 0));
  }

  lemma {:induction false} NoLedNoSum(s: seq<ActiveFlag>, m: ModifierFlag)
    requires forall f :: f in s && f.flag == m ==> !f.IsLedLock()
    ensures Sum(s, m, LedLock) == 0
  {
    if s != [] {
      NoLedNoSum(s[..|s| - 1], m);
    }
  }
}
