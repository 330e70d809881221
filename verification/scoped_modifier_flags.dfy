/**
 A scope that forces an exact set of pressed modifiers onto a manager, and
 takes its own entries back when it is destroyed.
 */
module ScopedModifierFlags {
  import opened Types
  import opened ActiveModifierFlags
  import opened ModifierFlagLists
  import opened Sequences
  import opened ModifierFlagManagers

  /** The flags a scope controls, in the order it handles them. */
  const SCOPED_FLAGS: seq<ModifierFlag> :=
    [CapsLock, LeftControl, LeftShift, LeftOption, LeftCommand,
     RightControl, RightShift, RightOption, RightCommand, Fn]

  // ----- What the scope pushes -----

  function PushAll(s: seq<ActiveFlag>, ps: seq<ActiveFlag>): seq<ActiveFlag> {
    if ps == [] then s else Push(PushAll(s, ps[..|ps| - 1]), ps[|ps| - 1])
  }

  /** The counterpart of `PushAll` for one counter. */
  function PushAllCounter(c: int, ps: seq<ActiveFlag>, k: CounterKey): int {
    if ps == [] then c
    else StepCounter(PushAllCounter(c, ps[..|ps| - 1], k), PushFlag(ps[|ps| - 1]), k)
  }

  /** Entries a scope may push: built by the constructor, and owned by no hardware. */
  ghost predicate ScopeEntries(ps: seq<ActiveFlag>) {
    forall f :: f in ps ==> f.Constructed() && f.device == 0
  }

  function Undo(f: ActiveFlag): ActiveFlag {
    MakeActiveFlag(f.ty.Inverse(), f.flag, f.device)
  }

  function UndoAll(ps: seq<ActiveFlag>): seq<ActiveFlag> {
    if ps == [] then [] else UndoAll(ps[..|ps| - 1]) + [Undo(ps[|ps| - 1])]
  }

  lemma UndoAllSnoc(ps: seq<ActiveFlag>, f: ActiveFlag)
    ensures UndoAll(ps + [f]) == UndoAll(ps) + [Undo(f)]
  {
    assert (ps + [f])[..|ps + [f]| - 1] == ps;
  }

  lemma CounterOne(c: int, ps: seq<ActiveFlag>, f: ActiveFlag, k: CounterKey)
    ensures PushAllCounter(c, ps + [f], k) == StepCounter(PushAllCounter(c, ps, k), PushFlag(f), k)
  {
    assert (ps + [f])[..|ps + [f]| - 1] == ps;
  }

  /** Plain pushes on device 0 until the flag counts as pressed. */
  function Increases(s: seq<ActiveFlag>, m: ModifierFlag): seq<ActiveFlag>
    requires Canonical(s)
    decreases Max(0, 1 - Net(s, m))
  {
    if Pressed(s, m) then []
    else
      var f := MakeActiveFlag(Increase, m, 0);
      IncreaseProgress(s, m);
      [f] + Increases(Push(s, f), m)
  }

  /** The inverse of every entry of the flag, moved to device 0. */
  function Inverses(s: seq<ActiveFlag>, m: ModifierFlag): seq<ActiveFlag> {
    if s == [] then []
    else
      var f := s[|s| - 1];
      var rest := Inverses(s[..|s| - 1], m);
      if f.flag == m then rest + [MakeActiveFlag(f.ty.Inverse(), m, 0)] else rest
  }

  function FlagPushes(s: seq<ActiveFlag>, wanted: bool, m: ModifierFlag): seq<ActiveFlag>
    requires Canonical(s)
  {
    if wanted then Increases(s, m)
    else if Pressed(s, m) then Inverses(s, m)
    else []
  }

  /** What the constructor pushes when it handles `flags` in this order. */
  function ScopePushes(s: seq<ActiveFlag>, wanted: set<ModifierFlag>, flags: seq<ModifierFlag>): (ps: seq<ActiveFlag>)
    requires Canonical(s)
    ensures ScopeEntries(ps) && Canonical(PushAll(s, ps))
  {
    if flags == [] then []
    else
      var ps := ScopePushes(s, wanted, flags[..|flags| - 1]);
      var m := flags[|flags| - 1];
      var t := PushAll(s, ps);
      FlagPushesEntries(t, m in wanted, m);
      PushAllAppend(s, ps, FlagPushes(t, m in wanted, m));
      ps + FlagPushes(t, m in wanted, m)
  }

  lemma ScopePushesSnoc(s: seq<ActiveFlag>, wanted: set<ModifierFlag>, flags: seq<ModifierFlag>, m: ModifierFlag)
    requires Canonical(s)
    ensures ScopePushes(s, wanted, flags + [m]) ==
            ScopePushes(s, wanted, flags) + FlagPushes(PushAll(s, ScopePushes(s, wanted, flags)), m in wanted, m)
  {
    assert (flags + [m])[..|flags + [m]| - 1] == flags;
  }

  lemma NextFlag(s: seq<ActiveFlag>, wanted: set<ModifierFlag>, flags: seq<ModifierFlag>, n: nat)
    requires Canonical(s) && n < |flags|
    ensures var ps := ScopePushes(s, wanted, flags[..n]);
            var qs := FlagPushes(PushAll(s, ps), flags[n] in wanted, flags[n]);
            && ScopePushes(s, wanted, flags[..n + 1]) == ps + qs
            && PushAll(s, ps + qs) == PushAll(PushAll(s, ps), qs)
  {
    assert flags[..n + 1] == flags[..n] + [flags[n]];
    ScopePushesSnoc(s, wanted, flags[..n], flags[n]);
    PushAllAppend(s, ScopePushes(s, wanted, flags[..n]),
                  FlagPushes(PushAll(s, ScopePushes(s, wanted, flags[..n])), flags[n] in wanted, flags[n]));
  }

  lemma IncreaseProgress(s: seq<ActiveFlag>, m: ModifierFlag)
    requires Canonical(s)
    ensures Canonical(Push(s, MakeActiveFlag(Increase, m, 0)))
    ensures Net(Push(s, MakeActiveFlag(Increase, m, 0)), m) == Net(s, m) + 1
    ensures !Pressed(s, m) ==> Net(s, m) <= 0
  {
    var f := MakeActiveFlag(Increase, m, 0);
    PushRefines(s, f, f.Key());
    PushSum(s, f, m, Plain);
    PushSum(s, f, m, Lock);
    PushSum(s, f, m, Sticky);
    if OnlyLed(s, m) {
      OnlyLedNet(s, m);
    }
  }

  lemma {:induction false} OnlyLedNet(s: seq<ActiveFlag>, m: ModifierFlag)
    requires OnlyLed(s, m)
    ensures Net(s, m) == 0
  {
    if s != [] {
      OnlyLedNet(s[..|s| - 1], m);
    }
  }

  /** One turn of the loop moves one entry from what is left to what is done. */
  lemma IncreasesShift(start: seq<ActiveFlag>, s: seq<ActiveFlag>, done: seq<ActiveFlag>, m: ModifierFlag)
    requires Canonical(start) && Canonical(s) && !Pressed(s, m)
    requires Increases(start, m) == done + Increases(s, m)
    ensures var f := MakeActiveFlag(Increase, m, 0);
            Canonical(Push(s, f)) && Increases(start, m) == (done + [f]) + Increases(Push(s, f), m)
  {
    IncreaseProgress(s, m);
  }

  lemma IncreasesDone(start: seq<ActiveFlag>, s: seq<ActiveFlag>, done: seq<ActiveFlag>, m: ModifierFlag)
    requires Canonical(start) && Canonical(s) && Pressed(s, m)
    requires Increases(start, m) == done + Increases(s, m)
    ensures Increases(start, m) == done
  {
  }

  lemma InversesSnoc(t: seq<ActiveFlag>, f: ActiveFlag, m: ModifierFlag)
    ensures Inverses(t + [f], m) ==
            if f.flag == m then Inverses(t, m) + [MakeActiveFlag(f.ty.Inverse(), m, 0)] else Inverses(t, m)
  {
    assert (t + [f])[..|t + [f]| - 1] == t;
  }

  lemma InversesUpTo(s: seq<ActiveFlag>, i: nat, m: ModifierFlag)
    requires i < |s|
    ensures Inverses(s[..i + 1], m) ==
            if s[i].flag == m
            then Inverses(s[..i], m) + [MakeActiveFlag(s[i].ty.Inverse(), m, 0)]
            else Inverses(s[..i], m)
  {
    assert s[..i + 1][..i] == s[..i];
  }

  lemma PushAllOne(s: seq<ActiveFlag>, ps: seq<ActiveFlag>, f: ActiveFlag)
    ensures PushAll(s, ps + [f]) == Push(PushAll(s, ps), f)
  {
    assert (ps + [f])[..|ps + [f]| - 1] == ps;
  }

  lemma NothingPushed(s: seq<ActiveFlag>, m: ModifierFlag)
    ensures PushAll(s, []) == s && Inverses([], m) == []
  {
  }

  lemma {:induction false} PushAllAppend(s: seq<ActiveFlag>, ps: seq<ActiveFlag>, qs: seq<ActiveFlag>)
    ensures PushAll(s, ps + qs) == PushAll(PushAll(s, ps), qs)
    ensures UndoAll(ps + qs) == UndoAll(ps) + UndoAll(qs)
  {
    if qs == [] {
      assert ps + qs == ps;
    } else {
      PushAllAppend(s, ps, qs[..|qs| - 1]);
      assert (ps + qs)[..|ps + qs| - 1] == ps + qs[..|qs| - 1];
    }
  }

  lemma {:induction false} PushAllCounterAppend(c: int, ps: seq<ActiveFlag>, qs: seq<ActiveFlag>, k: CounterKey)
    ensures PushAllCounter(c, ps + qs, k) == PushAllCounter(PushAllCounter(c, ps, k), qs, k)
  {
    if qs == [] {
      assert ps + qs == ps;
    } else {
      PushAllCounterAppend(c, ps, qs[..|qs| - 1], k);
      assert (ps + qs)[..|ps + qs| - 1] == ps + qs[..|qs| - 1];
    }
  }

  lemma {:induction false} PushAllRefines(s: seq<ActiveFlag>, ps: seq<ActiveFlag>, k: CounterKey)
    requires Canonical(s) && forall f :: f in ps ==> f.Constructed()
    ensures Canonical(PushAll(s, ps))
    ensures Counter(PushAll(s, ps), k) == PushAllCounter(Counter(s, k), ps, k)
  {
    if ps != [] {
      PushAllRefines(s, ps[..|ps| - 1], k);
      PushRefines(PushAll(s, ps[..|ps| - 1]), ps[|ps| - 1], k);
    }
  }

  lemma {:induction false} IncreasesEntries(s: seq<ActiveFlag>, m: ModifierFlag)
    requires Canonical(s)
    ensures forall f :: f in Increases(s, m) ==> f == ActiveFlag(Increase, m, 0)
    ensures Pressed(PushAll(s, Increases(s, m)), m)
    decreases Max(0, 1 - Net(s, m))
  {
    if !Pressed(s, m) {
      var f := MakeActiveFlag(Increase, m, 0);
      IncreaseProgress(s, m);
      IncreasesEntries(Push(s, f), m);
      PushAllAppend(s, [f], Increases(Push(s, f), m));
      PushAllOne(s, [], f);
      assert [] + [f] == [f];
    }
  }

  lemma {:induction false} InversesEntries(s: seq<ActiveFlag>, m: ModifierFlag)
    ensures forall f :: f in Inverses(s, m) ==> f.Constructed() && f.device == 0 && f.flag == m
  {
    if s != [] {
      InversesEntries(s[..|s| - 1], m);
    }
  }

  lemma FlagPushesEntries(s: seq<ActiveFlag>, wanted: bool, m: ModifierFlag)
    requires Canonical(s)
    ensures ScopeEntries(FlagPushes(s, wanted, m))
    ensures forall f :: f in FlagPushes(s, wanted, m) ==> f.flag == m
    ensures Canonical(PushAll(s, FlagPushes(s, wanted, m)))
  {
    if wanted {
      IncreasesEntries(s, m);
    } else {
      InversesEntries(s, m);
    }
    PushAllRefines(s, FlagPushes(s, wanted, m), CounterKey(Plain, m, 0));
  }

  // ----- The object -----

  class ScopedModifierFlags {
    const manager: ModifierFlagManager
    var scoped: seq<ActiveFlag>

    constructor (manager: ModifierFlagManager, wanted: set<ModifierFlag>)
      requires manager.Valid()
      modifies manager
      ensures this.manager == manager && manager.Valid()
      ensures scoped == ScopePushes(old(manager.active), wanted, SCOPED_FLAGS)
      ensures manager.active == PushAll(old(manager.active), scoped)
    {
      this.manager := manager;
      scoped := [];
      new;
      ForceAll(SCOPED_FLAGS, wanted);
    }

    /** The loop over the controlled flags. */
    method ForceAll(flags: seq<ModifierFlag>, wanted: set<ModifierFlag>)
      requires manager.Valid() && scoped == []
      modifies this, manager
      ensures manager.Valid()
      ensures scoped == ScopePushes(old(manager.active), wanted, flags)
      ensures manager.active == PushAll(old(manager.active), scoped)
    {
      ghost var start := manager.active;
      assert flags[..0] == [];
      assert ScopePushes(start, wanted, []) == [] && PushAll(start, []) == start;
      hide Push, PushAll, ScopePushes, FlagPushes, Canonical, Counter, StepCounter;
      for n := 0 to |flags|
        invariant manager.Valid()
        invariant scoped == ScopePushes(start, wanted, flags[..n])
        invariant manager.active == PushAll(start, scoped)
      {
        var m := flags[n];
        NextFlag(start, wanted, flags, n);
        if m in wanted {
          ForceOn(m);
        } else {
          ForceOff(m);
        }
      }
      assert flags[..|flags|] == flags;
    }

    /** The `while` loop for a requested flag. */
    method ForceOn(m: ModifierFlag)
      requires manager.Valid()
      modifies this, manager
      ensures manager.Valid()
      ensures scoped == old(scoped) + FlagPushes(old(manager.active), true, m)
      ensures manager.active == PushAll(old(manager.active), FlagPushes(old(manager.active), true, m))
    {
      hide Push, PushAll, Canonical, Pressed, Net, Increases, Counter, StepCounter;
      ghost var start, done := manager.active, [];
      var pressed := manager.IsPressed(m);
      NothingPushed(start, m);
      while !pressed
        invariant manager.Valid() && pressed == Pressed(manager.active, m)
        invariant scoped == old(scoped) + done && manager.active == PushAll(start, done)
        invariant Increases(start, m) == done + Increases(manager.active, m)
        decreases Max(0, 1 - Net(manager.active, m)), !pressed
      {
        var f := MakeActiveFlag(Increase, m, 0);
        IncreaseProgress(manager.active, m);
        IncreasesShift(start, manager.active, done, m);
        PushAllOne(start, done, f);
        AppendAssoc(old(scoped), done, f);
        manager.PushBack(f);
        scoped := scoped + [f];
        done := done + [f];
        pressed := manager.IsPressed(m);
      }
      IncreasesDone(start, manager.active, done, m);
    }

    /** The loop over a copy of the list for a flag that must not be pressed. */
    method ForceOff(m: ModifierFlag)
      requires manager.Valid()
      modifies this, manager
      ensures manager.Valid()
      ensures scoped == old(scoped) + FlagPushes(old(manager.active), false, m)
      ensures manager.active == PushAll(old(manager.active), FlagPushes(old(manager.active), false, m))
    {
      hide Push, PushAll, Canonical, Pressed, Counter, StepCounter, Inverses;
      var pressed := manager.IsPressed(m);
      NothingPushed(manager.active, m);
      if pressed {
        var copy := manager.active;
        assert copy[..0] == [];
        for i := 0 to |copy|
          invariant manager.Valid()
          invariant scoped == old(scoped) + Inverses(copy[..i], m)
          invariant manager.active == PushAll(copy, Inverses(copy[..i], m))
        {
          var f := copy[i];
          InversesUpTo(copy, i, m);
          if f.flag == m {
            var inverse := MakeActiveFlag(f.ty.Inverse(), f.flag, 0);
            PushAllOne(copy, Inverses(copy[..i], m), inverse);
            AppendAssoc(old(scoped), Inverses(copy[..i], m), inverse);
            manager.PushBack(inverse);
            scoped := scoped + [inverse];
          }
        }
        assert copy[..|copy|] == copy;
      }
    }

    method InverseActiveFlags() returns (flags: seq<ActiveFlag>)
      ensures flags == UndoAll(scoped)
    {
      flags := [];
      for i := 0 to |scoped|
        invariant flags == UndoAll(scoped[..i])
      {
        assert scoped[..i + 1][..i] == scoped[..i];
        flags := flags + [Undo(scoped[i])];
      }
      assert scoped[..|scoped|] == scoped;
    }

    /** The destructor. */
    method Destroy()
      requires manager.Valid()
      modifies manager
      ensures manager.Valid()
      ensures manager.active == PushAll(old(manager.active), UndoAll(scoped))
    {
      var flags := InverseActiveFlags();
      for i := 0 to |flags|
        invariant manager.Valid()
        invariant manager.active == PushAll(old(manager.active), flags[..i])
      {
        assert flags[..i + 1][..i] == flags[..i];
        UndoConstructed(scoped, flags[i]);
        manager.PushBack(flags[i]);
      }
      assert flags[..|flags|] == flags;
    }
  }

  lemma {:induction false} UndoConstructed(ps: seq<ActiveFlag>, f: ActiveFlag)
    requires f in UndoAll(ps)
    ensures f.Constructed()
  {
    if ps != [] && f in UndoAll(ps[..|ps| - 1]) {
      UndoConstructed(ps[..|ps| - 1], f);
    }
  }
}
