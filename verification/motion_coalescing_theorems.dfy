/** What coalescing keeps: the greedy groups, the sums per axis, and every other entry. */
module MotionCoalescingTheorems {
  import opened Types
  import opened Sequences
  import opened EventQueueEntries
  import opened HidValueEntries

  type Group = g: seq<Contribution> | g != [] witness [Contribution(AxisX, 0, 0)]

  /** The motion values of a report, scaled, in order. */
  function Contributions(cfg: Settings, values: seq<HidValue>): seq<Contribution> {
    if values == [] then []
    else
      var before, v := Contributions(cfg, values[..|values| - 1]), values[|values| - 1];
      if AxisOf(cfg, v).Some? then before + [ContributionOf(cfg, v)] else before
  }

  function Extend(gs: seq<Group>, c: Contribution): seq<Group> {
    if gs == [] || ValueOn(gs[|gs| - 1], c.axis).Some? then gs + [[c]]
    else gs[..|gs| - 1] + [gs[|gs| - 1] + [c]]
  }

  /** A group goes on until an axis comes again. */
  function Groups(cs: seq<Contribution>): seq<Group> {
    if cs == [] then [] else Extend(Groups(cs[..|cs| - 1]), cs[|cs| - 1])
  }

  function MotionEntries(cfg: Settings, gs: seq<Group>): seq<Entry> {
    if gs == [] then [] else MotionEntries(cfg, gs[..|gs| - 1]) + [MotionEntry(cfg, gs[|gs| - 1])]
  }

  predicate IsMotion(e: Entry) {
    e.event.kind == PointingMotion
  }

  predicate IsOther(e: Entry) {
    !IsMotion(e)
  }

  // ----- The motions are the groups -----

  function Front(gs: seq<Group>): seq<Group> {
    if gs == [] then [] else gs[..|gs| - 1]
  }

  function LastGroup(gs: seq<Group>): seq<Contribution> {
    if gs == [] then [] else gs[|gs| - 1]
  }

  lemma MotionEntriesSnoc(cfg: Settings, gs: seq<Group>, g: Group)
    ensures MotionEntries(cfg, gs + [g]) == MotionEntries(cfg, gs) + [MotionEntry(cfg, g)]
  {
    assert (gs + [g])[..|gs + [g]| - 1] == gs;
  }

  /** The progress stands for a list of groups, the last of which is still held back. */
  ghost predicate StandsFor(cfg: Settings, p: Progress, gs: seq<Group>) {
    && Filter(p.entries, IsMotion) == MotionEntries(cfg, Front(gs))
    && p.pending == LastGroup(gs)
  }

  lemma {:induction false} DpadEntriesAreOther(cfg: Settings, t: int, events: seq<HatSwitchConverters.DpadEvent>)
    ensures Filter(DpadEntries(cfg, t, events), IsMotion) == []
    ensures Filter(DpadEntries(cfg, t, events), IsOther) == DpadEntries(cfg, t, events)
  {
    if events != [] {
      var before, e := events[..|events| - 1], events[|events| - 1];
      DpadEntriesAreOther(cfg, t, before);
      var entry := NewEntry(cfg, t, SwitchEvent(e.0), e.1, None, Original);
      FilterSnoc(DpadEntries(cfg, t, before), entry, IsMotion);
      FilterSnoc(DpadEntries(cfg, t, before), entry, IsOther);
    }
  }

  lemma OthersAreOther(cfg: Settings, last: Directions, v: HidValue)
    requires AllFour(last)
    ensures Filter(OtherEntries(cfg, last, v), IsMotion) == []
    ensures Filter(OtherEntries(cfg, last, v), IsOther) == OtherEntries(cfg, last, v)
  {
    var es := OtherEntries(cfg, last, v);
    if TurnsHat(cfg, v) {
      DpadEntriesAreOther(cfg, v.timeStamp, DpadEventsOf(cfg, last, v));
    }
    if |es| == 1 {
      FilterOne(es[0], IsMotion);
      FilterOne(es[0], IsOther);
    }
  }

  lemma FlushStandsFor(cfg: Settings, p: Progress, gs: seq<Group>)
    requires StandsFor(cfg, p, gs)
    ensures Filter(Flush(cfg, p).entries, IsMotion) == MotionEntries(cfg, gs)
    ensures Filter(Flush(cfg, p).entries, IsOther) == Filter(p.entries, IsOther)
  {
    hide Filter, MotionEntries, ValueOn;
    if gs != [] {
      var g := gs[|gs| - 1];
      assert gs == Front(gs) + [g];
      MotionEntriesSnoc(cfg, Front(gs), g);
      FilterSnoc(p.entries, MotionEntry(cfg, g), IsMotion);
      FilterSnoc(p.entries, MotionEntry(cfg, g), IsOther);
    }
  }

  lemma ContributeStandsFor(cfg: Settings, p: Progress, gs: seq<Group>, c: Contribution)
    requires StandsFor(cfg, p, gs)
    ensures StandsFor(cfg, Contribute(cfg, p, c), Extend(gs, c))
    ensures Filter(Contribute(cfg, p, c).entries, IsOther) == Filter(p.entries, IsOther)
  {
    hide Filter, MotionEntries, MotionEntry, ValueOn;
    FlushStandsFor(cfg, p, gs);
    ExtendFront(gs, c);
  }

  lemma ExtendFront(gs: seq<Group>, c: Contribution)
    ensures var starts := gs == [] || ValueOn(gs[|gs| - 1], c.axis).Some?;
            && Front(Extend(gs, c)) == (if starts then gs else Front(gs))
            && LastGroup(Extend(gs, c)) == if starts then [c] else LastGroup(gs) + [c]
  {
    hide ValueOn;
  }

  /** The entries of the values that are no motion, in order. */
  function AllOthers(cfg: Settings, last: Directions, values: seq<HidValue>): seq<Entry>
    requires AllFour(last)
  {
    if values == [] then []
    else
      var before := values[..|values| - 1];
      AllOthers(cfg, last, before)
      + (if AxisOf(cfg, values[|values| - 1]).Some? then []
         else OtherEntries(cfg, TakeAll(cfg, last, before).directions, values[|values| - 1]))
  }

  lemma {:induction false} ProgressStandsFor(cfg: Settings, last: Directions, values: seq<HidValue>)
    requires AllFour(last)
    ensures StandsFor(cfg, TakeAll(cfg, last, values), Groups(Contributions(cfg, values)))
    ensures Filter(TakeAll(cfg, last, values).entries, IsOther) == AllOthers(cfg, last, values)
  {
    if values != [] {
      var before, v := values[..|values| - 1], values[|values| - 1];
      ProgressStandsFor(cfg, last, before);
      var p, cs := TakeAll(cfg, last, before), Contributions(cfg, before);
      NextValue(cfg, p, cs, v);
    }
  }

  lemma NextValue(cfg: Settings, p: Progress, cs: seq<Contribution>, v: HidValue)
    requires AllFour(p.directions) && StandsFor(cfg, p, Groups(cs))
    ensures AxisOf(cfg, v).Some? ==>
              && StandsFor(cfg, Take(cfg, p, v), Groups(cs + [ContributionOf(cfg, v)]))
              && Filter(Take(cfg, p, v).entries, IsOther) == Filter(p.entries, IsOther) + []
    ensures AxisOf(cfg, v).None? ==>
              && StandsFor(cfg, Take(cfg, p, v), Groups(cs))
              && Filter(Take(cfg, p, v).entries, IsOther) ==
                Filter(p.entries, IsOther) + OtherEntries(cfg, p.directions, v)
  {
    hide Filter, AxisOf, ContributionOf, OtherEntries, DirectionsAfter, Contribute, MotionEntries, Extend;
    if AxisOf(cfg, v).Some? {
      var c := ContributionOf(cfg, v);
      assert (cs + [c])[..|cs + [c]| - 1] == cs;
      ContributeStandsFor(cfg, p, Groups(cs), c);
    } else {
      var es := OtherEntries(cfg, p.directions, v);
      OthersAreOther(cfg, p.directions, v);
      FilterAppend(p.entries, es, IsMotion);
      FilterAppend(p.entries, es, IsOther);
    }
  }

  /** The motions emitted are exactly the groups; every other entry is kept in order. */
  lemma CoalescingIsGrouping(cfg: Settings, last: Directions, values: seq<HidValue>)
    requires AllFour(last)
    ensures Filter(EntriesOf(cfg, last, values), IsMotion) == MotionEntries(cfg, Groups(Contributions(cfg, values)))
    ensures Filter(EntriesOf(cfg, last, values), IsOther) == AllOthers(cfg, last, values)
  {
    ProgressStandsFor(cfg, last, values);
    FlushStandsFor(cfg, TakeAll(cfg, last, values), Groups(Contributions(cfg, values)));
  }

  // ----- The groups are greedy -----

  function Flatten(gs: seq<Group>): seq<Contribution> {
    if gs == [] then [] else Flatten(gs[..|gs| - 1]) + gs[|gs| - 1]
  }

  predicate OncePerAxis(g: seq<Contribution>) {
    forall i, j :: 0 <= i < j < |g| ==> g[i].axis != g[j].axis
  }

  /** No group could have taken the first value of the next one. */
  predicate Maximal(gs: seq<Group>) {
    forall k :: 0 < k < |gs| ==> ValueOn(gs[k - 1], gs[k][0].axis).Some?
  }

  ghost predicate Greedy(gs: seq<Group>, cs: seq<Contribution>) {
    && Flatten(gs) == cs
    && (forall g :: g in gs ==> OncePerAxis(g))
    && Maximal(gs)
  }

  lemma {:induction false} ValueOnIff(g: seq<Contribution>, a: Axis)
    ensures ValueOn(g, a).Some? <==> exists i :: 0 <= i < |g| && g[i].axis == a
  {
    if g != [] {
      ValueOnIff(g[..|g| - 1], a);
      assert forall i :: 0 <= i < |g| - 1 ==> g[..|g| - 1][i] == g[i];
    }
  }

  lemma FlattenSnoc(gs: seq<Group>, g: Group)
    ensures Flatten(gs + [g]) == Flatten(gs) + g
  {
    assert (gs + [g])[..|gs + [g]| - 1] == gs;
  }

  lemma ExtendKeepsGreedy(gs: seq<Group>, cs: seq<Contribution>, c: Contribution)
    requires Greedy(gs, cs)
    ensures Greedy(Extend(gs, c), cs + [c])
  {
    hide Flatten, ValueOn;
    ExtendFlattens(gs, c);
    ExtendOncePerAxis(gs, c);
    ExtendMaximal(gs, c);
    hide Extend;
  }

  lemma ExtendOncePerAxis(gs: seq<Group>, c: Contribution)
    requires forall g :: g in gs ==> OncePerAxis(g)
    ensures forall g :: g in Extend(gs, c) ==> OncePerAxis(g)
  {
    if gs != [] {
      var g := gs[|gs| - 1];
      assert OncePerAxis(g);
      ValueOnIff(g, c.axis);
      assert ValueOn(g, c.axis).None? ==> OncePerAxis(g + [c]);
    }
    assert OncePerAxis([c]);
  }

  lemma ExtendMaximal(gs: seq<Group>, c: Contribution)
    requires Maximal(gs)
    ensures Maximal(Extend(gs, c))
  {
    hide ValueOn;
    var r := Extend(gs, c);
    forall k | 0 < k < |r| ensures ValueOn(r[k - 1], r[k][0].axis).Some? {
      assert r[k - 1] == gs[k - 1];
      if k < |gs| {
        assert r[k][0] == gs[k][0];
      }
    }
  }

  lemma ExtendFlattens(gs: seq<Group>, c: Contribution)
    ensures Flatten(Extend(gs, c)) == Flatten(gs) + [c]
  {
    if gs == [] || ValueOn(gs[|gs| - 1], c.axis).Some? {
      FlattenSnoc(gs, [c]);
    } else {
      var front, g := gs[..|gs| - 1], gs[|gs| - 1];
      FlattenSnoc(front, g + [c]);
      AppendAssoc(Flatten(front), g, c);
    }
  }

  /** The groups are the values in order, each axis at most once in a group, and no group stops early. */
  lemma {:induction false} GroupsAreGreedy(cs: seq<Contribution>)
    ensures Greedy(Groups(cs), cs)
  {
    if cs != [] {
      GroupsAreGreedy(cs[..|cs| - 1]);
      ExtendKeepsGreedy(Groups(cs[..|cs| - 1]), cs[..|cs| - 1], cs[|cs| - 1]);
      assert cs == cs[..|cs| - 1] + [cs[|cs| - 1]];
    }
  }

  // ----- Conservation -----

  function SumOn(cs: seq<Contribution>, a: Axis): int {
    if cs == [] then 0
    else SumOn(cs[..|cs| - 1], a) + if cs[|cs| - 1].axis == a then cs[|cs| - 1].value else 0
  }

  /** The part of an entry that moves along an axis. */
  function Component(e: Entry, a: Axis): int {
    if !IsMotion(e) || !e.event.value.MotionValue? then 0
    else
      match a
      case AxisX => e.event.value.motion.x
      case AxisY => e.event.value.motion.y
      case AxisVerticalWheel => e.event.value.motion.verticalWheel
      case AxisHorizontalWheel => e.event.value.motion.horizontalWheel
  }

  /** A valid motion of the device at that time, which says nothing but the motion. */
  predicate IsPlainMotion(cfg: Settings, e: Entry, timeStamp: int) {
    && e.event.kind == PointingMotion && e.event.value.MotionValue?
    && e == Entry(cfg.device, timeStamp, 0, e.event, Single, None, e.event, Original, false, Valid)
  }

  /** The motion of a group moves by each of its values along that value's axis, and not otherwise, at its last time. */
  lemma {:induction false} MotionOfGroup(cfg: Settings, g: Group, a: Axis)
    requires OncePerAxis(g)
    ensures IsPlainMotion(cfg, MotionEntry(cfg, g), g[|g| - 1].timeStamp)
    ensures forall i :: 0 <= i < |g| && g[i].axis == a ==> Component(MotionEntry(cfg, g), a) == g[i].value
    ensures (forall i :: 0 <= i < |g| ==> g[i].axis != a) ==> Component(MotionEntry(cfg, g), a) == 0
  {
    ComponentIsValue(cfg, g, a);
    hide MotionEntry;
    ValueOnIff(g, a);
    forall i | 0 <= i < |g| && g[i].axis == a ensures ValueOn(g, a) == Some(g[i].value) {
      OnlyValue(g, i);
    }
  }

  lemma ComponentIsValue(cfg: Settings, g: Group, a: Axis)
    ensures Component(MotionEntry(cfg, g), a) == OrZero(ValueOn(g, a))
    ensures IsPlainMotion(cfg, MotionEntry(cfg, g), g[|g| - 1].timeStamp)
  {
    hide ValueOn;
  }

  lemma {:induction false} OnlyValue(g: seq<Contribution>, i: nat)
    requires OncePerAxis(g) && i < |g|
    ensures ValueOn(g, g[i].axis) == Some(g[i].value)
  {
    if i < |g| - 1 {
      OnlyValue(g[..|g| - 1], i);
    }
  }

  function TotalMotion(es: seq<Entry>, a: Axis): int {
    if es == [] then 0 else TotalMotion(es[..|es| - 1], a) + Component(es[|es| - 1], a)
  }

  lemma {:induction false} OncePerAxisSum(g: seq<Contribution>, a: Axis)
    requires OncePerAxis(g)
    ensures SumOn(g, a) == OrZero(ValueOn(g, a))
  {
    if g != [] {
      var before := g[..|g| - 1];
      OncePerAxisSum(before, a);
      if g[|g| - 1].axis == a {
        ValueOnIff(before, a);
        assert forall i :: 0 <= i < |before| ==> before[i] == g[i];
      }
    }
  }

  lemma {:induction false} SumOnAppend(cs: seq<Contribution>, ds: seq<Contribution>, a: Axis)
    ensures SumOn(cs + ds, a) == SumOn(cs, a) + SumOn(ds, a)
  {
    if ds == [] {
      assert cs + ds == cs;
    } else {
      SumOnAppend(cs, ds[..|ds| - 1], a);
      assert (cs + ds)[..|cs + ds| - 1] == cs + ds[..|ds| - 1];
    }
  }

  lemma {:induction false} MotionsSum(cfg: Settings, gs: seq<Group>, a: Axis)
    requires forall g :: g in gs ==> OncePerAxis(g)
    ensures TotalMotion(MotionEntries(cfg, gs), a) == SumOn(Flatten(gs), a)
  {
    if gs != [] {
      var front, g := gs[..|gs| - 1], gs[|gs| - 1];
      assert forall h :: h in front ==> h in gs;
      MotionsSum(cfg, front, a);
      assert g in gs;
      OncePerAxisSum(g, a);
      SumOnAppend(Flatten(front), g, a);
      TotalMotionSnoc(MotionEntries(cfg, front), MotionEntry(cfg, g), a);
      hide SumOn, ValueOn, TotalMotion, OncePerAxis;
    }
  }

  lemma TotalMotionSnoc(es: seq<Entry>, e: Entry, a: Axis)
    ensures TotalMotion(es + [e], a) == TotalMotion(es, a) + Component(e, a)
  {
    assert (es + [e])[..|es + [e]| - 1] == es;
  }

  lemma OneMoreMoves(es: seq<Entry>, e: Entry, a: Axis)
    requires TotalMotion(Filter(es, IsMotion), a) == TotalMotion(es, a)
    ensures TotalMotion(Filter(es + [e], IsMotion), a) == TotalMotion(es + [e], a)
  {
    hide Filter, TotalMotion;
    FilterSnoc(es, e, IsMotion);
    TotalMotionSnoc(es, e, a);
    TotalMotionSnoc(Filter(es, IsMotion), e, a);
  }

  lemma {:induction false} OnlyMotionsMove(es: seq<Entry>, a: Axis)
    ensures TotalMotion(Filter(es, IsMotion), a) == TotalMotion(es, a)
  {
    if es != [] {
      var before, e := es[..|es| - 1], es[|es| - 1];
      assert es == before + [e];
      OnlyMotionsMove(before, a);
      OneMoreMoves(before, e, a);
    }
  }

  /** Along every axis the emitted motions add up to the scaled values of the report. */
  lemma MotionIsConserved(cfg: Settings, last: Directions, values: seq<HidValue>, a: Axis)
    requires AllFour(last)
    ensures TotalMotion(EntriesOf(cfg, last, values), a) == SumOn(Contributions(cfg, values), a)
  {
    var cs := Contributions(cfg, values);
    hide *;
    CoalescingIsGrouping(cfg, last, values);
    GroupsAreGreedy(cs);
    GreedyParts(Groups(cs), cs);
    MotionsSum(cfg, Groups(cs), a);
    OnlyMotionsMove(EntriesOf(cfg, last, values), a);
  }

  lemma GreedyParts(gs: seq<Group>, cs: seq<Contribution>)
    requires Greedy(gs, cs)
    ensures Flatten(gs) == cs && forall g :: g in gs ==> OncePerAxis(g)
  {
  }
}
