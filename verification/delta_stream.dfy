/** Reporting only what changed between two rows of on/off states. */
module DeltaStreams {
  import opened Sequences

  datatype Change = Change(index: nat, pressed: bool)

  /** The changes among the first `n` positions, in their order. */
  function Changes(last: seq<bool>, now: seq<bool>, n: nat): (cs: seq<Change>)
    requires n <= |last| == |now|
    ensures forall c :: c in cs ==> c.index < n
  {
    if n == 0 then []
    else
      var before := Changes(last, now, n - 1);
      if last[n - 1] != now[n - 1] then before + [Change(n - 1, now[n - 1])] else before
  }

  function AllOff(n: nat): (bits: seq<bool>)
    ensures |bits| == n && forall i :: 0 <= i < n ==> !bits[i]
  {
    seq(n, i => false)
  }

  ghost predicate InRange(cs: seq<Change>, n: nat) {
    forall c :: c in cs ==> c.index < n
  }

  /** What a listener believes that starts from `bits` and hears `cs`. */
  function Replay(bits: seq<bool>, cs: seq<Change>): (r: seq<bool>)
    requires InRange(cs, |bits|)
    ensures |r| == |bits|
  {
    if cs == [] then bits
    else
      var c := cs[|cs| - 1];
      assert c in cs;
      Replay(bits, cs[..|cs| - 1])[c.index := c.pressed]
  }

  /** Every change really changes something: a press of what is up, or a release of what is down. */
  ghost predicate Toggles(bits: seq<bool>, cs: seq<Change>)
    requires InRange(cs, |bits|)
  {
    forall k :: 0 <= k < |cs| ==> Replay(bits, cs[..k])[cs[k].index] != cs[k].pressed
  }

  lemma ReplaySnoc(bits: seq<bool>, cs: seq<Change>, c: Change)
    requires InRange(cs, |bits|) && c.index < |bits|
    ensures InRange(cs + [c], |bits|)
    ensures Replay(bits, cs + [c]) == Replay(bits, cs)[c.index := c.pressed]
  {
    assert (cs + [c])[..|cs + [c]| - 1] == cs;
  }

  lemma TogglesSnoc(bits: seq<bool>, cs: seq<Change>, c: Change)
    requires InRange(cs, |bits|) && c.index < |bits|
    requires Toggles(bits, cs) && Replay(bits, cs)[c.index] != c.pressed
    ensures InRange(cs + [c], |bits|) && Toggles(bits, cs + [c])
  {
    var t := cs + [c];
    forall k | 0 <= k < |t| ensures Replay(bits, t[..k])[t[k].index] != t[k].pressed {
      if k < |cs| {
        assert t[..k] == cs[..k];
      } else {
        assert t[..k] == cs;
      }
    }
  }

  lemma OneMoreChange(cs: seq<Change>, last: seq<bool>, now: seq<bool>, n: nat)
    requires 0 < n <= |last| == |now|
    ensures var before := cs + Changes(last, now, n - 1);
            cs + Changes(last, now, n) ==
            if last[n - 1] != now[n - 1] then before + [Change(n - 1, now[n - 1])] else before
  {
    if last[n - 1] != now[n - 1] {
      AppendAssoc(cs, Changes(last, now, n - 1), Change(n - 1, now[n - 1]));
    }
  }

  lemma RowReplaysNext(start: seq<bool>, cs: seq<Change>, last: seq<bool>, now: seq<bool>, n: nat)
    requires 0 < n <= |last| == |now| == |start| && InRange(cs + Changes(last, now, n - 1), |start|)
    requires Replay(start, cs + Changes(last, now, n - 1)) == now[..n - 1] + last[n - 1..]
    requires Toggles(start, cs + Changes(last, now, n - 1))
    ensures InRange(cs + Changes(last, now, n), |start|) && Toggles(start, cs + Changes(last, now, n))
    ensures Replay(start, cs + Changes(last, now, n)) == now[..n] + last[n..]
  {
    hide Toggles, Replay, Changes, InRange;
    OneMoreChange(cs, last, now, n);
    NextPosition(start, cs + Changes(last, now, n - 1), last, now, n);
  }

  /** Appending the changes of one row to a stream that ends in `last`. */
  lemma {:induction false} RowReplays(start: seq<bool>, cs: seq<Change>, last: seq<bool>, now: seq<bool>, n: nat)
    requires n <= |last| == |now| == |start| && InRange(cs, |start|)
    requires Replay(start, cs) == last && Toggles(start, cs)
    ensures InRange(cs + Changes(last, now, n), |start|) && Toggles(start, cs + Changes(last, now, n))
    ensures Replay(start, cs + Changes(last, now, n)) == now[..n] + last[n..]
  {
    if n == 0 {
      assert cs + [] == cs;
      assert now[..0] + last[0..] == last;
    } else {
      RowReplays(start, cs, last, now, n - 1);
      RowReplaysNext(start, cs, last, now, n);
    }
  }

  lemma NextPosition(start: seq<bool>, cs: seq<Change>, last: seq<bool>, now: seq<bool>, n: nat)
    requires 0 < n <= |last| == |now| == |start| && InRange(cs, |start|)
    requires Replay(start, cs) == now[..n - 1] + last[n - 1..] && Toggles(start, cs)
    ensures var cs' := if last[n - 1] != now[n - 1] then cs + [Change(n - 1, now[n - 1])] else cs;
            && InRange(cs', |start|) && Toggles(start, cs')
            && Replay(start, cs') == now[..n] + last[n..]
  {
    RowStep(last, now, n);
    if last[n - 1] != now[n - 1] {
      var c := Change(n - 1, now[n - 1]);
      ReplaySnoc(start, cs, c);
      TogglesSnoc(start, cs, c);
    }
  }

  lemma RowStep(last: seq<bool>, now: seq<bool>, n: nat)
    requires 0 < n <= |last| == |now|
    ensures now[..n] + last[n..] == (now[..n - 1] + last[n - 1..])[n - 1 := now[n - 1]]
    ensures last[n - 1] == now[n - 1] ==> now[..n] + last[n..] == now[..n - 1] + last[n - 1..]
    ensures (now[..n - 1] + last[n - 1..])[n - 1] == last[n - 1]
  {
  }

  // ----- Whole runs -----

  datatype Step = Report(bits: seq<bool>) | Reset

  ghost predicate Rows(steps: seq<Step>, n: nat) {
    forall s :: s in steps && s.Report? ==> |s.bits| == n
  }

  /** The kept states after a run. */
  function LastRow(n: nat, steps: seq<Step>): (bits: seq<bool>)
    requires Rows(steps, n)
    ensures |bits| == n
  {
    if steps == [] then AllOff(n)
    else
      match steps[|steps| - 1]
      case Report(bits) => assert steps[|steps| - 1] in steps; bits
      case Reset => AllOff(n)
  }

  /** Everything reported since the last reset. */
  function Emitted(n: nat, steps: seq<Step>): (cs: seq<Change>)
    requires Rows(steps, n)
    ensures InRange(cs, n)
  {
    if steps == [] then []
    else
      var before := steps[..|steps| - 1];
      match steps[|steps| - 1]
      case Report(bits) =>
        assert steps[|steps| - 1] in steps;
        Emitted(n, before) + Changes(LastRow(n, before), bits, n)
      case Reset => []
  }

  lemma EmittedSnoc(n: nat, steps: seq<Step>, s: Step)
    requires Rows(steps, n) && (s.Report? ==> |s.bits| == n)
    ensures Rows(steps + [s], n)
    ensures LastRow(n, steps + [s]) == if s.Report? then s.bits else AllOff(n)
    ensures Emitted(n, steps + [s]) ==
            if s.Report? then Emitted(n, steps) + Changes(LastRow(n, steps), s.bits, n) else []
  {
    assert (steps + [s])[..|steps + [s]| - 1] == steps;
  }

  /** A listener that starts from all off after a reset knows the last row, and hears no vain change. */
  lemma {:induction false} RunReplays(n: nat, steps: seq<Step>)
    requires Rows(steps, n)
    ensures Replay(AllOff(n), Emitted(n, steps)) == LastRow(n, steps)
    ensures Toggles(AllOff(n), Emitted(n, steps))
  {
    if steps != [] && steps[|steps| - 1].Report? {
      var before, bits := steps[..|steps| - 1], steps[|steps| - 1].bits;
      assert steps[|steps| - 1] in steps;
      RunReplays(n, before);
      RowReplays(AllOff(n), Emitted(n, before), LastRow(n, before), bits, n);
      assert bits[..n] + LastRow(n, before)[n..] == bits;
    }
  }

  /** The values reported for one position. */
  function ValuesOf(cs: seq<Change>, i: nat): seq<bool> {
    if cs == [] then []
    else
      var before := ValuesOf(cs[..|cs| - 1], i);
      if cs[|cs| - 1].index == i then before + [cs[|cs| - 1].pressed] else before
  }

  ghost predicate Alternates(values: seq<bool>, first: bool) {
    forall k :: 0 <= k < |values| ==> values[k] == if k % 2 == 0 then first else !first
  }

  lemma {:induction false} TogglingAlternates(bits: seq<bool>, cs: seq<Change>, i: nat)
    requires InRange(cs, |bits|) && Toggles(bits, cs) && i < |bits|
    ensures Alternates(ValuesOf(cs, i), !bits[i])
    ensures Replay(bits, cs)[i] == if |ValuesOf(cs, i)| % 2 == 0 then bits[i] else !bits[i]
  {
    if cs != [] {
      var before, c := cs[..|cs| - 1], cs[|cs| - 1];
      TogglesPrefix(bits, cs);
      TogglingAlternates(bits, before, i);
      if c.index == i {
        Flip(ValuesOf(before, i), bits[i], Replay(bits, before)[i], c.pressed);
      }
      hide Toggles, Alternates;
    }
  }

  /** One more flip of a position that has alternated so far. */
  lemma Flip(values: seq<bool>, start: bool, now: bool, next: bool)
    requires Alternates(values, !start) && now != next
    requires now == if |values| % 2 == 0 then start else !start
    ensures Alternates(values + [next], !start)
    ensures next == if |values + [next]| % 2 == 0 then start else !start
  {
  }

  lemma TogglesPrefix(bits: seq<bool>, cs: seq<Change>)
    requires InRange(cs, |bits|) && Toggles(bits, cs) && cs != []
    ensures var before, c := cs[..|cs| - 1], cs[|cs| - 1];
            && InRange(before, |bits|) && Toggles(bits, before)
            && c.index < |bits| && Replay(bits, before)[c.index] != c.pressed
            && Replay(bits, cs) == Replay(bits, before)[c.index := c.pressed]
  {
    var before := cs[..|cs| - 1];
    assert cs[|cs| - 1] in cs;
    forall k | 0 <= k < |before| ensures Replay(bits, before[..k])[before[k].index] != before[k].pressed {
      assert before[k] == cs[k] && cs[..k] == before[..k];
    }
  }

  /** For every position the reported values strictly alternate, starting with a press. */
  lemma RunAlternates(n: nat, steps: seq<Step>, i: nat)
    requires Rows(steps, n) && i < n
    ensures Alternates(ValuesOf(Emitted(n, steps), i), true)
  {
    RunReplays(n, steps);
    TogglingAlternates(AllOff(n), Emitted(n, steps), i);
  }
}
