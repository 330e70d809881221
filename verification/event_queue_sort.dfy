/**
 Reordering of entries with one timestamp. The relation `NeedsSwap` is not
 transitive, so there is no order to sort by; what the loop computes is
 characterised instead as a fold of insertions.
 */
module EventQueueSort {
  import opened Types
  import opened Sequences
  import opened EventQueueEntries

  predicate NeedsSwap(v1: Entry, v2: Entry) {
    if v1.timeStamp == v2.timeStamp && v1.event.IsSwitch() && v2.event.IsSwitch() then
      var m1, m2 := v1.event.value.switch.MakeModifierFlag(), v2.event.value.switch.MakeModifierFlag();
      if m1.None? && m2.Some? then v2.eventType != KeyUp
      else if m1.Some? && m2.None? then v1.eventType == KeyUp
      else false
    else false
  }

  /** A key before a press, or a release before a key, with one timestamp. */
  lemma NeedsSwapShape(a: Entry, b: Entry)
    ensures NeedsSwap(a, b) <==>
            a.timeStamp == b.timeStamp && ((IsKey(a) && IsPress(b)) || (IsRelease(a) && IsKey(b)))
    ensures NeedsSwap(a, b) ==> !NeedsSwap(b, a)
  {
  }

  // ----- The reference: insert every entry from the right -----

  /** Sinks `x` from the right end of `s` to its place. */
  function Insert(s: seq<Entry>, x: Entry): seq<Entry> {
    if s == [] || !NeedsSwap(s[|s| - 1], x) then s + [x]
    else Insert(s[..|s| - 1], x) + [s[|s| - 1]]
  }

  function Sort(s: seq<Entry>): seq<Entry> {
    if s == [] then [] else Insert(Sort(s[..|s| - 1]), s[|s| - 1])
  }

  /** No two neighbours among the first `n` entries need a swap. */
  ghost predicate StableTo(s: seq<Entry>, n: nat) {
    forall i {:trigger s[i]} :: 0 <= i && i + 1 < n && i + 1 < |s| ==> !NeedsSwap(s[i], s[i + 1])
  }

  ghost predicate Stable(s: seq<Entry>) {
    StableTo(s, |s|)
  }

  lemma InsertSnoc(s: seq<Entry>, y: Entry, x: Entry)
    ensures Insert(s + [y], x) == if NeedsSwap(y, x) then Insert(s, x) + [y] else s + [y] + [x]
  {
    assert (s + [y])[..|s + [y]| - 1] == s;
  }

  lemma SortSnoc(s: seq<Entry>, x: Entry)
    ensures Sort(s + [x]) == Insert(Sort(s), x)
  {
    assert (s + [x])[..|s + [x]| - 1] == s;
  }

  /** Where an insertion ends: the new entry itself, or the entry that was last. */
  lemma InsertEnds(s: seq<Entry>, x: Entry)
    ensures var t := Insert(s, x);
            |t| == |s| + 1 && (t[|s|] == x || (s != [] && NeedsSwap(s[|s| - 1], x) && t[|s|] == s[|s| - 1]))
  {
    InsertLength(s, x);
    if s != [] && NeedsSwap(s[|s| - 1], x) {
      InsertLength(s[..|s| - 1], x);
    }
  }

  lemma {:induction false} InsertLength(s: seq<Entry>, x: Entry)
    ensures |Insert(s, x)| == |s| + 1
  {
    if s != [] {
      InsertLength(s[..|s| - 1], x);
    }
  }

  lemma StableSnoc(s: seq<Entry>, x: Entry)
    requires Stable(s) && (s != [] ==> !NeedsSwap(s[|s| - 1], x))
    ensures Stable(s + [x])
  {
  }

  lemma {:induction false} InsertStable(s: seq<Entry>, x: Entry)
    requires Stable(s)
    ensures Stable(Insert(s, x))
  {
    if s == [] || !NeedsSwap(s[|s| - 1], x) {
      StableSnoc(s, x);
    } else {
      var t, y := s[..|s| - 1], s[|s| - 1];
      InsertStable(t, x);
      InsertEnds(t, x);
      NeedsSwapShape(y, x);
      if t != [] {
        assert !NeedsSwap(s[|t| - 1], s[|t|]);
      }
      StableSnoc(Insert(t, x), y);
    }
  }

  /** The result has no neighbours left to swap. */
  lemma {:induction false} SortStable(s: seq<Entry>)
    ensures Stable(Sort(s))
  {
    if s != [] {
      SortStable(s[..|s| - 1]);
      InsertStable(Sort(s[..|s| - 1]), s[|s| - 1]);
    }
  }

  lemma {:induction false} StableIsFixed(s: seq<Entry>)
    requires Stable(s)
    ensures Sort(s) == s
  {
    if s != [] {
      var t, x := s[..|s| - 1], s[|s| - 1];
      assert s == t + [x];
      StableIsFixed(t);
      if t != [] {
        assert !NeedsSwap(s[|t| - 1], s[|t|]);
      }
    }
  }

  lemma SortIdempotent(s: seq<Entry>)
    ensures Sort(Sort(s)) == Sort(s)
  {
    SortStable(s);
    StableIsFixed(Sort(s));
  }

  /** Sorting after every push is the same as sorting once. */
  lemma SortIncremental(s: seq<Entry>, x: Entry)
    ensures Sort(Sort(s) + [x]) == Sort(s + [x])
  {
    SortSnoc(s, x);
    SortSnoc(Sort(s), x);
    SortIdempotent(s);
  }

  // ----- One needed swap -----

  function SwapAt(s: seq<Entry>, i: nat): seq<Entry>
    requires i + 1 < |s|
  {
    s[i := s[i + 1]][i + 1 := s[i]]
  }

  lemma SwapAtSplit(s: seq<Entry>, i: nat)
    requires i + 1 < |s|
    ensures s == s[..i] + [s[i]] + [s[i + 1]] + s[i + 2..]
    ensures SwapAt(s, i) == s[..i] + [s[i + 1]] + [s[i]] + s[i + 2..]
  {
  }

  /** The step of the loop does not change what the fold of insertions yields. */
  lemma SwapKeepsSort(s: seq<Entry>, i: nat)
    requires i + 1 < |s| && StableTo(s, i + 1) && NeedsSwap(s[i], s[i + 1])
    ensures Sort(SwapAt(s, i)) == Sort(s)
  {
    var q, y, x, rest := s[..i], s[i], s[i + 1], s[i + 2..];
    SwapAtSplit(s, i);
    assert Stable(q);
    assert Stable(q + [y]) by {
      if q != [] {
        assert !NeedsSwap(s[i - 1], s[i]);
      }
      StableSnoc(q, y);
    }
    InsertCommutes(q, y, x);
    SortAppendCong(q + [y] + [x], q + [x] + [y], rest);
  }

  lemma InsertCommutes(q: seq<Entry>, y: Entry, x: Entry)
    requires Stable(q) && Stable(q + [y]) && NeedsSwap(y, x)
    ensures Sort(q + [y] + [x]) == Sort(q + [x] + [y])
  {
    StableIsFixed(q);
    StableIsFixed(q + [y]);
    SortSnoc(q + [y], x);
    InsertSnoc(q, y, x);
    SortSnoc(q, x);
    SortSnoc(q + [x], y);
    var t := Insert(q, x);
    InsertEnds(q, x);
    NeedsSwapShape(y, x);
    if q != [] {
      assert q[|q| - 1] == (q + [y])[|q| - 1] && y == (q + [y])[|q|];
    }
    assert !NeedsSwap(t[|t| - 1], y);
    assert Insert(t, y) == t + [y];
  }

  lemma {:induction false} SortAppendCong(s: seq<Entry>, t: seq<Entry>, rest: seq<Entry>)
    requires Sort(s) == Sort(t)
    ensures Sort(s + rest) == Sort(t + rest)
  {
    if rest == [] {
      assert s + rest == s && t + rest == t;
    } else {
      var front, x := rest[..|rest| - 1], rest[|rest| - 1];
      hide *;
      assert rest == front + [x];
      AppendAssoc(s, front, x);
      AppendAssoc(t, front, x);
      SortAppendCong(s, t, front);
      SortSnoc(s + front, x);
      SortSnoc(t + front, x);
    }
  }

  // ----- Why the loop ends -----

  /** How many entries of `s` would have to jump over a following `x`. */
  function Ahead(s: seq<Entry>, x: Entry): nat {
    if s == [] then 0
    else Ahead(s[..|s| - 1], x) + if NeedsSwap(s[|s| - 1], x) then 1 else 0
  }

  /** The number of pairs, adjacent or not, that need a swap. */
  function Inversions(s: seq<Entry>): nat {
    if s == [] then 0 else Inversions(s[..|s| - 1]) + Ahead(s[..|s| - 1], s[|s| - 1])
  }

  lemma AheadSnoc(s: seq<Entry>, y: Entry, x: Entry)
    ensures Ahead(s + [y], x) == Ahead(s, x) + if NeedsSwap(y, x) then 1 else 0
  {
    assert (s + [y])[..|s + [y]| - 1] == s;
  }

  lemma InversionsSnoc(s: seq<Entry>, x: Entry)
    ensures Inversions(s + [x]) == Inversions(s) + Ahead(s, x)
  {
    assert (s + [x])[..|s + [x]| - 1] == s;
  }

  lemma {:induction false} AheadSwapped(q: seq<Entry>, a: Entry, b: Entry, rest: seq<Entry>, x: Entry)
    ensures Ahead(q + [a] + [b] + rest, x) == Ahead(q + [b] + [a] + rest, x)
  {
    if rest == [] {
      AheadSnoc(q + [a], b, x);
      AheadSnoc(q, a, x);
      AheadSnoc(q + [b], a, x);
      AheadSnoc(q, b, x);
      assert q + [a] + [b] + rest == q + [a] + [b] && q + [b] + [a] + rest == q + [b] + [a];
    } else {
      var front, y := rest[..|rest| - 1], rest[|rest| - 1];
      AheadSwapped(q, a, b, front, x);
      AheadSnoc(q + [a] + [b] + front, y, x);
      AheadSnoc(q + [b] + [a] + front, y, x);
      assert q + [a] + [b] + rest == (q + [a] + [b] + front) + [y];
      assert q + [b] + [a] + rest == (q + [b] + [a] + front) + [y];
    }
  }

  lemma {:induction false} InversionsSwapped(q: seq<Entry>, a: Entry, b: Entry, rest: seq<Entry>)
    requires NeedsSwap(a, b)
    ensures Inversions(q + [b] + [a] + rest) == Inversions(q + [a] + [b] + rest) - 1
  {
    if rest == [] {
      InversionsSnoc(q + [a], b);
      InversionsSnoc(q, a);
      InversionsSnoc(q + [b], a);
      InversionsSnoc(q, b);
      AheadSnoc(q, a, b);
      AheadSnoc(q, b, a);
      NeedsSwapShape(a, b);
      assert q + [a] + [b] + rest == q + [a] + [b] && q + [b] + [a] + rest == q + [b] + [a];
    } else {
      var front, y := rest[..|rest| - 1], rest[|rest| - 1];
      InversionsSwapped(q, a, b, front);
      AheadSwapped(q, a, b, front, y);
      InversionsSnoc(q + [a] + [b] + front, y);
      InversionsSnoc(q + [b] + [a] + front, y);
      assert q + [a] + [b] + rest == (q + [a] + [b] + front) + [y];
      assert q + [b] + [a] + rest == (q + [b] + [a] + front) + [y];
    }
  }

  /** Every swap the loop makes removes exactly one inversion. */
  lemma SwapRemovesOneInversion(s: seq<Entry>, i: nat)
    requires i + 1 < |s| && NeedsSwap(s[i], s[i + 1])
    ensures Inversions(SwapAt(s, i)) == Inversions(s) - 1
  {
    SwapAtSplit(s, i);
    hide *;
    InversionsSwapped(s[..i], s[i], s[i + 1], s[i + 2..]);
  }

  // ----- Sorting as a path of needed swaps -----

  /** Every swap of the path is needed when its turn comes. */
  ghost predicate NeededSwaps(s: seq<Entry>, path: seq<nat>)
    decreases |path|
  {
    path == [] ||
    (path[0] + 1 < |s| && NeedsSwap(s[path[0]], s[path[0] + 1]) && NeededSwaps(SwapAt(s, path[0]), path[1..]))
  }

  ghost function RunSwaps(s: seq<Entry>, path: seq<nat>): seq<Entry>
    requires NeededSwaps(s, path)
    decreases |path|
  {
    if path == [] then s else RunSwaps(SwapAt(s, path[0]), path[1..])
  }

  lemma {:induction false} SwapsUnderAppend(s: seq<Entry>, path: seq<nat>, x: Entry)
    requires NeededSwaps(s, path)
    ensures NeededSwaps(s + [x], path) && RunSwaps(s + [x], path) == RunSwaps(s, path) + [x]
    decreases |path|
  {
    if path != [] {
      SwapsUnderAppend(SwapAt(s, path[0]), path[1..], x);
      assert SwapAt(s + [x], path[0]) == SwapAt(s, path[0]) + [x];
    }
  }

  lemma {:induction false} SwapsCompose(s: seq<Entry>, p: seq<nat>, q: seq<nat>)
    requires NeededSwaps(s, p) && NeededSwaps(RunSwaps(s, p), q)
    ensures NeededSwaps(s, p + q) && RunSwaps(s, p + q) == RunSwaps(RunSwaps(s, p), q)
    decreases |p|
  {
    if p == [] {
      assert p + q == q;
    } else {
      SwapsCompose(SwapAt(s, p[0]), p[1..], q);
      assert (p + q)[0] == p[0] && (p + q)[1..] == p[1..] + q;
    }
  }

  lemma {:induction false} InsertPath(s: seq<Entry>, x: Entry) returns (path: seq<nat>)
    ensures NeededSwaps(s + [x], path) && RunSwaps(s + [x], path) == Insert(s, x)
  {
    if s == [] || !NeedsSwap(s[|s| - 1], x) {
      path := [];
    } else {
      var t, y := s[..|s| - 1], s[|s| - 1];
      var rest := InsertPath(t, x);
      SwapsUnderAppend(t + [x], rest, y);
      path := [|t|] + rest;
      assert SwapAt(s + [x], |t|) == t + [x] + [y];
      assert path[1..] == rest;
    }
  }

  /** The sorted queue is reached by needed swaps alone. */
  lemma {:induction false} SortPath(s: seq<Entry>) returns (path: seq<nat>)
    ensures NeededSwaps(s, path) && RunSwaps(s, path) == Sort(s)
  {
    if s == [] {
      path := [];
    } else {
      var t, x := s[..|s| - 1], s[|s| - 1];
      assert s == t + [x];
      var before := SortPath(t);
      SwapsUnderAppend(t, before, x);
      var after := InsertPath(Sort(t), x);
      SwapsCompose(s, before, after);
      path := before + after;
    }
  }

  // ----- What reordering keeps -----

  function Modifiers(): Entry -> bool {
    e => IsModifier(e)
  }

  function Keys(): Entry -> bool {
    e => IsKey(e)
  }

  /** `t` holds the entries of `s`, reordered no more than reordering may. */
  ghost predicate Kept(s: seq<Entry>, t: seq<Entry>) {
    && multiset(s) == multiset(t)
    && |s| == |t|
    && (forall i :: 0 <= i < |s| ==> t[i].timeStamp == s[i].timeStamp && t[i].event.IsSwitch() == s[i].event.IsSwitch())
    && (forall i :: 0 <= i < |s| && !s[i].event.IsSwitch() ==> t[i] == s[i])
    && Filter(t, Modifiers()) == Filter(s, Modifiers())
    && Filter(t, Keys()) == Filter(s, Keys())
  }

  lemma SwapFilter(s: seq<Entry>, i: nat, keep: Entry -> bool)
    requires i + 1 < |s| && !(keep(s[i]) && keep(s[i + 1]))
    ensures Filter(SwapAt(s, i), keep) == Filter(s, keep)
  {
    var q, a, b, rest := s[..i], s[i], s[i + 1], s[i + 2..];
    SwapAtSplit(s, i);
    hide Filter, SwapAt;
    FilterAppend(q + [a] + [b], rest, keep);
    FilterAppend(q + [b] + [a], rest, keep);
    FilterSnoc(q + [a], b, keep);
    FilterSnoc(q + [b], a, keep);
    FilterSnoc(q, a, keep);
    FilterSnoc(q, b, keep);
  }

  lemma SwapPermutes(s: seq<Entry>, i: nat)
    requires i + 1 < |s|
    ensures multiset(SwapAt(s, i)) == multiset(s)
  {
    assert s[i + 1] in multiset(s);
  }

  lemma SwapKeeps(s: seq<Entry>, i: nat)
    requires i + 1 < |s| && NeedsSwap(s[i], s[i + 1])
    ensures Kept(s, SwapAt(s, i))
  {
    hide Filter;
    NeedsSwapShape(s[i], s[i + 1]);
    SwapFilter(s, i, Modifiers());
    SwapFilter(s, i, Keys());
    SwapPermutes(s, i);
    hide NeedsSwap, IsModifier, IsKey;
  }

  lemma {:induction false} SwapsKeep(s: seq<Entry>, path: seq<nat>)
    requires NeededSwaps(s, path)
    ensures Kept(s, RunSwaps(s, path))
    decreases |path|
  {
    if path != [] {
      SwapKeeps(s, path[0]);
      SwapsKeep(SwapAt(s, path[0]), path[1..]);
    }
  }

  /**
   Sorting permutes the queue, leaves every timestamp at its index and every
   event that is no switch in its place, and keeps modifiers among themselves
   and keys among themselves in their original order.
   */
  lemma SortKeeps(s: seq<Entry>)
    ensures Kept(s, Sort(s))
  {
    var path := SortPath(s);
    SwapsKeep(s, path);
  }

  // ----- What reordering achieves, exactly -----

  /** The entries from `i` to `j` are switches with one timestamp. */
  ghost predicate SameRun(s: seq<Entry>, i: nat, j: nat) {
    i <= j < |s| && forall k :: i <= k <= j ==> s[k].event.IsSwitch() && s[k].timeStamp == s[i].timeStamp
  }

  /** Somewhere a key still precedes a press of its run, or follows a release of it. */
  ghost predicate Inverted(s: seq<Entry>) {
    exists i, j :: 0 <= i < j < |s| && SameRun(s, i, j) && NeedsSwap(s[i], s[j])
  }

  /** A run holds a key, and a release ahead of a press: positions `i`, `j` and `k`. */
  ghost predicate Conflict(s: seq<Entry>, i: nat, j: nat, k: nat) {
    && i < j < |s| && k < |s|
    && IsRelease(s[i]) && IsPress(s[j]) && IsKey(s[k])
    && SameRun(s, Min(i, k), Max(j, k))
  }

  ghost predicate Conflicted(s: seq<Entry>) {
    exists i, j, k :: Conflict(s, i, j, k)
  }

  /** Where the entry at `k` is after the entries at `p` and `p + 1` changed places. */
  function Moved(p: nat, k: nat): nat {
    if k == p then p + 1 else if k == p + 1 then p else k
  }

  lemma SwapKeepsConflict(s: seq<Entry>, p: nat, i: nat, j: nat, k: nat)
    requires p + 1 < |s| && (NeedsSwap(s[p], s[p + 1]) || NeedsSwap(s[p + 1], s[p]))
    requires Conflict(s, i, j, k)
    ensures Conflict(SwapAt(s, p), Moved(p, i), Moved(p, j), Moved(p, k))
  {
    var t := SwapAt(s, p);
    NeedsSwapShape(s[p], s[p + 1]);
    NeedsSwapShape(s[p + 1], s[p]);
    var lo, hi := Min(i, k), Max(j, k);
    var lo', hi' := Min(Moved(p, i), Moved(p, k)), Max(Moved(p, j), Moved(p, k));
    forall l | lo' <= l <= hi' ensures t[l].event.IsSwitch() && t[l].timeStamp == s[lo].timeStamp {
      assert lo <= l <= hi || (l == p && p + 1 == lo) || (l == p + 1 && p == hi);
    }
  }

  lemma SwapKeepsConflicted(s: seq<Entry>, p: nat)
    requires p + 1 < |s| && NeedsSwap(s[p], s[p + 1])
    ensures Conflicted(s) <==> Conflicted(SwapAt(s, p))
  {
    var t := SwapAt(s, p);
    if i, j, k :| Conflict(s, i, j, k) {
      SwapKeepsConflict(s, p, i, j, k);
    }
    if i, j, k :| Conflict(t, i, j, k) {
      SwapKeepsConflict(t, p, i, j, k);
      assert SwapAt(t, p) == s;
    }
  }

  lemma {:induction false} SwapsKeepConflicted(s: seq<Entry>, path: seq<nat>)
    requires NeededSwaps(s, path)
    ensures Conflicted(s) <==> Conflicted(RunSwaps(s, path))
    decreases |path|
  {
    if path != [] {
      SwapKeepsConflicted(s, path[0]);
      SwapsKeepConflicted(SwapAt(s, path[0]), path[1..]);
    }
  }

  /** Between a key and a later press of a stable run there is a release. */
  lemma {:induction false} ReleaseBetween(s: seq<Entry>, i: nat, j: nat) returns (r: nat)
    requires Stable(s) && i < j && SameRun(s, i, j) && IsKey(s[i]) && IsPress(s[j])
    ensures i < r < j && IsRelease(s[r])
    decreases j - i
  {
    assert !NeedsSwap(s[i], s[i + 1]);
    NeedsSwapShape(s[i], s[i + 1]);
    if IsRelease(s[i + 1]) {
      r := i + 1;
    } else {
      r := ReleaseBetween(s, i + 1, j);
    }
  }

  /** Between a release and a later key of a stable run there is a press. */
  lemma {:induction false} PressBetween(s: seq<Entry>, i: nat, j: nat) returns (r: nat)
    requires Stable(s) && i < j && SameRun(s, i, j) && IsRelease(s[i]) && IsKey(s[j])
    ensures i < r < j && IsPress(s[r])
    decreases j - i
  {
    assert !NeedsSwap(s[i], s[i + 1]);
    NeedsSwapShape(s[i], s[i + 1]);
    if IsPress(s[i + 1]) {
      r := i + 1;
    } else {
      r := PressBetween(s, i + 1, j);
    }
  }

  lemma StableInvertedIffConflicted(s: seq<Entry>)
    requires Stable(s)
    ensures Inverted(s) <==> Conflicted(s)
  {
    if i, j :| 0 <= i < j < |s| && SameRun(s, i, j) && NeedsSwap(s[i], s[j]) {
      NeedsSwapShape(s[i], s[j]);
      if IsKey(s[i]) {
        var r := ReleaseBetween(s, i, j);
        assert Conflict(s, r, j, i);
      } else {
        var r := PressBetween(s, i, j);
        assert Conflict(s, i, r, j);
      }
    }
    if i, j, k :| Conflict(s, i, j, k) {
      ConflictInverts(s, i, j, k);
    }
  }

  lemma ConflictInverts(s: seq<Entry>, i: nat, j: nat, k: nat)
    requires Conflict(s, i, j, k)
    ensures Inverted(s)
  {
    if i < k {
      NeedsSwapShape(s[i], s[k]);
      assert SameRun(s, i, k);
    } else {
      NeedsSwapShape(s[k], s[j]);
      assert SameRun(s, k, j);
    }
  }

  /**
   In the sorted queue every press comes before the keys of its run and every
   release after them, exactly if no run of the input mixes a key with a
   release that precedes a press.
   */
  lemma SortPrioritizesModifiersIff(s: seq<Entry>)
    ensures Inverted(Sort(s)) <==> Conflicted(s)
  {
    var path := SortPath(s);
    SwapsKeepConflicted(s, path);
    SortStable(s);
    StableInvertedIffConflicted(Sort(s));
  }

  /** A key or modifier of the keyboard page, at time 0. */
  function KeyboardEntry(usage: int, ty: EventType): Entry {
    var event := Event(MomentarySwitchEvent, SwitchValue(Switch(KEYBOARD_OR_KEYPAD, usage)));
    Entry(1, 0, 0, event, ty, None, event, Original, false, Valid)
  }

  /** A release of shift, a key and a press of command: the key still precedes the press. */
  lemma ReleaseKeyPressStaysInverted()
    ensures var release, key, press :=
              KeyboardEntry(0xe1, KeyUp), KeyboardEntry(0x04, KeyDown), KeyboardEntry(0xe3, KeyDown);
            Sort([release, key, press]) == [key, release, press] && Inverted([key, release, press])
  {
    var release, key, press :=
      KeyboardEntry(0xe1, KeyUp), KeyboardEntry(0x04, KeyDown), KeyboardEntry(0xe3, KeyDown);
    SortThree(release, key, press);
    assert SameRun([key, release, press], 0, 2);
  }

  lemma SortThree(a: Entry, b: Entry, c: Entry)
    requires NeedsSwap(a, b) && !NeedsSwap(a, c)
    ensures Sort([a, b, c]) == [b, a, c]
  {
    var one := [a];
    var two := one + [b];
    assert [a, b, c] == two + [c] && one == [] + [a];
    hide NeedsSwap;
    SortSnoc([], a);
    SortSnoc(one, b);
    SortSnoc(two, c);
    InsertSnoc([], a, b);
    InsertSnoc([b], a, c);
    assert Insert([], b) == [b] && [b] + [a] == [b, a];
  }

  /** The relation on two entries of the keyboard page with one timestamp: a letter and shift, in either order. */
  lemma NeedsSwapTable(t: EventType, u: EventType)
    ensures NeedsSwap(KeyboardEntry(0x04, t), KeyboardEntry(0xe1, u)) <==> u == KeyDown || u == Single
    ensures NeedsSwap(KeyboardEntry(0xe1, t), KeyboardEntry(0x04, u)) <==> t == KeyUp
    ensures !NeedsSwap(KeyboardEntry(0x04, t), KeyboardEntry(0x05, u))
    ensures !NeedsSwap(KeyboardEntry(0xe1, t), KeyboardEntry(0xe3, u))
  {
  }
}
