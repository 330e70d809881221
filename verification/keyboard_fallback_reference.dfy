/**
 The rate limiter against a reference that purges nothing: it keeps every call
 let through since the last suspension, and counts those inside the window.
 */
module KeyboardFallbackReference {
  import opened Types
  import opened EventQueueEntries
  import opened KeyboardFallbackLoopGuards

  datatype Passed = Passed(key: Switch, time: int)

  /** The calls let through since the last suspension began, and when that was. */
  datatype Past = Past(passed: seq<Passed>, suspendedAt: Option<int>)

  /** The calls for a key that are later than a limit. */
  function CountAfter(passed: seq<Passed>, key: Switch, limit: int): nat {
    if passed == [] then 0
    else
      CountAfter(passed[..|passed| - 1], key, limit) +
      if passed[|passed| - 1].key == key && passed[|passed| - 1].time > limit then 1 else 0
  }

  predicate IsSuspended(cfg: Config, past: Past, now: int) {
    past.suspendedAt.Some? && now < past.suspendedAt.value + cfg.suspension
  }

  /** Keys count, pointing buttons and undefined switches do not. */
  predicate Counts(e: Event, key: Switch) {
    e.value == SwitchValue(key) && key.page != 0 && key.usage != 0 && key.page != 0x09
  }

  /** The answer to a call: suspended, or one call too many inside the window. */
  predicate Suspends(cfg: Config, past: Past, c: Call) {
    || IsSuspended(cfg, past, c.now)
    || (c.event.value.SwitchValue? && Counts(c.event, c.event.value.switch)
        && CountAfter(past.passed, c.event.value.switch, c.now - cfg.window) + 1 > cfg.threshold)
  }

  function NextPast(cfg: Config, past: Past, c: Call): Past {
    if IsSuspended(cfg, past, c.now) then past
    else if Suspends(cfg, past, c) then Past([], Some(c.now))
    else if c.event.value.SwitchValue? && Counts(c.event, c.event.value.switch)
    then past.(passed := past.passed + [Passed(c.event.value.switch, c.now)])
    else past
  }

  function PastOf(cfg: Config, calls: seq<Call>): Past {
    if calls == [] then Past([], None) else NextPast(cfg, PastOf(cfg, calls[..|calls| - 1]), calls[|calls| - 1])
  }

  // ----- The guard agrees with it -----

  function TimesOf(passed: seq<Passed>, key: Switch): seq<int> {
    if passed == [] then []
    else
      var before := TimesOf(passed[..|passed| - 1], key);
      if passed[|passed| - 1].key == key then before + [passed[|passed| - 1].time] else before
  }

  lemma TimesOfSnoc(passed: seq<Passed>, p: Passed, key: Switch)
    ensures TimesOf(passed + [p], key) ==
            if p.key == key then TimesOf(passed, key) + [p.time] else TimesOf(passed, key)
  {
    assert (passed + [p])[..|passed + [p]| - 1] == passed;
  }

  /** The times kept for a key are the recent ones of those that passed. */
  ghost predicate Keeps(cfg: Config, kept: seq<int>, ts: seq<int>, k: nat, now: int) {
    k <= |ts| && kept == ts[k..] && Sorted(ts) && forall i :: 0 <= i < k ==> ts[i] <= now - cfg.window
  }

  ghost predicate KeepsKey(cfg: Config, g: Guard, past: Past, key: Switch, last: int) {
    && (forall t :: t in TimesOf(past.passed, key) ==> t <= last)
    && exists k :: Keeps(cfg, Get(g.timestamps, key), TimesOf(past.passed, key), k, last)
  }

  ghost predicate Agrees(cfg: Config, g: Guard, past: Past, last: int) {
    && (g.suspendedUntil.Some? ==>
          && g.timestamps == map[] && past.passed == [] && past.suspendedAt.Some?
          && g.suspendedUntil.value == past.suspendedAt.value + cfg.suspension)
    && (g.suspendedUntil.None? ==>
          && !IsSuspended(cfg, past, last)
          && forall key :: KeepsKey(cfg, g, past, key, last))
  }

  lemma {:induction false} CountIsSuffix(passed: seq<Passed>, key: Switch, limit: int, n: nat)
    requires n <= |TimesOf(passed, key)|
    requires forall i :: 0 <= i < n ==> TimesOf(passed, key)[i] <= limit
    requires forall i :: n <= i < |TimesOf(passed, key)| ==> TimesOf(passed, key)[i] > limit
    ensures CountAfter(passed, key, limit) == |TimesOf(passed, key)| - n
  {
    if passed != [] {
      var t, p := passed[..|passed| - 1], passed[|passed| - 1];
      assert passed == t + [p];
      TimesOfSnoc(t, p, key);
      var before, all := TimesOf(t, key), TimesOf(passed, key);
      assert forall i :: 0 <= i < |before| ==> all[i] == before[i];
      if p.key == key {
        assert all[|before|] == p.time;
        CountIsSuffix(t, key, limit, if n == |all| then n - 1 else n);
      } else {
        CountIsSuffix(t, key, limit, n);
      }
    }
  }

  /** What purging leaves is what the reference counts. */
  lemma PurgeCounts(cfg: Config, kept: seq<int>, passed: seq<Passed>, key: Switch, k: nat, now: int) returns (n: nat)
    requires Keeps(cfg, kept, TimesOf(passed, key), k, now)
    ensures Keeps(cfg, Purge(kept, now - cfg.window), TimesOf(passed, key), n, now)
    ensures |Purge(kept, now - cfg.window)| == CountAfter(passed, key, now - cfg.window)
  {
    var ts, limit := TimesOf(passed, key), now - cfg.window;
    var m := PurgeDropsPrefix(kept, limit);
    n := k + m;
    assert forall i :: 0 <= i < m ==> kept[i] == ts[k + i];
    assert Purge(kept, limit) == ts[n..];
    PurgeStops(kept, limit);
    hide Purge;
    assert n < |ts| ==> Purge(kept, limit)[0] == ts[n];
    CountIsSuffix(passed, key, limit, n);
  }

  lemma {:induction false} PurgeStops(ts: seq<int>, limit: int)
    ensures Purge(ts, limit) != [] ==> Purge(ts, limit)[0] > limit
  {
    if ts != [] && ts[0] <= limit {
      PurgeStops(ts[1..], limit);
    }
  }

  /** A suspension that is over leaves nothing behind. */
  lemma Resumes(cfg: Config, g: Guard, past: Past, last: int, now: int)
    requires Agrees(cfg, g, past, last) && last <= now && !IsSuspended(cfg, past, now)
    ensures Agrees(cfg, if g.suspendedUntil.Some? then Guard(map[], None) else g, past, now)
  {
    var g1 := if g.suspendedUntil.Some? then Guard(map[], None) else g;
    forall key ensures KeepsKey(cfg, g1, past, key, now) {
      if g.suspendedUntil.Some? {
        assert Keeps(cfg, Get(g1.timestamps, key), TimesOf(past.passed, key), 0, now);
      } else {
        assert KeepsKey(cfg, g, past, key, last);
        var k :| Keeps(cfg, Get(g.timestamps, key), TimesOf(past.passed, key), k, last);
        assert Keeps(cfg, Get(g1.timestamps, key), TimesOf(past.passed, key), k, now);
      }
    }
  }

  lemma CountedIff(e: Event)
    ensures CountedKey(e) == if e.value.SwitchValue? && Counts(e, e.value.switch) then Some(e.value.switch) else None
  {
  }

  /** One call: the same answer, and agreement afterwards. */
  lemma StepAgrees(cfg: Config, g: Guard, past: Past, last: int, c: Call)
    requires Agrees(cfg, g, past, last) && last <= c.now
    ensures Step(cfg, g, c).1 == Suspends(cfg, past, c)
    ensures Agrees(cfg, Step(cfg, g, c).0, NextPast(cfg, past, c), c.now)
  {
    CountedIff(c.event);
    hide Counts, CountedKey;
    if IsSuspended(cfg, past, c.now) {
      StillSuspended(cfg, g, past, last, c);
    } else {
      var g1 := if g.suspendedUntil.Some? then Guard(map[], None) else g;
      Resumes(cfg, g, past, last, c.now);
      hide KeepsKey;
      if CountedKey(c.event).Some? {
        CountedCall(cfg, g1, past, c, c.event.value.switch);
      }
    }
  }

  lemma StillSuspended(cfg: Config, g: Guard, past: Past, last: int, c: Call)
    requires Agrees(cfg, g, past, last) && last <= c.now && IsSuspended(cfg, past, c.now)
    ensures g.suspendedUntil == Some(past.suspendedAt.value + cfg.suspension)
    ensures Agrees(cfg, g, past, c.now)
  {
  }

  /** A call that counts, while nothing is suspended. */
  lemma CountedCall(cfg: Config, g: Guard, past: Past, c: Call, key: Switch)
    requires g.suspendedUntil.None? && Agrees(cfg, g, past, c.now)
    ensures var ts := Purge(Get(g.timestamps, key), c.now - cfg.window) + [c.now];
            && |ts| == CountAfter(past.passed, key, c.now - cfg.window) + 1
            && Agrees(cfg, g.(timestamps := g.timestamps[key := ts]),
                      past.(passed := past.passed + [Passed(key, c.now)]), c.now)
  {
    assert KeepsKey(cfg, g, past, key, c.now);
    var k :| Keeps(cfg, Get(g.timestamps, key), TimesOf(past.passed, key), k, c.now);
    var n := PurgeCounts(cfg, Get(g.timestamps, key), past.passed, key, k, c.now);
    var kept := Purge(Get(g.timestamps, key), c.now - cfg.window);
    hide Purge, TimesOf, Keeps, Sorted, CountAfter;
    var g' := g.(timestamps := g.timestamps[key := kept + [c.now]]);
    var past' := past.(passed := past.passed + [Passed(key, c.now)]);
    forall other ensures KeepsKey(cfg, g', past', other, c.now) {
      assert KeepsKey(cfg, g, past, other, c.now);
      OneMoreCall(cfg, g, past, c, key, kept, n, other);
    }
  }

  lemma OneMoreCall(
      cfg: Config, g: Guard, past: Past, c: Call, key: Switch, kept: seq<int>, n: nat, other: Switch)
    requires KeepsKey(cfg, g, past, key, c.now) && KeepsKey(cfg, g, past, other, c.now)
    requires Keeps(cfg, kept, TimesOf(past.passed, key), n, c.now)
    ensures KeepsKey(cfg, g.(timestamps := g.timestamps[key := kept + [c.now]]),
                     past.(passed := past.passed + [Passed(key, c.now)]), other, c.now)
  {
    hide TimesOf, Keeps;
    var m := g.timestamps[key := kept + [c.now]];
    TimesOfSnoc(past.passed, Passed(key, c.now), other);
    if other == key {
      KeepsOneMore(cfg, kept, TimesOf(past.passed, key), n, c.now);
      assert Get(m, key) == kept + [c.now];
    } else {
      assert Get(m, other) == Get(g.timestamps, other);
    }
  }

  lemma KeepsOneMore(cfg: Config, kept: seq<int>, ts: seq<int>, n: nat, now: int)
    requires Keeps(cfg, kept, ts, n, now) && forall t :: t in ts ==> t <= now
    ensures Keeps(cfg, kept + [now], ts + [now], n, now)
  {
    assert forall i :: 0 <= i < |ts| ==> ts[i] in ts;
    assert (ts + [now])[n..] == ts[n..] + [now];
  }

  lemma {:induction false} RunAgrees(cfg: Config, calls: seq<Call>, last: int)
    requires ClockNeverRunsBack(calls) && (calls != [] ==> last == calls[|calls| - 1].now)
    ensures Agrees(cfg, After(cfg, calls), PastOf(cfg, calls), last)
  {
    if calls == [] {
      forall key ensures KeepsKey(cfg, Guard(map[], None), Past([], None), key, last) {
        assert Keeps(cfg, Get(map[], key), TimesOf([], key), 0, last);
      }
    } else {
      var before, c := calls[..|calls| - 1], calls[|calls| - 1];
      var earlier := if before == [] then c.now else before[|before| - 1].now;
      assert ClockNeverRunsBack(before);
      assert before != [] ==> calls[|before| - 1].now <= calls[|before|].now;
      RunAgrees(cfg, before, earlier);
      StepAgrees(cfg, After(cfg, before), PastOf(cfg, before), earlier, c);
    }
  }

  /**
   With a clock that never runs back, every call of every run gets the answer of
   the reference: suspended exactly during a suspension, or when the window
   already holds as many calls of that key as the threshold allows.
   */
  lemma GuardAnswersAsReference(cfg: Config, calls: seq<Call>, c: Call)
    requires ClockNeverRunsBack(calls + [c])
    ensures Step(cfg, After(cfg, calls), c).1 <==> Suspends(cfg, PastOf(cfg, calls), c)
  {
    var all := calls + [c];
    assert ClockNeverRunsBack(calls) by {
      assert forall i :: 0 <= i < |calls| ==> calls[i] == all[i];
    }
    var last := if calls == [] then c.now else calls[|calls| - 1].now;
    assert calls != [] ==> all[|calls| - 1].now <= all[|calls|].now;
    RunAgrees(cfg, calls, last);
    hide *;
    StepAgrees(cfg, After(cfg, calls), PastOf(cfg, calls), last, c);
  }
}
