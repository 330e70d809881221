/**
 A rate limiter for each key: too many calls inside a sliding window suspend
 everything for a while. Times are integers on a clock that never runs back.
 */
module KeyboardFallbackLoopGuards {
  import opened Types
  import opened EventQueueEntries

  datatype Config = Config(window: int, threshold: nat, suspension: int)

  datatype Guard = Guard(timestamps: map<Switch, seq<int>>, suspendedUntil: Option<int>)

  datatype Call = Call(event: Event, now: int)

  /** The key a call is counted for: a valid switch that is no pointing button. */
  function CountedKey(e: Event): Option<Switch> {
    if e.IsSwitch() && e.value.switch.IsValid() && !e.value.switch.IsPointingButton()
    then Some(e.value.switch)
    else None
  }

  function Purge(ts: seq<int>, limit: int): seq<int> {
    if ts != [] && ts[0] <= limit then Purge(ts[1..], limit) else ts
  }

  function Get(m: map<Switch, seq<int>>, k: Switch): seq<int> {
    if k in m then m[k] else []
  }

  /** The state after a call, and whether the caller should suspend. */
  function Step(cfg: Config, g: Guard, c: Call): (Guard, bool) {
    if g.suspendedUntil.Some? && c.now < g.suspendedUntil.value then (g, true)
    else
      var g1 := if g.suspendedUntil.Some? then Guard(map[], None) else g;
      var key := CountedKey(c.event);
      if key.None? then (g1, false)
      else
        var ts := Purge(Get(g1.timestamps, key.value), c.now - cfg.window) + [c.now];
        if |ts| <= cfg.threshold then (g1.(timestamps := g1.timestamps[key.value := ts]), false)
        else (Guard(map[], Some(c.now + cfg.suspension)), true)
  }

  // ----- The object -----

  class KeyboardFallbackLoopGuard {
    const cfg: Config
    var timestamps: map<Switch, seq<int>>
    var suspendedUntil: Option<int>

    ghost function View(): Guard
      reads this
    {
      Guard(timestamps, suspendedUntil)
    }

    constructor (cfg: Config)
      ensures this.cfg == cfg && View() == Guard(map[], None)
    {
      this.cfg := cfg;
      timestamps := map[];
      suspendedUntil := None;
    }

    method ShouldSuspend(event: Event, now: int) returns (suspend: bool)
      modifies this
      ensures (View(), suspend) == Step(cfg, old(View()), Call(event, now))
    {
      if suspendedUntil.Some? {
        if now < suspendedUntil.value {
          return true;
        }
        suspendedUntil := None;
        timestamps := map[];
      }
      var key := CountedKey(event);
      if key.None? {
        return false;
      }
      var ts := PurgeExpired(Get(timestamps, key.value), now);
      ts := ts + [now];
      timestamps := timestamps[key.value := ts];
      if |ts| <= cfg.threshold {
        return false;
      }
      suspendedUntil := Some(now + cfg.suspension);
      timestamps := map[];
      return true;
    }

    method PurgeExpired(ts: seq<int>, now: int) returns (r: seq<int>)
      ensures r == Purge(ts, now - cfg.window)
    {
      r := ts;
      while r != [] && r[0] <= now - cfg.window
        invariant Purge(r, now - cfg.window) == Purge(ts, now - cfg.window)
        decreases |r|
      {
        r := r[1..];
      }
    }
  }

  // ----- Whole runs -----

  function After(cfg: Config, calls: seq<Call>): Guard {
    if calls == [] then Guard(map[], None) else Step(cfg, After(cfg, calls[..|calls| - 1]), calls[|calls| - 1]).0
  }

  /** The times at which calls for `key` were let through. */
  function PassTimes(cfg: Config, calls: seq<Call>, key: Switch): seq<int> {
    if calls == [] then []
    else
      var before, c := calls[..|calls| - 1], calls[|calls| - 1];
      if CountedKey(c.event) == Some(key) && !Step(cfg, After(cfg, before), c).1
      then PassTimes(cfg, before, key) + [c.now]
      else PassTimes(cfg, before, key)
  }

  /** How many of the times lie in the half-open window that ends at `t`. */
  function CountWithin(ts: seq<int>, t: int, window: int): nat {
    if ts == [] then 0
    else CountWithin(ts[..|ts| - 1], t, window) + if t - window < ts[|ts| - 1] <= t then 1 else 0
  }

  ghost predicate ClockNeverRunsBack(calls: seq<Call>) {
    forall i, j :: 0 <= i <= j < |calls| ==> calls[i].now <= calls[j].now
  }

  ghost predicate Sorted(ts: seq<int>) {
    forall i, j :: 0 <= i <= j < |ts| ==> ts[i] <= ts[j]
  }

  /** Any `threshold + 1` consecutive times span at least the window. */
  ghost predicate Spread(cfg: Config, ts: seq<int>) {
    forall i :: 0 <= i && i + cfg.threshold < |ts| ==> ts[i] + cfg.window <= ts[i + cfg.threshold]
  }

  /** The tail that is still remembered, and that the rest is out of the window. */
  ghost predicate Remembers(cfg: Config, kept: seq<int>, ts: seq<int>, k: nat, last: int) {
    k <= |ts| && kept == ts[k..] && forall i :: 0 <= i < k ==> ts[i] + cfg.window <= last
  }

  ghost predicate RunInv(cfg: Config, g: Guard, ts: seq<int>, key: Switch, last: int) {
    && Sorted(ts) && Spread(cfg, ts) && (forall i :: 0 <= i < |ts| ==> ts[i] <= last)
    && (g.suspendedUntil.None? ==> exists k :: Remembers(cfg, Get(g.timestamps, key), ts, k, last))
    && (g.suspendedUntil.Some? ==> forall i :: 0 <= i < |ts| ==> ts[i] + cfg.window <= g.suspendedUntil.value)
  }

  lemma {:induction false} PurgeDropsPrefix(ts: seq<int>, limit: int) returns (n: nat)
    ensures n <= |ts| && Purge(ts, limit) == ts[n..] && forall i :: 0 <= i < n ==> ts[i] <= limit
  {
    if ts != [] && ts[0] <= limit {
      var m := PurgeDropsPrefix(ts[1..], limit);
      n := m + 1;
      assert ts[1..][m..] == ts[n..];
      forall i | 0 <= i < n ensures ts[i] <= limit {
        if i > 0 {
          assert ts[i] == ts[1..][i - 1];
        }
      }
    } else {
      n := 0;
    }
  }

  /** What is dropped has left the window, and the new time is remembered. */
  lemma RemembersMore(cfg: Config, kept: seq<int>, ts: seq<int>, k: nat, n: nat, last: int, now: int)
    requires Remembers(cfg, kept, ts, k, last) && last <= now && n <= |kept|
    requires forall i :: 0 <= i < n ==> kept[i] <= now - cfg.window
    ensures Remembers(cfg, kept[n..] + [now], ts + [now], k + n, now)
  {
    var ts' := ts + [now];
    forall i | 0 <= i < k + n ensures ts'[i] + cfg.window <= now {
      if i >= k {
        assert ts[i] == kept[i - k];
      }
    }
    assert kept[n..] + [now] == ts'[k + n..];
  }

  /** With no more than the threshold remembered, one more time keeps the spread. */
  lemma SpreadMore(cfg: Config, ts: seq<int>, k: nat, now: int)
    requires Spread(cfg, ts) && k <= |ts| && |ts| + 1 - k <= cfg.threshold
    requires forall i :: 0 <= i < k ==> ts[i] + cfg.window <= now
    ensures Spread(cfg, ts + [now])
  {
    var ts' := ts + [now];
    forall i | 0 <= i && i + cfg.threshold < |ts'| ensures ts'[i] + cfg.window <= ts'[i + cfg.threshold] {
      assert i + cfg.threshold == |ts| ==> i < k;
    }
  }

  /** A call that is let through. */
  lemma PassInv(cfg: Config, kept: seq<int>, ts: seq<int>, k: nat, last: int, now: int) returns (k': nat)
    requires Sorted(ts) && Spread(cfg, ts) && (forall i :: 0 <= i < |ts| ==> ts[i] <= last) && last <= now
    requires Remembers(cfg, kept, ts, k, last)
    requires |Purge(kept, now - cfg.window) + [now]| <= cfg.threshold
    ensures Sorted(ts + [now]) && Spread(cfg, ts + [now])
    ensures Remembers(cfg, Purge(kept, now - cfg.window) + [now], ts + [now], k', now)
  {
    var n := PurgeDropsPrefix(kept, now - cfg.window);
    hide Purge;
    k' := k + n;
    RemembersMore(cfg, kept, ts, k, n, last, now);
    SpreadMore(cfg, ts, k', now);
  }

  /** A key that is remembered by nothing, once its times have left the window. */
  lemma ForgetAll(cfg: Config, ts: seq<int>, now: int)
    requires forall i :: 0 <= i < |ts| ==> ts[i] + cfg.window <= now
    ensures Remembers(cfg, [], ts, |ts|, now)
  {
  }

  lemma RememberLater(cfg: Config, kept: seq<int>, ts: seq<int>, k: nat, last: int, now: int)
    requires Remembers(cfg, kept, ts, k, last) && last <= now
    ensures Remembers(cfg, kept, ts, k, now)
  {
  }

  lemma StepInv(cfg: Config, g: Guard, ts: seq<int>, key: Switch, last: int, c: Call)
    requires cfg.window <= cfg.suspension && RunInv(cfg, g, ts, key, last) && last <= c.now
    ensures var r := Step(cfg, g, c);
            var ts' := if CountedKey(c.event) == Some(key) && !r.1 then ts + [c.now] else ts;
            RunInv(cfg, r.0, ts', key, c.now)
  {
    if g.suspendedUntil.Some? && c.now < g.suspendedUntil.value {
    } else {
      var g1 := if g.suspendedUntil.Some? then Guard(map[], None) else g;
      assert Step(cfg, g, c) == Step(cfg, g1, c);
      var k: nat;
      if g.suspendedUntil.Some? {
        ForgetAll(cfg, ts, c.now);
        k := |ts|;
      } else {
        k :| Remembers(cfg, Get(g.timestamps, key), ts, k, last);
        RememberLater(cfg, Get(g.timestamps, key), ts, k, last, c.now);
      }
      hide Step, CountedKey, Remembers, Spread, Sorted, Purge;
      AwakeInv(cfg, g1, ts, key, k, last, c);
    }
  }

  lemma AwakeInv(cfg: Config, g: Guard, ts: seq<int>, key: Switch, k: nat, last: int, c: Call)
    requires cfg.window <= cfg.suspension && g.suspendedUntil.None? && last <= c.now
    requires Sorted(ts) && Spread(cfg, ts) && (forall i :: 0 <= i < |ts| ==> ts[i] <= last)
    requires Remembers(cfg, Get(g.timestamps, key), ts, k, c.now)
    ensures var r := Step(cfg, g, c);
            var ts' := if CountedKey(c.event) == Some(key) && !r.1 then ts + [c.now] else ts;
            RunInv(cfg, r.0, ts', key, c.now)
  {
    var r := Step(cfg, g, c);
    hide *;
    AwakeCases(cfg, g, key, c);
    if r.1 {
      AsleepRunInv(cfg, r.0, ts, key, c.now);
    } else if CountedKey(c.event) == Some(key) {
      var k' := PassInv(cfg, Get(g.timestamps, key), ts, k, c.now, c.now);
      AwakeRunInv(cfg, r.0, ts + [c.now], key, k', c.now);
    } else {
      AwakeRunInv(cfg, r.0, ts, key, k, c.now);
    }
  }

  lemma AwakeRunInv(cfg: Config, g: Guard, ts: seq<int>, key: Switch, k: nat, last: int)
    requires Sorted(ts) && Spread(cfg, ts) && (forall i :: 0 <= i < |ts| ==> ts[i] <= last)
    requires g.suspendedUntil.None? && Remembers(cfg, Get(g.timestamps, key), ts, k, last)
    ensures RunInv(cfg, g, ts, key, last)
  {
  }

  lemma AsleepRunInv(cfg: Config, g: Guard, ts: seq<int>, key: Switch, last: int)
    requires cfg.window <= cfg.suspension
    requires Sorted(ts) && Spread(cfg, ts) && (forall i :: 0 <= i < |ts| ==> ts[i] <= last)
    requires g.suspendedUntil == Some(last + cfg.suspension)
    ensures RunInv(cfg, g, ts, key, last)
  {
  }

  /** A call while nothing is suspended, seen from one key. */
  lemma AwakeCases(cfg: Config, g: Guard, key: Switch, c: Call)
    requires g.suspendedUntil.None?
    ensures var r := Step(cfg, g, c);
            var ts := Purge(Get(g.timestamps, key), c.now - cfg.window) + [c.now];
            if r.1 then r.0.suspendedUntil == Some(c.now + cfg.suspension)
            else
              && r.0.suspendedUntil.None?
              && (CountedKey(c.event) == Some(key) ==> |ts| <= cfg.threshold && Get(r.0.timestamps, key) == ts)
              && (CountedKey(c.event) != Some(key) ==> Get(r.0.timestamps, key) == Get(g.timestamps, key))
  {
    hide Purge;
  }

  lemma {:induction false} RunKeepsInv(cfg: Config, calls: seq<Call>, key: Switch, last: int)
    requires cfg.window <= cfg.suspension && ClockNeverRunsBack(calls)
    requires calls != [] ==> last == calls[|calls| - 1].now
    ensures RunInv(cfg, After(cfg, calls), PassTimes(cfg, calls, key), key, last)
  {
    if calls == [] {
      assert Remembers(cfg, Get(After(cfg, calls).timestamps, key), PassTimes(cfg, calls, key), 0, last);
    } else {
      var before, c := calls[..|calls| - 1], calls[|calls| - 1];
      var l := if before == [] then c.now else before[|before| - 1].now;
      RunKeepsInv(cfg, before, key, l);
      StepInv(cfg, After(cfg, before), PassTimes(cfg, before, key), key, l, c);
    }
  }

  // ----- From spread to counting -----

  lemma {:induction false} CountSkips(ts: seq<int>, m: nat, t: int, window: int)
    requires m <= |ts| && forall i :: 0 <= i < m ==> ts[i] <= t - window
    ensures CountWithin(ts, t, window) <= |ts| - m
  {
    if m < |ts| {
      CountSkips(ts[..|ts| - 1], m, t, window);
    } else if ts != [] {
      CountSkips(ts[..|ts| - 1], m - 1, t, window);
    }
  }

  lemma {:induction false} SpreadBoundsCount(cfg: Config, ts: seq<int>, t: int)
    requires Sorted(ts) && Spread(cfg, ts)
    ensures CountWithin(ts, t, cfg.window) <= cfg.threshold
  {
    if ts != [] {
      var n := |ts| - 1;
      var front := ts[..n];
      SpreadBoundsCount(cfg, front, t);
      if t - cfg.window < ts[n] <= t {
        if n < cfg.threshold {
          CountSkips(ts, 0, t, cfg.window);
        } else {
          assert ts[n - cfg.threshold] + cfg.window <= ts[n];
          CountSkips(ts, n - cfg.threshold + 1, t, cfg.window);
        }
      }
    }
  }

  // ----- The rate bound, exactly -----

  /** In no run does any window of the configured length let more than `threshold` calls of a key through. */
  ghost predicate RateBounded(cfg: Config) {
    forall calls, key, t :: ClockNeverRunsBack(calls) ==>
      CountWithin(PassTimes(cfg, calls, key), t, cfg.window) <= cfg.threshold
  }

  lemma RateBoundHolds(cfg: Config, calls: seq<Call>, key: Switch, t: int)
    requires ClockNeverRunsBack(calls) && cfg.window <= cfg.suspension
    ensures CountWithin(PassTimes(cfg, calls, key), t, cfg.window) <= cfg.threshold
  {
    var last := if calls == [] then 0 else calls[|calls| - 1].now;
    RunKeepsInv(cfg, calls, key, last);
    SpreadBoundsCount(cfg, PassTimes(cfg, calls, key), t);
  }

  lemma {:induction false} NothingPassesAtZero(cfg: Config, calls: seq<Call>, key: Switch)
    requires cfg.threshold == 0
    ensures PassTimes(cfg, calls, key) == []
  {
    if calls != [] {
      NothingPassesAtZero(cfg, calls[..|calls| - 1], key);
    }
  }

  lemma {:induction false} EmptyWindow(ts: seq<int>, t: int, window: int)
    requires window <= 0
    ensures CountWithin(ts, t, window) == 0
  {
    if ts != [] {
      EmptyWindow(ts[..|ts| - 1], t, window);
    }
  }

  /** `n` calls for one key, all at time 0. */
  function Burst(e: Event, n: nat): seq<Call> {
    if n == 0 then [] else Burst(e, n - 1) + [Call(e, 0)]
  }

  function Zeros(n: nat): seq<int> {
    if n == 0 then [] else Zeros(n - 1) + [0]
  }

  lemma {:induction false} ZerosFacts(n: nat, t: int, window: int)
    requires t - window < 0 <= t
    ensures |Zeros(n)| == n && (forall i :: 0 <= i < n ==> Zeros(n)[i] == 0)
    ensures CountWithin(Zeros(n), t, window) == n
  {
    if n > 0 {
      ZerosFacts(n - 1, t, window);
      assert Zeros(n)[..n - 1] == Zeros(n - 1);
    }
  }

  lemma SnocCall(cfg: Config, calls: seq<Call>, c: Call, key: Switch)
    ensures After(cfg, calls + [c]) == Step(cfg, After(cfg, calls), c).0
    ensures PassTimes(cfg, calls + [c], key) ==
            if CountedKey(c.event) == Some(key) && !Step(cfg, After(cfg, calls), c).1
            then PassTimes(cfg, calls, key) + [c.now] else PassTimes(cfg, calls, key)
  {
    assert (calls + [c])[..|calls + [c]| - 1] == calls;
  }

  lemma BurstStep(cfg: Config, g: Guard, e: Event, key: Switch, n: nat)
    requires cfg.window > 0 && CountedKey(e) == Some(key)
    requires g.suspendedUntil.None? && Get(g.timestamps, key) == Zeros(n)
    ensures Step(cfg, g, Call(e, 0)) ==
            if n < cfg.threshold then (Guard(g.timestamps[key := Zeros(n + 1)], None), false)
            else (Guard(map[], Some(cfg.suspension)), true)
  {
    ZerosFacts(n, 0, 1);
    assert Purge(Zeros(n), 0 - cfg.window) == Zeros(n);
  }

  ghost predicate AfterBurst(cfg: Config, calls: seq<Call>, key: Switch, n: nat) {
    && After(cfg, calls).suspendedUntil.None?
    && Get(After(cfg, calls).timestamps, key) == Zeros(n)
    && PassTimes(cfg, calls, key) == Zeros(n)
    && forall i :: 0 <= i < |calls| ==> calls[i].now == 0
  }

  lemma NextPasses(cfg: Config, calls: seq<Call>, e: Event, key: Switch, n: nat)
    requires cfg.window > 0 && n < cfg.threshold && CountedKey(e) == Some(key)
    requires AfterBurst(cfg, calls, key, n)
    ensures AfterBurst(cfg, calls + [Call(e, 0)], key, n + 1)
  {
    hide Step, After, PassTimes, CountedKey;
    BurstStep(cfg, After(cfg, calls), e, key, n);
    SnocCall(cfg, calls, Call(e, 0), key);
  }

  lemma {:induction false} BurstPasses(cfg: Config, e: Event, key: Switch, n: nat)
    requires cfg.window > 0 && n <= cfg.threshold && CountedKey(e) == Some(key)
    ensures AfterBurst(cfg, Burst(e, n), key, n)
  {
    if n > 0 {
      BurstPasses(cfg, e, key, n - 1);
      NextPasses(cfg, Burst(e, n - 1), e, key, n - 1);
    }
  }

  /** A burst, the call that suspends, and one call as soon as the suspension is over. */
  lemma ShortSuspensionBreaksBound(cfg: Config)
    requires 0 < cfg.window && cfg.suspension < cfg.window && cfg.threshold > 0
    ensures !RateBounded(cfg)
  {
    hide Step, After, PassTimes, Zeros, CountWithin, Burst;
    var key := Switch(KEYBOARD_OR_KEYPAD, 0x04);
    var e := Event(MomentarySwitchEvent, SwitchValue(key));
    assert CountedKey(e) == Some(key);
    hide CountedKey;
    var n, later := cfg.threshold, Max(0, cfg.suspension);
    var burst := Burst(e, n);
    BurstPasses(cfg, e, key, n);
    BurstStep(cfg, After(cfg, burst), e, key, n);
    SnocCall(cfg, burst, Call(e, 0), key);
    SnocCall(cfg, burst + [Call(e, 0)], Call(e, later), key);
    ResumingPasses(cfg, e, key, later);
    var all := burst + [Call(e, 0)] + [Call(e, later)];
    assert PassTimes(cfg, all, key) == Zeros(n) + [later];
    CountOneMore(n, later, cfg.window);
    assert ClockNeverRunsBack(all);
  }

  lemma ResumingPasses(cfg: Config, e: Event, key: Switch, later: int)
    requires cfg.threshold > 0 && CountedKey(e) == Some(key) && later >= cfg.suspension
    ensures !Step(cfg, Guard(map[], Some(cfg.suspension)), Call(e, later)).1
  {
  }

  lemma CountOneMore(n: nat, t: int, window: int)
    requires t - window < 0 <= t
    ensures CountWithin(Zeros(n) + [t], t, window) == n + 1
  {
    ZerosFacts(n, t, window);
    assert (Zeros(n) + [t])[..|Zeros(n) + [t]| - 1] == Zeros(n);
  }

  /** The bound holds over all runs exactly if suspending outlasts the window, or there is nothing to bound. */
  lemma RateBoundIff(cfg: Config)
    ensures RateBounded(cfg) <==> cfg.window <= 0 || cfg.threshold == 0 || cfg.window <= cfg.suspension
  {
    if cfg.window <= 0 || cfg.threshold == 0 || cfg.window <= cfg.suspension {
      forall calls, key, t | ClockNeverRunsBack(calls)
        ensures CountWithin(PassTimes(cfg, calls, key), t, cfg.window) <= cfg.threshold
      {
        if cfg.window <= 0 {
          EmptyWindow(PassTimes(cfg, calls, key), t, cfg.window);
        } else if cfg.threshold == 0 {
          NothingPassesAtZero(cfg, calls, key);
        } else {
          RateBoundHolds(cfg, calls, key, t);
        }
      }
    } else {
      ShortSuspensionBreaksBound(cfg);
    }
  }
}
