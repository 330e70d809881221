/**
 What erasing pairs does to an arbitrary list. The loop steps back after an
 erasure, but not below index 0, so an entry that moves to the front is skipped.
 */
module ErasePairsTheorems {
  import opened Types
  import opened ActiveModifierFlags
  import opened ModifierFlagLists
  import opened Sequences

  /** `r` is what cancelling leaves of `s`. */
  ghost predicate Cancelled(s: seq<ActiveFlag>, r: seq<ActiveFlag>) {
    && PairFree(r)
    && (forall f :: f in r ==> f in s)
    && (forall k :: Counter(r, k) == Counter(s, k))
  }

  lemma CounterCons(f: ActiveFlag, s: seq<ActiveFlag>, k: CounterKey)
    ensures Counter([f] + s, k) == Counter(s, k) + if f.Key() == k then f.Count() else 0
  {
    KeyEntries(f, k);
    assert multiset([f] + s) == multiset{f} + multiset(s);
  }

  lemma CounterRemoveAt(s: seq<ActiveFlag>, i: nat, k: CounterKey)
    requires i < |s|
    ensures Counter(RemoveAt(s, i), k) == Counter(s, k) - if s[i].Key() == k then s[i].Count() else 0
  {
    KeyEntries(s[i], k);
    RemoveAtMultiset(s, i);
  }

  /** Taking a pair out moves no counter. */
  lemma RemovedPair(s: seq<ActiveFlag>, i: nat, j: nat, k: CounterKey)
    requires i < j < |s| && s[i].IsPaired(s[j])
    ensures Counter(RemoveAt(RemoveAt(s, j), i), k) == Counter(s, k)
  {
    hide Counter;
    CounterRemoveAt(s, j, k);
    CounterRemoveAt(RemoveAt(s, j), i, k);
    PairedIffOpposite(s[i], s[j]);
  }

  lemma CancelledCons(f: ActiveFlag, s: seq<ActiveFlag>, r: seq<ActiveFlag>)
    requires Cancelled(s, r) && f.Opposite() !in s
    ensures Cancelled([f] + s, [f] + r)
  {
    forall k ensures Counter([f] + r, k) == Counter([f] + s, k) {
      CounterCons(f, s, k);
      CounterCons(f, r, k);
    }
    forall g | g in [f] + r ensures g.Opposite() !in [f] + r && g in [f] + s {
      PairedIffOpposite(f, g);
    }
  }

  lemma CancelledTrans(s: seq<ActiveFlag>, t: seq<ActiveFlag>, r: seq<ActiveFlag>)
    requires Cancelled(t, r) && (forall f :: f in t ==> f in s) && forall k :: Counter(t, k) == Counter(s, k)
    ensures Cancelled(s, r)
  {
  }

  lemma NoneIsPaired(s: seq<ActiveFlag>, i: nat)
    requires i < |s| && FirstPaired(s, s[i], i + 1) == |s|
    ensures s[i].Opposite() !in s[i + 1..]
  {
    var rest := s[i + 1..];
    forall g | g in rest ensures g != s[i].Opposite() {
      PairedIffOpposite(s[i], g);
      PairedIffOpposite(g, s[i]);
    }
  }

  /** From any index but the first, the loops leave the part before alone and cancel the rest completely. */
  lemma {:induction false} CancelsRest(s: seq<ActiveFlag>, i: nat) returns (r: seq<ActiveFlag>)
    requires 1 <= i <= |s|
    ensures ErasePairsFrom(s, i) == s[..i] + r && Cancelled(s[i..], r)
    decreases |s|, |s| - i
  {
    hide Cancelled, FirstPaired, RemoveAt, ErasePairsFrom;
    if i == |s| {
      r := [];
      CancelledNothing();
      ErasePairsEnd(s, i);
      assert s[i..] == [] && s[..i] + r == s;
    } else {
      var j := FirstPaired(s, s[i], i + 1);
      ErasePairsStep(s, i, j);
      if j == |s| {
        var rest := CancelsRest(s, i + 1);
        r := [s[i]] + rest;
        NoneIsPaired(s, i);
        CancelledCons(s[i], s[i + 1..], rest);
        assert s[i..] == [s[i]] + s[i + 1..];
        assert s[..i + 1] + rest == s[..i] + r;
      } else {
        var t := RemoveAt(RemoveAt(s, j), i);
        r := CancelsRest(t, i);
        PrefixStays(s, i, j);
        RestCancelled(s, i, j, r);
      }
    }
  }

  lemma RestWithoutPair(s: seq<ActiveFlag>, i: nat, j: nat)
    requires i < j < |s| && s[i].IsPaired(s[j])
    ensures var t := RemoveAt(RemoveAt(s, j), i);
            && t[i..] == RemoveAt(RemoveAt(s[i..], j - i), 0)
            && (forall f :: f in t[i..] ==> f in s[i..])
            && (forall k :: Counter(t[i..], k) == Counter(s[i..], k))
  {
    var u := s[i..];
    assert u[0] == s[i] && u[j - i] == s[j];
    assert RemoveAt(RemoveAt(s, j), i)[i..] == RemoveAt(RemoveAt(u, j - i), 0);
    var v := RemoveAt(u, j - i);
    var w := RemoveAt(v, 0);
    assert forall f :: f in v ==> f in u;
    assert forall f :: f in w ==> f in v;
    forall k ensures Counter(RemoveAt(RemoveAt(u, j - i), 0), k) == Counter(u, k) {
      RemovedPair(u, 0, j - i, k);
    }
  }

  lemma CancelledNothing()
    ensures Cancelled([], [])
  {
  }

  lemma RestCancelled(s: seq<ActiveFlag>, i: nat, j: nat, r: seq<ActiveFlag>)
    requires i < j < |s| && s[i].IsPaired(s[j])
    requires Cancelled(RemoveAt(RemoveAt(s, j), i)[i..], r)
    ensures Cancelled(s[i..], r)
  {
    hide Cancelled, Counter;
    RestWithoutPair(s, i, j);
    CancelledTrans(s[i..], RemoveAt(RemoveAt(s, j), i)[i..], r);
  }

  lemma PrefixStays(s: seq<ActiveFlag>, i: nat, j: nat)
    requires i < j < |s|
    ensures |RemoveAt(s, j)| == |s| - 1 && |RemoveAt(RemoveAt(s, j), i)| == |s| - 2
    ensures RemoveAt(RemoveAt(s, j), i)[..i] == s[..i]
  {
  }

  /** The front entry is cancelled, and the entry that takes its place ends up facing opposite ones. */
  predicate SkipsAPair(s: seq<ActiveFlag>) {
    && |s| > 2
    && var j := FirstPaired(s, s[0], 1);
       && j < |s|
       && var t := RemoveAt(RemoveAt(s, j), 0);
          Counter(t[1..], t[0].Key()) * t[0].Count() < 0
  }

  lemma FrontFaces(f: ActiveFlag, s: seq<ActiveFlag>, r: seq<ActiveFlag>)
    requires Cancelled(s, r)
    ensures PairFree([f] + r) <==> Counter(s, f.Key()) * f.Count() >= 0
  {
    var g := f.Opposite();
    KeyEntries(f, f.Key());
    assert Counter(r, f.Key()) == Counter(s, f.Key());
    assert g in r <==> g in multiset(r);
    assert f in r <==> f in multiset(r);
    assert PairFree([f] + r) <==> g !in r by {
      if g !in r {
        forall h | h in [f] + r ensures h.Opposite() !in [f] + r {
          PairedIffOpposite(f, h);
        }
      } else {
        assert f in [f] + r && g in [f] + r;
      }
    }
  }

  /** On every list whatsoever: no counter moves, and a pair remains exactly if one was skipped at the front. */
  lemma ErasePairsOnAnyList(s: seq<ActiveFlag>)
    ensures forall k :: Counter(ErasePairs(s), k) == Counter(s, k)
    ensures PairFree(ErasePairs(s)) <==> !SkipsAPair(s)
  {
    if s != [] {
      var j := FirstPaired(s, s[0], 1);
      if j == |s| {
        var r := CancelsRest(s, 1);
        NoneIsPaired(s, 0);
        CancelledCons(s[0], s[1..], r);
        assert s == [s[0]] + s[1..] && ErasePairs(s) == [s[0]] + r;
      } else {
        FrontCancelled(s, j);
      }
    }
  }

  lemma FrontCancelled(s: seq<ActiveFlag>, j: nat)
    requires s != [] && j == FirstPaired(s, s[0], 1) && j < |s|
    ensures forall k :: Counter(ErasePairs(s), k) == Counter(s, k)
    ensures PairFree(ErasePairs(s)) <==> !SkipsAPair(s)
  {
    hide Counter, PairFree, FirstPaired, RemoveAt, ErasePairsFrom;
    ErasePairsStep(s, 0, j);
    var t := RemoveAt(RemoveAt(s, j), 0);
    forall k ensures Counter(t, k) == Counter(s, k) {
      RemovedPair(s, 0, j, k);
    }
    if t == [] {
      NothingLeft();
    } else {
      var r := CancelsRest(t, 1);
      assert t[..1] + r == [t[0]] + r;
      FrontAndRest(t, r);
    }
  }

  lemma NothingLeft()
    ensures ErasePairsFrom([], 1) == [] && PairFree([])
  {
  }

  /** The skipped front, and what cancelling left of the rest. */
  lemma FrontAndRest(t: seq<ActiveFlag>, r: seq<ActiveFlag>)
    requires t != [] && Cancelled(t[1..], r)
    ensures forall k :: Counter([t[0]] + r, k) == Counter(t, k)
    ensures PairFree([t[0]] + r) <==> Counter(t[1..], t[0].Key()) * t[0].Count() >= 0
  {
    assert t == [t[0]] + t[1..];
    FrontFaces(t[0], t[1..], r);
    forall k ensures Counter([t[0]] + r, k) == Counter(t, k) {
      CounterCons(t[0], r, k);
      CounterCons(t[0], t[1..], k);
    }
  }

  /** Two pairs in a row: the second one stays. */
  lemma SecondPairStays()
    ensures var a, b := ActiveFlag(Increase, LeftShift, 1), ActiveFlag(Increase, Fn, 1);
            && ErasePairs([a, a.Opposite(), b, b.Opposite()]) == [b, b.Opposite()]
            && !PairFree([b, b.Opposite()])
  {
    var a, b := ActiveFlag(Increase, LeftShift, 1), ActiveFlag(Increase, Fn, 1);
    var s, t := [a, a.Opposite(), b, b.Opposite()], [b, b.Opposite()];
    assert FirstPaired(s, s[0], 1) == 1;
    assert RemoveAt(RemoveAt(s, 1), 0) == t;
    assert FirstPaired(t, t[1], 2) == 2;
    assert ErasePairsFrom(t, 1) == ErasePairsFrom(t, 2) == t;
    assert b in t && b.Opposite() in t;
  }
}
