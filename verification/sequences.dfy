/** Removing elements from sequences, and what stays. */
module Sequences {

  function RemoveAt<T>(s: seq<T>, i: nat): seq<T>
    requires i < |s|
  {
    s[..i] + s[i + 1..]
  }

  /** The entries that `keep` accepts, in their order. */
  function Filter<T>(s: seq<T>, keep: T -> bool): seq<T> {
    if s == [] then []
    else
      var kept := Filter(s[..|s| - 1], keep);
      if keep(s[|s| - 1]) then kept + [s[|s| - 1]] else kept
  }

  ghost predicate Distinct<T>(s: seq<T>) {
    forall i, j :: 0 <= i < j < |s| ==> s[i] != s[j]
  }

  lemma AppendAssoc<T>(a: seq<T>, b: seq<T>, x: T)
    ensures (a + b) + [x] == a + (b + [x])
  {
  }

  lemma RemoveAtMultiset<T>(s: seq<T>, i: nat)
    requires i < |s|
    ensures multiset(RemoveAt(s, i)) == multiset(s) - multiset{s[i]}
    ensures multiset(s)[s[i]] > 0
  {
    assert s == s[..i] + [s[i]] + s[i + 1..];
  }

  lemma {:induction false} FilterMultiset<T>(s: seq<T>, keep: T -> bool, x: T)
    ensures multiset(Filter(s, keep))[x] == if keep(x) then multiset(s)[x] else 0
  {
    if s != [] {
      FilterMultiset(s[..|s| - 1], keep, x);
      assert s == s[..|s| - 1] + [s[|s| - 1]];
    }
  }

  lemma FilterKeeps<T>(s: seq<T>, keep: T -> bool)
    ensures forall x :: x in Filter(s, keep) <==> x in s && keep(x)
  {
    forall x ensures x in Filter(s, keep) <==> x in s && keep(x) {
      FilterMultiset(s, keep, x);
      assert x in Filter(s, keep) <==> x in multiset(Filter(s, keep));
      assert x in s <==> x in multiset(s);
    }
  }

  lemma {:induction false} FilterAppend<T>(s: seq<T>, t: seq<T>, keep: T -> bool)
    ensures Filter(s + t, keep) == Filter(s, keep) + Filter(t, keep)
  {
    if t == [] {
      assert s + t == s;
    } else {
      FilterAppend(s, t[..|t| - 1], keep);
      assert (s + t)[..|s + t| - 1] == s + t[..|t| - 1];
    }
  }

  lemma FilterSnoc<T>(s: seq<T>, x: T, keep: T -> bool)
    ensures Filter(s + [x], keep) == if keep(x) then Filter(s, keep) + [x] else Filter(s, keep)
  {
    assert (s + [x])[..|s + [x]| - 1] == s;
  }

  lemma FilterOne<T>(x: T, keep: T -> bool)
    ensures Filter([x], keep) == if keep(x) then [x] else []
  {
    assert [x][..0] == [];
  }

  lemma FilterRemoveAt<T>(s: seq<T>, i: nat, keep: T -> bool)
    requires i < |s| && !keep(s[i])
    ensures Filter(RemoveAt(s, i), keep) == Filter(s, keep)
  {
    FilterOne(s[i], keep);
    hide Filter;
    assert s == s[..i] + [s[i]] + s[i + 1..];
    FilterAppend(s[..i] + [s[i]], s[i + 1..], keep);
    FilterAppend(s[..i], [s[i]], keep);
    FilterAppend(s[..i], s[i + 1..], keep);
  }

  lemma FilterAround<T>(s: seq<T>, i: nat, keep: T -> bool)
    requires i < |s| && keep(s[i])
    ensures Filter(s, keep) == Filter(s[..i], keep) + [s[i]] + Filter(s[i + 1..], keep)
    ensures Filter(RemoveAt(s, i), keep) == Filter(s[..i], keep) + Filter(s[i + 1..], keep)
  {
    assert s == (s[..i] + [s[i]]) + s[i + 1..];
    hide Filter;
    FilterAppend(s[..i] + [s[i]], s[i + 1..], keep);
    FilterSnoc(s[..i], s[i], keep);
    FilterAppend(s[..i], s[i + 1..], keep);
  }

  lemma {:induction false} FilterTwice<T>(s: seq<T>, a: T -> bool, b: T -> bool)
    requires forall x :: x in s && b(x) ==> a(x)
    ensures Filter(Filter(s, a), b) == Filter(s, b)
  {
    if s != [] {
      var t, x := s[..|s| - 1], s[|s| - 1];
      assert s == t + [x];
      FilterTwice(t, a, b);
      hide *;
      FilterSnoc(t, x, a);
      FilterSnoc(t, x, b);
      FilterSnoc(Filter(t, a), x, b);
    }
  }
}
