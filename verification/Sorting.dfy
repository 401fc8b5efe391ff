/** Insertion sort, as the Go relay runs it in place, and why its result is the only one possible. */
module Sorting {
  ghost predicate TotalPreorder<T(!new)>(le: (T, T) -> bool) {
    (forall x, y :: le(x, y) || le(y, x)) &&
    (forall x, y, z :: le(x, y) && le(y, z) ==> le(x, z))
  }

  ghost predicate Sorted<T>(le: (T, T) -> bool, s: seq<T>) {
    forall i, j :: 0 <= i < j < |s| ==> le(s[i], s[j])
  }

  /** Distinct elements of s are never equivalent under le. */
  ghost predicate Strict<T>(le: (T, T) -> bool, s: seq<T>) {
    forall x, y :: x in s && y in s && le(x, y) && le(y, x) ==> x == y
  }

  function Insert<T>(le: (T, T) -> bool, s: seq<T>, x: T): seq<T> {
    if s == [] then [x]
    else if le(s[|s| - 1], x) then s + [x]
    else Insert(le, s[..|s| - 1], x) + [s[|s| - 1]]
  }

  function Sort<T>(le: (T, T) -> bool, s: seq<T>): seq<T> {
    if s == [] then [] else Insert(le, Sort(le, s[..|s| - 1]), s[|s| - 1])
  }

  lemma {:induction false} InsertIsSorted<T(!new)>(le: (T, T) -> bool, s: seq<T>, x: T)
    requires TotalPreorder(le) && Sorted(le, s)
    ensures Sorted(le, Insert(le, s, x)) && multiset(Insert(le, s, x)) == multiset(s) + multiset{x}
  {
    if s != [] {
      var init, last := s[..|s| - 1], s[|s| - 1];
      assert s == init + [last];
      if le(last, x) {
        assert forall i :: 0 <= i < |s| ==> le(s[i], last) || s[i] == last;
      } else {
        InsertIsSorted(le, init, x);
        var r := Insert(le, init, x);
        forall i | 0 <= i < |r|
          ensures le(r[i], last)
        {
          assert r[i] in multiset(r);
          assert r[i] in init || r[i] == x;
        }
      }
    }
  }

  /** Sort returns a sorted rearrangement. */
  lemma {:induction false} SortIsSorted<T(!new)>(le: (T, T) -> bool, s: seq<T>)
    requires TotalPreorder(le)
    ensures Sorted(le, Sort(le, s)) && multiset(Sort(le, s)) == multiset(s) && |Sort(le, s)| == |s|
  {
    if s != [] {
      SortIsSorted(le, s[..|s| - 1]);
      InsertIsSorted(le, Sort(le, s[..|s| - 1]), s[|s| - 1]);
      assert s == s[..|s| - 1] + [s[|s| - 1]];
    }
    assert |multiset(Sort(le, s))| == |multiset(s)|;
  }

  lemma LastIsGreatest<T(!new)>(le: (T, T) -> bool, a: seq<T>, x: T)
    requires a != [] && Sorted(le, a) && x in a
    ensures x == a[|a| - 1] || le(x, a[|a| - 1])
  {
  }

  lemma SameGreatest<T(!new)>(le: (T, T) -> bool, a: seq<T>, b: seq<T>)
    requires a != [] && b != [] && Sorted(le, a) && Sorted(le, b)
    requires multiset(a) == multiset(b) && Strict(le, a)
    ensures a[|a| - 1] == b[|b| - 1]
  {
    var x, y := a[|a| - 1], b[|b| - 1];
    assert x in multiset(b) && y in multiset(a);
    LastIsGreatest(le, b, x);
    LastIsGreatest(le, a, y);
  }

  lemma SameSize<T>(a: seq<T>, b: seq<T>)
    requires multiset(a) == multiset(b)
    ensures |a| == |b|
  {
    assert |multiset(a)| == |multiset(b)|;
  }

  lemma WithoutLast<T>(a: seq<T>)
    requires a != []
    ensures multiset(a[..|a| - 1]) == multiset(a) - multiset{a[|a| - 1]} && a == a[..|a| - 1] + [a[|a| - 1]]
  {
    assert a == a[..|a| - 1] + [a[|a| - 1]];
  }

  lemma PrefixOrder<T(!new)>(le: (T, T) -> bool, a: seq<T>)
    requires a != []
    ensures Sorted(le, a) ==> Sorted(le, a[..|a| - 1])
    ensures Strict(le, a) ==> Strict(le, a[..|a| - 1])
  {
    assert forall z :: z in a[..|a| - 1] ==> z in a;
  }

  /** Two sorted rearrangements of the same elements are equal when the order is strict on them. */
  lemma {:induction false} SortedIsUnique<T(!new)>(le: (T, T) -> bool, a: seq<T>, b: seq<T>)
    requires Sorted(le, a) && Sorted(le, b) && multiset(a) == multiset(b) && Strict(le, a)
    ensures a == b
  {
    SameSize(a, b);
    if a != [] {
      SameGreatest(le, a, b);
      WithoutLast(a);
      WithoutLast(b);
      PrefixOrder(le, a);
      PrefixOrder(le, b);
      SortedIsUnique(le, a[..|a| - 1], b[..|b| - 1]);
    }
  }

  /** The result depends only on which elements are present, not on the order they came in. */
  lemma SortIgnoresOrder<T(!new)>(le: (T, T) -> bool, a: seq<T>, b: seq<T>)
    requires TotalPreorder(le) && multiset(a) == multiset(b) && Strict(le, a)
    ensures Sort(le, a) == Sort(le, b)
  {
    SortIsSorted(le, a);
    SortIsSorted(le, b);
    forall x | x in Sort(le, a)
      ensures x in a
    {
      assert x in multiset(Sort(le, a));
    }
    SortedIsUnique(le, Sort(le, a), Sort(le, b));
  }

  lemma {:induction false} InsertLength<T>(le: (T, T) -> bool, s: seq<T>, x: T)
    ensures |Insert(le, s, x)| == |s| + 1
    decreases |s|
  {
    if s != [] {
      InsertLength(le, s[..|s| - 1], x);
    }
  }

  lemma {:induction false} InsertAt<T(!new)>(le: (T, T) -> bool, s: seq<T>, x: T, j: nat)
    requires j <= |s| && (j > 0 ==> le(s[j - 1], x)) && forall k :: j <= k < |s| ==> !le(s[k], x)
    ensures Insert(le, s, x) == s[..j] + [x] + s[j..]
    decreases |s|
  {
    if j < |s| {
      InsertAt(le, s[..|s| - 1], x, j);
      assert s[..|s| - 1][..j] == s[..j] && s[..|s| - 1][j..] + [s[|s| - 1]] == s[j..];
    } else {
      assert s[..j] == s && s[j..] == [];
    }
  }

  /** One neighbouring swap moves x one place to the left of where it stands. */
  lemma SwapStep<T>(s: seq<T>, p: seq<T>, x: T, j: nat, tail: seq<T>)
    requires 0 < j <= |p| && s == p[..j] + [x] + p[j..] + tail
    ensures s[j - 1] == p[j - 1] && s[j] == x
    ensures s[j - 1 := x][j := p[j - 1]] == p[..j - 1] + [x] + p[j - 1..] + tail
  {
  }

  /** The inner loop: element i sinks left past every larger neighbour. */
  method Sink<T(!new)>(le: (T, T) -> bool, a: array<T>, i: nat)
    requires i < a.Length
    modifies a
    ensures a[..] == Insert(le, old(a[..i]), old(a[i])) + old(a[i + 1..])
  {
    ghost var p, x, tail := a[..i], a[i], a[i + 1..];
    var j := i;
    assert a[..] == p[..i] + [x] + p[i..] + tail;
    while j > 0 && !le(a[j - 1], a[j])
      invariant 0 <= j <= i && a[..] == p[..j] + [x] + p[j..] + tail
      invariant forall k :: j <= k < i ==> !le(p[k], x)
    {
      ghost var before := a[..];
      SwapStep(before, p, x, j, tail);
      assert before[j - 1] == a[j - 1] && before[j] == a[j];
      a[j - 1], a[j] := a[j], a[j - 1];
      assert a[..] == before[j - 1 := x][j := p[j - 1]];
      j := j - 1;
    }
    if j > 0 {
      SwapStep(a[..], p, x, j, tail);
      assert a[..][j - 1] == a[j - 1] && a[..][j] == a[j];
    }
    InsertAt(le, p, x, j);
  }

  /** The relay's in-place insertion sort: neighbouring swaps while the left one is larger. */
  method SortInPlace<T(!new)>(le: (T, T) -> bool, a: array<T>)
    modifies a
    ensures a[..] == Sort(le, old(a[..]))
  {
    ghost var was := a[..];
    for i := 0 to a.Length
      invariant |Sort(le, was[..i])| == i && a[..] == Sort(le, was[..i]) + was[i..]
    {
      ghost var sorted := Sort(le, was[..i]);
      assert was[..i + 1][..i] == was[..i] && was[..i + 1][i] == was[i];
      assert a[..i] == a[..][..i] == sorted && a[i] == a[..][i] == was[i] &&
        a[i + 1..] == a[..][i + 1..] == was[i + 1..];
      Sink(le, a, i);
      InsertLength(le, sorted, was[i]);
    }
    assert was[..a.Length] == was;
  }

  function Mapped<S, T>(f: S -> T, s: seq<S>): (r: seq<T>)
    ensures |r| == |s| && forall i :: 0 <= i < |s| ==> r[i] == f(s[i])
  {
    seq(|s|, i requires 0 <= i < |s| => f(s[i]))
  }

  /** f carries the order le over to le'. */
  ghost predicate Carries<S(!new), T>(le: (S, S) -> bool, le': (T, T) -> bool, f: S -> T) {
    forall x, y :: le(x, y) == le'(f(x), f(y))
  }

  /** Sorting records and then projecting them is sorting the projections. */
  lemma {:induction false} SortMapped<S(!new), T>(le: (S, S) -> bool, le': (T, T) -> bool, f: S -> T, s: seq<S>)
    requires Carries(le, le', f)
    ensures Mapped(f, Sort(le, s)) == Sort(le', Mapped(f, s))
  {
    if s != [] {
      var init, last := s[..|s| - 1], s[|s| - 1];
      SortMapped(le, le', f, init);
      assert Mapped(f, s)[..|s| - 1] == Mapped(f, init);
      InsertMapped(le, le', f, Sort(le, init), last);
    }
  }

  lemma {:induction false} InsertMapped<S(!new), T>(le: (S, S) -> bool, le': (T, T) -> bool, f: S -> T, s: seq<S>, x: S)
    requires Carries(le, le', f)
    ensures Mapped(f, Insert(le, s, x)) == Insert(le', Mapped(f, s), f(x))
  {
    if s != [] {
      var init, last := s[..|s| - 1], s[|s| - 1];
      assert Mapped(f, s)[..|s| - 1] == Mapped(f, init);
      InsertMapped(le, le', f, init, x);
    }
  }
}
