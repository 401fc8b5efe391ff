/** Concatenation of parts, as every package's concat does it, and when parts can be told apart again. */
module Concatenation {
  import opened Bytes

  function Flat(parts: seq<bytes>): bytes {
    if parts == [] then [] else parts[0] + Flat(parts[1..])
  }

  lemma Assoc(a: bytes, b: bytes, c: bytes)
    ensures a + b + c == a + (b + c)
  {
  }

  function Total(parts: seq<bytes>): nat {
    if parts == [] then 0 else |parts[0]| + Total(parts[1..])
  }

  lemma {:induction false} FlatConcat(a: seq<bytes>, b: seq<bytes>)
    ensures Flat(a + b) == Flat(a) + Flat(b) && Total(a + b) == Total(a) + Total(b) && |Flat(a)| == Total(a)
  {
    if a == [] {
      assert a + b == b;
    } else {
      assert (a + b)[1..] == a[1..] + b;
      FlatConcat(a[1..], b);
    }
  }

  /** One more part: where it starts, and that it fits. */
  lemma NextPart(parts: seq<bytes>, i: nat)
    requires i < |parts|
    ensures Flat(parts[..i + 1]) == Flat(parts[..i]) + parts[i] && |Flat(parts[..i])| == Total(parts[..i])
    ensures Total(parts[..i + 1]) == Total(parts[..i]) + |parts[i]| <= Total(parts)
  {
    assert parts[..i + 1] == parts[..i] + [parts[i]];
    FlatOne(parts[i]);
    FlatConcat(parts[..i], [parts[i]]);
    assert parts == parts[..i + 1] + parts[i + 1..];
    FlatConcat(parts[..i + 1], parts[i + 1..]);
    TotalOne(parts[i]);
  }

  lemma TotalOne(p: bytes)
    ensures Total([p]) == |p|
  {
    var one := [p];
    assert one[1..] == [];
  }

  /** Copy p into a at off. */
  method CopyAt(a: array<byte>, off: nat, p: bytes)
    requires off + |p| <= a.Length
    modifies a
    ensures a[..off + |p|] == old(a[..off]) + p
  {
    forall k | 0 <= k < |p| {
      a[off + k] := p[k];
    }
  }

  /** Size the array, then copy each part at its offset. */
  method ConcatParts(parts: seq<bytes>) returns (out: bytes)
    ensures out == Flat(parts)
  {
    var total := 0;
    for i := 0 to |parts|
      invariant total == Total(parts[..i])
    {
      NextPart(parts, i);
      total := total + |parts[i]|;
    }
    assert parts[..|parts|] == parts;
    var a := new byte[total];
    var off := 0;
    for i := 0 to |parts|
      invariant off == Total(parts[..i]) <= total && a[..off] == Flat(parts[..i])
    {
      NextPart(parts, i);
      CopyAt(a, off, parts[i]);
      off := off + |parts[i]|;
    }
    assert a[..] == a[..off];
    return a[..];
  }

  lemma {:induction false} FlatMany<T>(enc: T -> bytes, s: seq<T>, parts: seq<bytes>)
    requires |parts| == |s| && forall i :: 0 <= i < |s| ==> parts[i] == enc(s[i])
    ensures Flat(parts) == Each(enc, s)
  {
    if s != [] {
      FlatMany(enc, s[1..], parts[1..]);
    }
  }

  lemma FlatOne(p: bytes)
    ensures Flat([p]) == p
  {
    var one := [p];
    assert one[1..] == [] && Flat(one[1..]) == [];
  }

  lemma FlatPair(p: bytes, q: bytes)
    ensures Flat([p, q]) == p + q
  {
    assert [p, q][1..] == [q];
    FlatOne(q);
  }

  function Each<T>(enc: T -> bytes, s: seq<T>): bytes {
    if s == [] then [] else enc(s[0]) + Each(enc, s[1..])
  }

  lemma EachNext<T>(enc: T -> bytes, s: seq<T>, i: nat)
    requires i < |s|
    ensures Each(enc, s[..i + 1]) == Each(enc, s[..i]) + enc(s[i])
  {
    EachSnoc(enc, s, i, []);
    assert [] + Each(enc, s[..i]) == Each(enc, s[..i]) && [] + Each(enc, s[..i + 1]) == Each(enc, s[..i + 1]);
  }

  lemma {:induction false} EachSnoc<T>(enc: T -> bytes, s: seq<T>, i: nat, start: bytes)
    requires i < |s|
    ensures start + Each(enc, s[..i]) + enc(s[i]) == start + Each(enc, s[..i + 1])
  {
    if i == 0 {
      assert s[..1] == [s[0]] && s[..1][1..] == [];
    } else {
      EachSnoc(enc, s[1..], i - 1, start + enc(s[0]));
      assert s[..i + 1][1..] == s[1..][..i] && s[..i][1..] == s[1..][..i - 1];
      var e, f := Each(enc, s[1..][..i - 1]), Each(enc, s[1..][..i]);
      assert start + enc(s[0]) + e == start + (enc(s[0]) + e) && start + enc(s[0]) + f == start + (enc(s[0]) + f);
    }
  }

  /**
   * Encodings of valid elements end where they say: equal continuations have equal views and equal
   * remainders. The view is what the encoding keeps of the element.
   */
  ghost predicate Delimits<T(!new), V>(enc: T -> bytes, valid: T -> bool, view: T -> V) {
    forall x, y, r, s {:trigger enc(x) + r, enc(y) + s} ::
      valid(x) && valid(y) && enc(x) + r == enc(y) + s ==> view(x) == view(y) && r == s
  }

  /** a and b cannot be told apart only by what follows them. */
  ghost predicate Splits(a: bytes, b: bytes) {
    forall u, v {:trigger a + u, b + v} :: a + u == b + v ==> a == b
  }

  ghost predicate AllSplit(p: seq<bytes>, q: seq<bytes>) {
    |p| == |q| && forall i :: 0 <= i < |p| ==> Splits(p[i], q[i])
  }

  /** If each pair of parts splits, equal concatenations have equal parts and equal remainders. */
  lemma {:induction false} FlatSplits(p: seq<bytes>, q: seq<bytes>, r: bytes, s: bytes)
    requires AllSplit(p, q) && Flat(p) + r == Flat(q) + s
    ensures p == q && r == s
  {
    if p == [] {
      assert Flat(p) + r == r && Flat(q) + s == s;
    } else {
      var u, v := Flat(p[1..]) + r, Flat(q[1..]) + s;
      assert Flat(p) + r == p[0] + u && Flat(q) + s == q[0] + v;
      assert Splits(p[0], q[0]);
      SplitSameLength(p[0], u, q[0], v);
      FlatSplits(p[1..], q[1..], r, s);
      assert p == [p[0]] + p[1..] && q == [q[0]] + q[1..];
    }
  }
}
