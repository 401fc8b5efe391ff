/** Canonical collections: self-delimiting lists, and string maps sorted by key. */
module Canonical {
  import opened Bytes
  import opened Concatenation
  import opened Sequences
  import opened Sorting

  // ----- lists of self-delimiting elements -----

  /** varint(count) and then the elements. */
  function EncodeArray<T>(enc: T -> bytes, s: seq<T>): bytes {
    Varint(|s|) + Each(enc, s)
  }

  lemma {:induction false} EachDelimits<T(!new), V>(
    enc: T -> bytes, valid: T -> bool, view: T -> V, a: seq<T>, b: seq<T>, r: bytes, s: bytes)
    requires Delimits(enc, valid, view) && |a| == |b|
    requires (forall x :: x in a ==> valid(x)) && (forall x :: x in b ==> valid(x))
    requires Each(enc, a) + r == Each(enc, b) + s
    ensures Mapped(view, a) == Mapped(view, b) && r == s
  {
    if a == [] {
      assert Each(enc, a) + r == r && Each(enc, b) + s == s;
    } else {
      assert Each(enc, a) + r == enc(a[0]) + (Each(enc, a[1..]) + r);
      assert Each(enc, b) + s == enc(b[0]) + (Each(enc, b[1..]) + s);
      EachDelimits(enc, valid, view, a[1..], b[1..], r, s);
      assert Mapped(view, a) == [view(a[0])] + Mapped(view, a[1..]);
      assert Mapped(view, b) == [view(b[0])] + Mapped(view, b[1..]);
    }
  }

  lemma ArrayDelimits<T(!new), V>(
    enc: T -> bytes, valid: T -> bool, view: T -> V, a: seq<T>, b: seq<T>, r: bytes, s: bytes)
    requires Delimits(enc, valid, view) && |a| < U64 && |b| < U64
    requires (forall x :: x in a ==> valid(x)) && (forall x :: x in b ==> valid(x))
    requires EncodeArray(enc, a) + r == EncodeArray(enc, b) + s
    ensures Mapped(view, a) == Mapped(view, b) && r == s
  {
    assert EncodeArray(enc, a) + r == Varint(|a|) + (Each(enc, a) + r);
    assert EncodeArray(enc, b) + s == Varint(|b|) + (Each(enc, b) + s);
    ReadVarintOfVarint(|a|, Each(enc, a) + r);
    ReadVarintOfVarint(|b|, Each(enc, b) + s);
    EachDelimits(enc, valid, view, a, b, r, s);
  }

  lemma {:induction false} EachByView<T(!new), V>(enc: T -> bytes, view: T -> V, a: seq<T>, b: seq<T>)
    requires forall x, y {:trigger enc(x), enc(y)} :: view(x) == view(y) ==> enc(x) == enc(y)
    requires Mapped(view, a) == Mapped(view, b)
    ensures Each(enc, a) == Each(enc, b) && |a| == |b|
  {
    assert |a| == |Mapped(view, a)| && |b| == |Mapped(view, b)|;
    if a != [] {
      assert view(a[0]) == Mapped(view, a)[0] && view(b[0]) == Mapped(view, b)[0];
      assert Mapped(view, a[1..]) == Mapped(view, a)[1..] && Mapped(view, b[1..]) == Mapped(view, b)[1..];
      EachByView(enc, view, a[1..], b[1..]);
    }
  }

  // ----- JavaScript's default string order -----

  /**
   * Where a UTF-8 byte stands in UTF-16 order: lead bytes 0xEE and 0xEF (U+E000 to U+FFFF) come after
   * every lead byte of the supplementary planes, whose UTF-16 form starts with a surrogate.
   */
  function UnitRank(b: byte): nat {
    if b == 0xEE || b == 0xEF then b + 0x100 else b
  }

  /** Array.prototype.sort compares strings by UTF-16 code unit; here on their UTF-8 bytes. */
  function StringLE(a: bytes, b: bytes): bool {
    if a == [] then true
    else if b == [] then false
    else UnitRank(a[0]) < UnitRank(b[0]) || (a[0] == b[0] && StringLE(a[1..], b[1..]))
  }

  /** The order the comments beside both sorts name: by byte. */
  function ByteLE(a: bytes, b: bytes): bool {
    if a == [] then true
    else if b == [] then false
    else a[0] < b[0] || (a[0] == b[0] && ByteLE(a[1..], b[1..]))
  }

  /** The first differing characters are one in U+E000..U+FFFF and one beyond U+FFFF. */
  predicate SplitAtSurrogates(a: bytes, b: bytes) {
    a != [] && b != [] &&
    if a[0] == b[0] then SplitAtSurrogates(a[1..], b[1..])
    else (a[0] in {0xEE, 0xEF} && b[0] >= 0xF0) || (b[0] in {0xEE, 0xEF} && a[0] >= 0xF0)
  }

  /** The sort follows byte order except on exactly those pairs. */
  lemma {:induction false} SortIsAlmostByteOrder(a: bytes, b: bytes)
    ensures StringLE(a, b) == ByteLE(a, b) <==> !SplitAtSurrogates(a, b)
  {
    if a != [] && b != [] && a[0] == b[0] {
      SortIsAlmostByteOrder(a[1..], b[1..]);
    }
  }

  /** U+FF41 against the playing card U+1F0A1. */
  lemma SortIsNotByteOrder()
    ensures var a, b := [0xEF, 0xBD, 0x81], [0xF0, 0x9F, 0x82, 0xA1];
            ByteLE(a, b) && !StringLE(a, b)
  {
    SortIsAlmostByteOrder([0xEF, 0xBD, 0x81], [0xF0, 0x9F, 0x82, 0xA1]);
  }

  lemma {:induction false} LexTotal(a: bytes, b: bytes)
    ensures StringLE(a, b) || StringLE(b, a)
    ensures StringLE(a, b) && StringLE(b, a) ==> a == b
  {
    if a != [] && b != [] {
      LexTotal(a[1..], b[1..]);
      assert a == [a[0]] + a[1..] && b == [b[0]] + b[1..];
    }
  }

  lemma {:induction false} LexTransitive(a: bytes, b: bytes, c: bytes)
    requires StringLE(a, b) && StringLE(b, c)
    ensures StringLE(a, c)
  {
    if a != [] && a[0] == b[0] && b[0] == c[0] {
      LexTransitive(a[1..], b[1..], c[1..]);
    }
  }

  lemma LexOrders()
    ensures TotalPreorder(StringLE)
  {
    forall a, b
      ensures StringLE(a, b) || StringLE(b, a)
    {
      LexTotal(a, b);
    }
    forall a, b, c | StringLE(a, b) && StringLE(b, c)
      ensures StringLE(a, c)
    {
      LexTransitive(a, b, c);
    }
  }

  lemma LexStrict(s: seq<bytes>)
    ensures Strict(StringLE, s)
  {
    forall a, b | a in s && b in s && StringLE(a, b) && StringLE(b, a)
      ensures a == b
    {
      LexTotal(a, b);
    }
  }

  // ----- maps -----

  /** keys lists the keys of m in some insertion order, each once. */
  ghost predicate Enumerates(keys: seq<bytes>, m: map<bytes, bytes>) {
    Distinct(keys) && forall k :: k in keys <==> k in m
  }

  ghost function AnyOrder(keys: set<bytes>): (s: seq<bytes>)
    ensures Distinct(s) && forall k :: k in s <==> k in keys
  {
    if keys == {} then []
    else
      var k :| k in keys;
      [k] + AnyOrder(keys - {k})
  }

  /** The keys in canonical order. */
  ghost function SortedKeys(m: map<bytes, bytes>): seq<bytes> {
    Sort(StringLE, AnyOrder(m.Keys))
  }

  /** Sorting any enumeration of the keys gives the canonical order, whatever the insertion order was. */
  lemma SortedKeysUnique(keys: seq<bytes>, m: map<bytes, bytes>)
    requires Enumerates(keys, m)
    ensures Sort(StringLE, keys) == SortedKeys(m)
  {
    LexOrders();
    LexStrict(keys);
    SameElements(keys, AnyOrder(m.Keys));
    SortIgnoresOrder(StringLE, keys, AnyOrder(m.Keys));
  }

  lemma SortedKeysFacts(m: map<bytes, bytes>)
    ensures Enumerates(SortedKeys(m), m) && |SortedKeys(m)| == |m|
  {
    LexOrders();
    var any, keys := AnyOrder(m.Keys), SortedKeys(m);
    SortIsSorted(StringLE, any);
    forall k
      ensures k in keys <==> k in m
    {
      assert k in keys <==> k in multiset(keys);
      assert k in any <==> k in multiset(any);
    }
    DistinctMultiset(any);
    forall i, j | 0 <= i < j < |keys|
      ensures keys[i] != keys[j]
    {
      OnceOnly(keys, i, j);
    }
    SizeOfEnumeration(keys, m.Keys);
    assert |m| == |m.Keys|;
  }

  lemma {:induction false} SizeOfEnumeration(s: seq<bytes>, keys: set<bytes>)
    requires Distinct(s) && forall k :: k in s <==> k in keys
    ensures |s| == |keys|
  {
    if s == [] {
      assert keys == {};
    } else {
      assert s[0] in keys;
      assert s == [s[0]] + s[1..];
      SizeOfEnumeration(s[1..], keys - {s[0]});
    }
  }

  type Pair = (bytes, bytes)

  function PairsOf(keys: seq<bytes>, m: map<bytes, bytes>): (p: seq<Pair>)
    requires forall k :: k in keys ==> k in m
    ensures |p| == |keys| && forall i :: 0 <= i < |p| ==> p[i] == (keys[i], m[keys[i]])
  {
    seq(|keys|, i requires 0 <= i < |keys| => (keys[i], m[keys[i]]))
  }

  /** The map as a list of pairs in canonical key order. */
  ghost function SortedPairs(m: map<bytes, bytes>): seq<Pair> {
    SortedKeysFacts(m);
    PairsOf(SortedKeys(m), m)
  }

  /** The canonical list determines the map. */
  lemma SortedPairsInjective(m: map<bytes, bytes>, n: map<bytes, bytes>)
    requires SortedPairs(m) == SortedPairs(n)
    ensures m == n
  {
    SortedKeysFacts(m);
    SortedKeysFacts(n);
    PairsCover(m, n);
    PairsCover(n, m);
  }

  lemma PairsCover(m: map<bytes, bytes>, n: map<bytes, bytes>)
    requires SortedPairs(m) == SortedPairs(n)
    ensures forall k :: k in m ==> k in n && n[k] == m[k]
  {
    SortedKeysFacts(m);
    SortedKeysFacts(n);
    forall k | k in m
      ensures k in n && n[k] == m[k]
    {
      assert k in SortedKeys(m);
      var i :| 0 <= i < |SortedKeys(m)| && SortedKeys(m)[i] == k;
      assert SortedPairs(m)[i] == (k, m[k]);
      assert SortedPairs(n)[i] == (SortedKeys(n)[i], n[SortedKeys(n)[i]]);
      assert SortedKeys(n)[i] in SortedKeys(n);
    }
  }

  // ----- strings and pairs -----

  predicate Short(s: bytes) { |s| < U64 }

  predicate ShortPair(p: Pair) { Short(p.0) && Short(p.1) }

  function EncodePair(p: Pair): bytes {
    Prefixed(p.0) + Prefixed(p.1)
  }

  /** A length-prefixed string in front of two equal continuations. */
  lemma StringField(s: bytes, r: bytes, t: bytes, q: bytes)
    requires Short(s) && Short(t) && Prefixed(s) + r == Prefixed(t) + q
    ensures s == t && r == q
  {
    assert Prefixed(s) + r == Varint(|s|) + (s + r) && Prefixed(t) + q == Varint(|t|) + (t + q);
    ReadVarintOfVarint(|s|, s + r);
    ReadVarintOfVarint(|t|, t + q);
    SplitSameLength(s, r, t, q);
  }

  lemma StringsDelimit()
    ensures Delimits(Prefixed, Short, (s: bytes) => s)
  {
    forall x: bytes, y: bytes, r: bytes, s: bytes | Short(x) && Short(y) && Prefixed(x) + r == Prefixed(y) + s
      ensures x == y && r == s
    {
      StringField(x, r, y, s);
    }
  }

  lemma PairsDelimit()
    ensures Delimits(EncodePair, ShortPair, (p: Pair) => p)
  {
    forall x: Pair, y: Pair, r: bytes, s: bytes
      | ShortPair(x) && ShortPair(y) && EncodePair(x) + r == EncodePair(y) + s
      ensures x == y && r == s
    {
      assert EncodePair(x) + r == Prefixed(x.0) + (Prefixed(x.1) + r);
      assert EncodePair(y) + s == Prefixed(y.0) + (Prefixed(y.1) + s);
      StringField(x.0, Prefixed(x.1) + r, y.0, Prefixed(y.1) + s);
      StringField(x.1, r, y.1, s);
    }
  }
}
