/**
 * Byte strings and the little-endian, varint and length-prefix primitives that
 * every encoder of the repository repeats.
 */
module Bytes {
  import opened Wrappers

  type byte = x: int | 0 <= x < 256

  type bytes = seq<byte>

  function Zeros(n: nat): (b: bytes)
    ensures |b| == n
  {
    seq(n, _ => 0)
  }

  /** ASCII text as bytes. */
  function Ascii(s: string): (b: bytes)
    ensures |b| == |s|
  {
    seq(|s|, i requires 0 <= i < |s| => s[i] as int % 256)
  }

  /** A 32-byte SHA-256 digest. */
  type Digest = b: bytes | |b| == 32 witness Zeros(32)

  /** SHA-256 is a parameter of the model: any function into 32-byte strings. */
  type Hash = bytes -> Digest

  /** The last 32 bytes of a key, its 33-byte form without the parity byte. */
  function Tail32(key: bytes): bytes
    requires |key| >= 32
  {
    key[|key| - 32..]
  }

  /** No two of the named inputs collide. Every use names a finite set of inputs. */
  ghost predicate CollisionFreeOn(h: Hash, inputs: set<bytes>) {
    forall x, y :: x in inputs && y in inputs && h(x) == h(y) ==> x == y
  }

  const MAX_SAFE: nat := 0x1F_FFFF_FFFF_FFFF
  const U16: nat := 0x1_0000
  const U32: nat := 0x1_0000_0000
  const U64: nat := 0x1_0000_0000_0000_0000

  /** k little-endian bytes of n; higher bytes of n are dropped, as DataView setters do. */
  function LE(n: nat, k: nat): (b: bytes)
    ensures |b| == k
  {
    if k == 0 then [] else [n % 256] + LE(n / 256, k - 1)
  }

  function FromLE(b: bytes): nat {
    if b == [] then 0 else b[0] + 256 * FromLE(b[1..])
  }

  function Pow256(k: nat): (p: nat)
    ensures p > 0
  {
    if k == 0 then 1 else 256 * Pow256(k - 1)
  }

  lemma Widths()
    ensures Pow256(1) == 256 && Pow256(2) == U16 && Pow256(4) == U32 && Pow256(8) == U64
  {
    assert Pow256(2) == 256 * Pow256(1);
    assert Pow256(3) == 256 * Pow256(2);
    assert Pow256(4) == 256 * Pow256(3);
    assert Pow256(5) == 256 * Pow256(4);
    assert Pow256(6) == 256 * Pow256(5);
    assert Pow256(7) == 256 * Pow256(6);
  }

  /** Reading back k little-endian bytes gives the number, if it fits in k bytes. */
  lemma {:induction false} FromLEOfLE(n: nat, k: nat)
    requires n < Pow256(k)
    ensures FromLE(LE(n, k)) == n
  {
    if k > 0 {
      FromLEOfLE(n / 256, k - 1);
      assert LE(n, k)[1..] == LE(n / 256, k - 1);
    }
  }

  /** Every k-byte string is the encoding of exactly the number read from it. */
  lemma {:induction false} LEOfFromLE(b: bytes)
    ensures FromLE(b) < Pow256(|b|) && LE(FromLE(b), |b|) == b
  {
    if b != [] {
      LEOfFromLE(b[1..]);
      assert FromLE(b) / 256 == FromLE(b[1..]) && FromLE(b) % 256 == b[0];
      assert b == [b[0]] + b[1..];
    }
  }

  /** Two and four bytes by shifting and masking, as the writers produce them. */
  lemma TwoBytes(n: nat)
    ensures LE(n, 2) == [n % 256, n / 0x100 % 256]
  {
    assert LE(n, 2) == [n % 256] + LE(n / 256, 1);
  }

  lemma FourBytes(n: nat)
    ensures LE(n, 4) == [n % 256, n / 0x100 % 256, n / 0x1_0000 % 256, n / 0x100_0000 % 256]
  {
    Unrolled(n);
    Shifts(n);
  }

  lemma Unrolled(n: nat)
    ensures LE(n, 4) == [n % 256, n / 256 % 256, n / 256 / 256 % 256, n / 256 / 256 / 256 % 256]
  {
    assert LE(n / 256 / 256, 2) == [n / 256 / 256 % 256] + LE(n / 256 / 256 / 256, 1);
    assert LE(n / 256, 3) == [n / 256 % 256] + LE(n / 256 / 256, 2);
  }

  lemma Shifts(n: nat)
    ensures n / 256 / 256 == n / 0x1_0000 && n / 256 / 256 / 256 == n / 0x100_0000
  {
  }

  lemma SplitSameLength(a: bytes, x: bytes, b: bytes, y: bytes)
    requires a + x == b + y && |a| == |b|
    ensures a == b && x == y
  {
    assert a == (a + x)[..|a|] && b == (b + y)[..|b|];
    assert x == (a + x)[|a|..] && y == (b + y)[|b|..];
  }

  lemma LEInjective(m: nat, n: nat, k: nat)
    requires m < Pow256(k) && n < Pow256(k) && LE(m, k) == LE(n, k)
    ensures m == n
  {
    FromLEOfLE(m, k);
    FromLEOfLE(n, k);
  }

  /** Bitcoin's variable-length integer: 1, 3, 5 or 9 bytes. */
  function Varint(n: nat): (b: bytes)
    ensures 1 <= |b| <= 9
  {
    if n < 0xfd then [n]
    else if n < U16 then [0xfd] + LE(n, 2)
    else if n < U32 then [0xfe] + LE(n, 4)
    else [0xff] + LE(n, 8)
  }

  /** What a sequential reader gives back: a value and the unread bytes. */
  datatype Parsed<+T> = Fail | Got(value: T, rest: bytes) {
    predicate IsFailure() { Fail? }

    function PropagateFailure<U>(): Parsed<U>
      requires IsFailure()
    {
      Fail
    }

    function Extract(): (T, bytes)
      requires !IsFailure()
    {
      (value, rest)
    }
  }

  /** A read returned what the parser gives on the unread bytes, and left what the parser leaves. */
  ghost predicate After<T>(p: Parsed<T>, r: Option<T>, unread: bytes) {
    if p.Fail? then r.None? else r == Some(p.value) && unread == p.rest
  }

  function ReadLE(b: bytes, k: nat): Parsed<nat> {
    if |b| < k then Fail else Got(FromLE(b[..k]), b[k..])
  }

  function ReadBytes(b: bytes, n: nat): Parsed<bytes> {
    if |b| < n then Fail else Got(b[..n], b[n..])
  }

  function ReadVarint(b: bytes): Parsed<nat> {
    if b == [] then Fail
    else if b[0] < 0xfd then Got(b[0], b[1..])
    else if b[0] == 0xfd then ReadLE(b[1..], 2)
    else if b[0] == 0xfe then ReadLE(b[1..], 4)
    else ReadLE(b[1..], 8)
  }

  /** The varint at the head of b uses no more bytes than its value needs. */
  predicate MinimalVarint(b: bytes)
    requires ReadVarint(b).Got?
  {
    var v := ReadVarint(b).value;
    (b[0] == 0xfd ==> 0xfd <= v) && (b[0] == 0xfe ==> U16 <= v) && (b[0] == 0xff ==> U32 <= v)
  }

  lemma ReadLEOfLE(n: nat, k: nat, rest: bytes)
    requires n < Pow256(k)
    ensures ReadLE(LE(n, k) + rest, k) == Got(n, rest)
  {
    FromLEOfLE(n, k);
    assert (LE(n, k) + rest)[..k] == LE(n, k) && (LE(n, k) + rest)[k..] == rest;
  }

  lemma ReadBytesOf(s: bytes, rest: bytes)
    ensures ReadBytes(s + rest, |s|) == Got(s, rest)
  {
    assert (s + rest)[..|s|] == s && (s + rest)[|s|..] == rest;
  }

  /** The bytes a fixed-width read consumed are the encoding of what it returned. */
  lemma LEOfReadLE(b: bytes, k: nat)
    requires |b| >= k
    ensures FromLE(b[..k]) < Pow256(k) && LE(FromLE(b[..k]), k) + b[k..] == b
  {
    LEOfFromLE(b[..k]);
  }

  lemma ReadVarintOfVarint(n: nat, rest: bytes)
    requires n < U64
    ensures ReadVarint(Varint(n) + rest) == Got(n, rest) && MinimalVarint(Varint(n) + rest)
  {
    Widths();
    var k := if n < 0xfd then 0 else if n < U16 then 2 else if n < U32 then 4 else 8;
    if k != 0 {
      ReadLEOfLE(n, k, rest);
      assert (Varint(n) + rest)[1..] == LE(n, k) + rest;
    }
  }

  /** Re-encoding a varint never lengthens it, and restores the bytes exactly when it was minimal. */
  lemma VarintOfReadVarint(b: bytes)
    requires ReadVarint(b).Got?
    ensures var Got(v, rest) := ReadVarint(b);
            v < U64 && |Varint(v)| + |rest| <= |b| && |rest| < |b| &&
            (Varint(v) + rest == b <==> MinimalVarint(b)) &&
            (|Varint(v)| + |rest| == |b| <==> MinimalVarint(b))
  {
    Widths();
    var Got(v, rest) := ReadVarint(b);
    if b[0] >= 0xfd {
      var k := if b[0] == 0xfd then 2 else if b[0] == 0xfe then 4 else 8;
      LEOfReadLE(b[1..], k);
      assert b == [b[0]] + (LE(v, k) + rest);
      if MinimalVarint(b) {
        assert Varint(v) == [b[0]] + LE(v, k);
      }
    } else {
      assert b == [b[0]] + b[1..];
    }
  }

  /** varint(length) followed by the bytes themselves. */
  function Prefixed(s: bytes): bytes {
    Varint(|s|) + s
  }
}
