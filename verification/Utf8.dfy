/** Strings and their bytes: the strict decoder, and the order JavaScript sorts strings in. */
module Utf8 {
  import opened Wrappers
  import opened Bytes
  import opened Canonical

  type Scalars = seq<nat>

  predicate IsScalar(c: nat) { c < 0xD800 || 0xE000 <= c < 0x11_0000 }

  ghost predicate AllScalars(s: Scalars) {
    forall c :: c in s ==> IsScalar(c)
  }

  // ----- UTF-8, as in section 3.9 of the Unicode Standard -----

  /** The low six bits. */
  function Trailing(c: nat): byte { 0x80 + c % 0x40 }

  function EncodeScalar(c: nat): (b: bytes)
    requires IsScalar(c)
    ensures 1 <= |b| <= 4
  {
    if c < 0x80 then [c]
    else if c < 0x800 then [0xC0 + c / 0x40, Trailing(c)]
    else if c < 0x1_0000 then [0xE0 + c / 0x40 / 0x40, Trailing(c / 0x40), Trailing(c)]
    else [0xF0 + c / 0x40 / 0x40 / 0x40, Trailing(c / 0x40 / 0x40), Trailing(c / 0x40), Trailing(c)]
  }

  function EncodeUtf8(s: Scalars): bytes
    requires AllScalars(s)
  {
    if s == [] then [] else EncodeScalar(s[0]) + EncodeUtf8(s[1..])
  }

  predicate Trails(b: byte) { 0x80 <= b < 0xC0 }

  /** The second byte of a longer form: no overlong form, no surrogate, nothing beyond U+10FFFF. */
  predicate Follows(lead: byte, b: byte) {
    (if lead == 0xE0 then 0xA0 else if lead == 0xF0 then 0x90 else 0x80) <= b <
    (if lead == 0xED then 0xA0 else if lead == 0xF4 then 0x90 else 0xC0)
  }

  /** How many bytes the character in front takes; 0 where a fatal decoder throws. */
  function FrontLength(b: bytes): (n: nat)
    ensures n <= |b|
  {
    if b == [] then 0
    else if b[0] < 0x80 then 1
    else if 0xC2 <= b[0] < 0xE0 then if |b| >= 2 && Trails(b[1]) then 2 else 0
    else if 0xE0 <= b[0] < 0xF0 then if |b| >= 3 && Follows(b[0], b[1]) && Trails(b[2]) then 3 else 0
    else if 0xF0 <= b[0] < 0xF5 then
      if |b| >= 4 && Follows(b[0], b[1]) && Trails(b[2]) && Trails(b[3]) then 4 else 0
    else 0
  }

  /** Six more bits from a trailing byte. */
  function Extended(high: nat, b: byte): nat
    requires Trails(b)
  {
    high * 0x40 + (b as int - 0x80)
  }

  lemma SixBits(c: nat)
    ensures Trails(Trailing(c)) && Extended(c / 0x40, Trailing(c)) == c
  {
  }

  lemma SplitBits(high: nat, b: byte)
    requires Trails(b)
    ensures Extended(high, b) / 0x40 == high && Trailing(Extended(high, b)) == b
  {
  }

  function FrontScalar(b: bytes): nat
    requires FrontLength(b) > 0
  {
    match FrontLength(b)
    case 1 => b[0]
    case 2 => Extended(b[0] - 0xC0, b[1])
    case 3 => Extended(Extended(b[0] - 0xE0, b[1]), b[2])
    case _ => Extended(Extended(Extended(b[0] - 0xF0, b[1]), b[2]), b[3])
  }

  /** The decoder with its fatal flag: None is the exception. */
  function DecodeUtf8(b: bytes): Option<Scalars> {
    if b == [] then Some([])
    else if FrontLength(b) == 0 then None
    else
      var more := DecodeUtf8(b[FrontLength(b)..]);
      if more.None? then None else Some([FrontScalar(b)] + more.value)
  }

  predicate ValidUtf8(b: bytes) { DecodeUtf8(b).Some? }

  lemma FrontOfScalar(c: nat, rest: bytes)
    requires IsScalar(c)
    ensures FrontLength(EncodeScalar(c) + rest) == |EncodeScalar(c)|
    ensures FrontScalar(EncodeScalar(c) + rest) == c
  {
    var e := EncodeScalar(c);
    var b := e + rest;
    SixBits(c);
    SixBits(c / 0x40);
    SixBits(c / 0x40 / 0x40);
    assert forall i :: 0 <= i < |e| ==> b[i] == e[i];
  }

  lemma ScalarOfFront(b: bytes)
    requires FrontLength(b) > 0
    ensures IsScalar(FrontScalar(b)) && EncodeScalar(FrontScalar(b)) == b[..FrontLength(b)]
  {
    var n := FrontLength(b);
    if n > 1 {
      var two := Extended(b[0] as int - (if n == 2 then 0xC0 else if n == 3 then 0xE0 else 0xF0), b[1]);
      SplitBits(b[0] as int - (if n == 2 then 0xC0 else if n == 3 then 0xE0 else 0xF0), b[1]);
      if n > 2 {
        SplitBits(two, b[2]);
      }
      if n > 3 {
        SplitBits(Extended(two, b[2]), b[3]);
      }
    }
  }

  lemma {:induction false} EncodedIsDecoded(s: Scalars)
    requires AllScalars(s)
    ensures DecodeUtf8(EncodeUtf8(s)) == Some(s)
  {
    if s != [] {
      var front, rest := EncodeScalar(s[0]), EncodeUtf8(s[1..]);
      FrontOfScalar(s[0], rest);
      EncodedIsDecoded(s[1..]);
      assert (front + rest)[|front|..] == rest && s == [s[0]] + s[1..];
    }
  }

  lemma TakeFront(b: bytes) returns (c: nat, front: bytes, rest: bytes)
    requires ValidUtf8(b) && b != []
    ensures b == front + rest && front != [] && ValidUtf8(rest)
    ensures IsScalar(c) && EncodeScalar(c) == front && DecodeUtf8(b).value == [c] + DecodeUtf8(rest).value
  {
    var n := FrontLength(b);
    ScalarOfFront(b);
    c, front, rest := FrontScalar(b), b[..n], b[n..];
  }

  lemma {:induction false} DecodedIsEncoded(b: bytes)
    requires ValidUtf8(b)
    ensures AllScalars(DecodeUtf8(b).value) && EncodeUtf8(DecodeUtf8(b).value) == b
    decreases |b|
  {
    if b != [] {
      var c, front, rest := TakeFront(b);
      DecodedIsEncoded(rest);
      PutInFront(c, DecodeUtf8(rest).value);
    }
  }

  lemma PutInFront(c: nat, s: Scalars)
    requires IsScalar(c) && AllScalars(s)
    ensures AllScalars([c] + s) && EncodeUtf8([c] + s) == EncodeScalar(c) + EncodeUtf8(s)
  {
    assert ([c] + s)[1..] == s;
  }

  /** The decoder accepts exactly the encodings of strings, and finds the one string behind the bytes. */
  lemma DecodesExactlyTheEncodings(b: bytes, s: Scalars)
    ensures DecodeUtf8(b) == Some(s) <==> AllScalars(s) && EncodeUtf8(s) == b
  {
    if DecodeUtf8(b) == Some(s) {
      DecodedIsEncoded(b);
    } else if AllScalars(s) {
      EncodedIsDecoded(s);
    }
  }

  /** Table 3-6 of the Unicode Standard: the bits of a scalar in one to four bytes, and what is no scalar. */
  lemma ScalarBytes(c: nat)
    ensures IsScalar(c) <==> c <= 0x10_FFFF && !(0xD800 <= c <= 0xDFFF)
    ensures c <= 0x7F ==> EncodeScalar(c) == [c]
    ensures 0x80 <= c <= 0x7FF ==> EncodeScalar(c) == [0xC0 + c / 0x40, 0x80 + c % 0x40]
    ensures IsScalar(c) && 0x800 <= c <= 0xFFFF ==>
              EncodeScalar(c) == [0xE0 + c / 0x1000, 0x80 + c / 0x40 % 0x40, 0x80 + c % 0x40]
    ensures IsScalar(c) && 0x1_0000 <= c ==>
              EncodeScalar(c) ==
              [0xF0 + c / 0x4_0000, 0x80 + c / 0x1000 % 0x40, 0x80 + c / 0x40 % 0x40, 0x80 + c % 0x40]
  {
    SixBitGroups(c);
  }

  lemma SixBitGroups(c: nat)
    ensures c / 0x40 / 0x40 == c / 0x1000 && c / 0x40 / 0x40 / 0x40 == c / 0x4_0000
  {
  }

  // ----- UTF-16, and the default order of Array.prototype.sort -----

  type Units = seq<nat>

  /** A scalar as one code unit or a surrogate pair. */
  function UnitsOf(c: nat): Units
    requires IsScalar(c)
  {
    if c < 0x1_0000 then [c] else [0xD800 + (c - 0x1_0000) / 0x400, 0xDC00 + (c - 0x1_0000) % 0x400]
  }

  function EncodeUtf16(s: Scalars): Units
    requires AllScalars(s)
  {
    if s == [] then [] else UnitsOf(s[0]) + EncodeUtf16(s[1..])
  }

  function UnitLE(a: Units, b: Units): bool {
    if a == [] then true
    else if b == [] then false
    else a[0] < b[0] || (a[0] == b[0] && UnitLE(a[1..], b[1..]))
  }

  /** Where a scalar stands: surrogate pairs come before U+E000. */
  function SortRank(c: nat): nat {
    if 0xE000 <= c < 0x1_0000 then c + 0x11_0000 else c
  }

  lemma {:induction false} FirstDifferentByte(a: bytes, b: bytes, k: nat)
    requires k < |a| && k < |b| && a[..k] == b[..k] && a[k] != b[k]
    ensures StringLE(a, b) <==> UnitRank(a[k]) < UnitRank(b[k])
  {
    if k > 0 {
      assert a[0] == a[..k][0] && b[0] == b[..k][0];
      assert a[1..][..k - 1] == a[..k][1..] && b[1..][..k - 1] == b[..k][1..];
      FirstDifferentByte(a[1..], b[1..], k - 1);
    }
  }

  lemma {:induction false} SameBytesInFront(p: bytes, a: bytes, b: bytes)
    ensures StringLE(p + a, p + b) == StringLE(a, b)
  {
    if p == [] {
      assert p + a == a && p + b == b;
    } else {
      assert (p + a)[1..] == p[1..] + a && (p + b)[1..] == p[1..] + b;
      SameBytesInFront(p[1..], a, b);
    }
  }

  /** Different characters in front decide the comparison of the bytes. */
  lemma BytesCompareByRank(c: nat, d: nat, x: bytes, y: bytes)
    requires IsScalar(c) && IsScalar(d) && c != d
    ensures StringLE(EncodeScalar(c) + x, EncodeScalar(d) + y) <==> SortRank(c) < SortRank(d)
  {
    var e, f := EncodeScalar(c), EncodeScalar(d);
    var k := FirstDifference(c, d);
    assert (e + x)[..k] == e[..k] && (f + y)[..k] == f[..k];
    FirstDifferentByte(e + x, f + y, k);
  }

  lemma FirstDifference(c: nat, d: nat) returns (k: nat)
    requires IsScalar(c) && IsScalar(d) && c != d
    ensures k < |EncodeScalar(c)| && k < |EncodeScalar(d)| && EncodeScalar(c)[..k] == EncodeScalar(d)[..k]
    ensures EncodeScalar(c)[k] != EncodeScalar(d)[k]
    ensures UnitRank(EncodeScalar(c)[k]) < UnitRank(EncodeScalar(d)[k]) <==> SortRank(c) < SortRank(d)
  {
    if EncodeScalar(c)[0] != EncodeScalar(d)[0] {
      DifferentLeads(c, d);
      k := 0;
    } else {
      k := DifferentTrails(c, d);
    }
  }

  lemma DifferentLeads(c: nat, d: nat)
    requires IsScalar(c) && IsScalar(d) && EncodeScalar(c)[0] != EncodeScalar(d)[0]
    ensures UnitRank(EncodeScalar(c)[0]) < UnitRank(EncodeScalar(d)[0]) <==> SortRank(c) < SortRank(d)
  {
  }

  lemma DifferentTrails(c: nat, d: nat) returns (k: nat)
    requires IsScalar(c) && IsScalar(d) && c != d && EncodeScalar(c)[0] == EncodeScalar(d)[0]
    ensures k < |EncodeScalar(c)| == |EncodeScalar(d)| && EncodeScalar(c)[..k] == EncodeScalar(d)[..k]
    ensures EncodeScalar(c)[k] != EncodeScalar(d)[k]
    ensures UnitRank(EncodeScalar(c)[k]) < UnitRank(EncodeScalar(d)[k]) <==> SortRank(c) < SortRank(d)
  {
    SameLead(c, d);
    var n := |EncodeScalar(c)|;
    if c / 0x40 == d / 0x40 {
      DigitOrder(c, d);
      k := n - 1;
    } else if c / 0x40 / 0x40 == d / 0x40 / 0x40 {
      DigitOrder(c / 0x40, d / 0x40);
      k := n - 2;
    } else {
      DigitOrder(c / 0x40 / 0x40, d / 0x40 / 0x40);
      k := n - 3;
    }
  }

  /** Numbers that differ in the last six bits only are ordered by them. */
  lemma DigitOrder(c: nat, d: nat)
    requires c != d && c / 0x40 == d / 0x40
    ensures Trailing(c) != Trailing(d) && (Trailing(c) < Trailing(d) <==> c < d)
  {
    SixBits(c);
    SixBits(d);
  }

  /** A lead byte tells the width. */
  lemma SameWidth(c: nat, d: nat)
    requires IsScalar(c) && IsScalar(d) && EncodeScalar(c)[0] == EncodeScalar(d)[0]
    ensures |EncodeScalar(c)| == |EncodeScalar(d)|
  {
  }

  lemma SameLead(c: nat, d: nat)
    requires IsScalar(c) && IsScalar(d) && c != d && EncodeScalar(c)[0] == EncodeScalar(d)[0]
    ensures |EncodeScalar(c)| == |EncodeScalar(d)| > 1 && (SortRank(c) < SortRank(d) <==> c < d)
    ensures |EncodeScalar(c)| == 2 ==> c / 0x40 == d / 0x40
    ensures |EncodeScalar(c)| == 3 ==> c / 0x40 / 0x40 == d / 0x40 / 0x40
    ensures |EncodeScalar(c)| == 4 ==> c / 0x40 / 0x40 / 0x40 == d / 0x40 / 0x40 / 0x40
  {
    SameWidth(c, d);
    if |EncodeScalar(c)| == 3 {
      SameBlock(c, d);
    }
  }

  /** U+E000 starts a block of 4096. */
  lemma SameBlock(c: nat, d: nat)
    requires c / 0x40 / 0x40 == d / 0x40 / 0x40
    ensures c < 0xE000 <==> d < 0xE000
  {
  }

  /** Different characters in front decide the comparison of the code units. */
  lemma UnitsCompareByRank(c: nat, d: nat, x: Units, y: Units)
    requires IsScalar(c) && IsScalar(d) && c != d
    ensures UnitLE(UnitsOf(c) + x, UnitsOf(d) + y) <==> SortRank(c) < SortRank(d)
  {
    var a, b := UnitsOf(c) + x, UnitsOf(d) + y;
    if c >= 0x1_0000 && d >= 0x1_0000 {
      assert a[1] == 0xDC00 + (c - 0x1_0000) % 0x400 && b[1] == 0xDC00 + (d - 0x1_0000) % 0x400;
      assert a[1..][0] == a[1] && b[1..][0] == b[1];
    }
  }

  lemma {:induction false} SameUnitsInFront(p: Units, a: Units, b: Units)
    ensures UnitLE(p + a, p + b) == UnitLE(a, b)
  {
    if p == [] {
      assert p + a == a && p + b == b;
    } else {
      assert (p + a)[1..] == p[1..] + a && (p + b)[1..] == p[1..] + b;
      SameUnitsInFront(p[1..], a, b);
    }
  }

  /** Sorting the bytes by StringLE is sorting the strings by UTF-16 code unit. */
  lemma {:induction false} SortsByCodeUnit(s: Scalars, t: Scalars)
    requires AllScalars(s) && AllScalars(t)
    ensures StringLE(EncodeUtf8(s), EncodeUtf8(t)) == UnitLE(EncodeUtf16(s), EncodeUtf16(t))
  {
    if s != [] && t != [] {
      if s[0] == t[0] {
        SameBytesInFront(EncodeScalar(s[0]), EncodeUtf8(s[1..]), EncodeUtf8(t[1..]));
        SameUnitsInFront(UnitsOf(s[0]), EncodeUtf16(s[1..]), EncodeUtf16(t[1..]));
        SortsByCodeUnit(s[1..], t[1..]);
      } else {
        BytesCompareByRank(s[0], t[0], EncodeUtf8(s[1..]), EncodeUtf8(t[1..]));
        UnitsCompareByRank(s[0], t[0], EncodeUtf16(s[1..]), EncodeUtf16(t[1..]));
      }
    }
  }
}
