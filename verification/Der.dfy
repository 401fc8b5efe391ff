/** DER signatures: INTEGER bodies, the SEQUENCE around them, and reading r and s back. */
module Der {
  import opened Wrappers
  import opened Bytes

  // ----- big-endian numbers -----

  function FromBE(b: bytes): nat {
    if b == [] then 0 else 256 * FromBE(b[..|b| - 1]) + b[|b| - 1]
  }

  /** The shortest big-endian form; zero takes one byte. */
  function BigEndian(n: nat): (b: bytes)
    ensures b != [] && (|b| > 1 ==> b[0] != 0)
  {
    if n < 256 then [n] else BigEndian(n / 256) + [n % 256]
  }

  lemma {:induction false} FromBEOfBigEndian(n: nat)
    ensures FromBE(BigEndian(n)) == n
  {
    var b := BigEndian(n);
    if n < 256 {
      assert b[..0] == [];
    } else {
      FromBEOfBigEndian(n / 256);
      assert b[..|b| - 1] == BigEndian(n / 256);
    }
  }

  lemma {:induction false} FromBEBound(b: bytes)
    ensures FromBE(b) < Pow256(|b|)
  {
    if b != [] {
      FromBEBound(b[..|b| - 1]);
    }
  }

  lemma {:induction false} BigEndianLength(n: nat, k: nat)
    requires k > 0 && n < Pow256(k)
    ensures |BigEndian(n)| <= k
  {
    if n >= 256 {
      assert k > 1 by { assert Pow256(1) == 256; }
      BigEndianLength(n / 256, k - 1);
    }
  }

  lemma {:induction false} LeadingZero(b: bytes)
    ensures FromBE([0] + b) == FromBE(b)
  {
    var z := [0] + b;
    if b == [] {
      assert z[..0] == [];
    } else {
      LeadingZero(b[..|b| - 1]);
      assert z[..|z| - 1] == [0] + b[..|b| - 1];
    }
  }

  lemma {:induction false} LeadingZeros(k: nat, b: bytes)
    ensures FromBE(Zeros(k) + b) == FromBE(b)
  {
    if k == 0 {
      assert Zeros(0) + b == b;
    } else {
      LeadingZero(Zeros(k - 1) + b);
      LeadingZeros(k - 1, b);
      assert Zeros(k) + b == [0] + (Zeros(k - 1) + b);
    }
  }

  /** Two strings of one length denote the same number only if they are equal. */
  lemma {:induction false} SameLengthSameNumber(a: bytes, b: bytes)
    requires |a| == |b| && FromBE(a) == FromBE(b)
    ensures a == b
  {
    if a != [] {
      SameLengthSameNumber(a[..|a| - 1], b[..|b| - 1]);
      assert a == a[..|a| - 1] + [a[|a| - 1]] && b == b[..|b| - 1] + [b[|b| - 1]];
    }
  }

  // ----- bigintToBytes: by way of hexadecimal text -----

  type nibble = x: int | 0 <= x < 16

  function HexDigits(n: nat): (h: seq<nibble>)
    ensures h != []
  {
    if n < 16 then [n] else HexDigits(n / 16) + [n % 16]
  }

  function Even(h: seq<nibble>): (e: seq<nibble>)
    ensures |e| % 2 == 0
  {
    if |h| % 2 != 0 then [0] + h else h
  }

  function HexPair(high: nibble, low: nibble): byte {
    (high as int) * 16 + (low as int)
  }

  function Pairs(h: seq<nibble>): (b: bytes)
    requires |h| % 2 == 0
    ensures |b| == |h| / 2
  {
    seq(|h| / 2, i requires 0 <= i < |h| / 2 => HexPair(h[2 * i], h[2 * i + 1]))
  }

  lemma TwoMoreDigits(h: seq<nibble>, a: nibble, b: nibble)
    ensures Pairs(Even(h + [a, b])) == Pairs(Even(h)) + [HexPair(a, b)]
  {
    assert Even(h + [a, b]) == Even(h) + [a, b];
  }

  lemma {:induction false} HexIsBigEndian(n: nat)
    ensures Pairs(Even(HexDigits(n))) == BigEndian(n)
  {
    if n < 16 {
      assert Even(HexDigits(n)) == [0, n];
    } else if n < 256 {
      assert HexDigits(n) == [n / 16, n % 16];
    } else {
      HexIsBigEndian(n / 256);
      var h, a, b := HexDigits(n / 256), n / 16 % 16, n % 16;
      assert n / 16 / 16 == n / 256;
      assert HexDigits(n / 16) == h + [a];
      assert HexDigits(n) == h + [a] + [b] == h + [a, b];
      TwoMoreDigits(h, a, b);
      assert HexPair(a, b) == n % 256;
    }
  }

  method BigintToBytes(n: nat) returns (b: bytes)
    ensures b == BigEndian(n)
  {
    var hex := HexDigits(n);
    if |hex| % 2 != 0 {
      hex := [0] + hex;
    }
    var out := new byte[|hex| / 2];
    for i := 0 to out.Length
      invariant forall k :: 0 <= k < i ==> out[k] == HexPair(hex[2 * k], hex[2 * k + 1])
    {
      out[i] := HexPair(hex[2 * i], hex[2 * i + 1]);
    }
    HexIsBigEndian(n);
    assert out[..] == Pairs(hex);
    return out[..];
  }

  // ----- encoder -----

  /** Skip zero bytes in front, but never the last byte. */
  function Stripped(n: bytes): (b: bytes)
    ensures n != [] ==> b != []
  {
    if |n| > 1 && n[0] == 0 then Stripped(n[1..]) else n
  }

  /** A zero byte in front of a set top bit keeps the number positive. */
  function Body(n: bytes): bytes {
    var b := Stripped(n);
    if b != [] && b[0] >= 0x80 then [0] + b else b
  }

  /** Lengths are stored into one byte, so a long body wraps. */
  function Tlv(tag: byte, body: bytes): bytes {
    [tag, |body| % 256] + body
  }

  function EncodeDerInt(n: bytes): bytes {
    Tlv(0x02, Body(n))
  }

  function EncodeDer(r: bytes, s: bytes): bytes {
    Tlv(0x30, EncodeDerInt(r) + EncodeDerInt(s))
  }

  method DerInt(n: bytes) returns (out: bytes)
    ensures out == EncodeDerInt(n)
  {
    var i := 0;
    while i < |n| - 1 && n[i] == 0
      invariant 0 <= i <= |n| && (n != [] ==> i < |n|) && Stripped(n[i..]) == Stripped(n)
    {
      assert n[i..][1..] == n[i + 1..];
      i := i + 1;
    }
    var body := n[i..];
    if |body| > 0 && body[0] >= 0x80 {
      body := [0] + body;
    }
    return [0x02, |body| % 256] + body;
  }

  method DerSequence(r: bytes, s: bytes) returns (out: bytes)
    ensures out == EncodeDer(r, s)
  {
    var rBytes := DerInt(r);
    var sBytes := DerInt(s);
    return [0x30, (|rBytes| + |sBytes|) % 256] + (rBytes + sBytes);
  }

  // ----- decoder -----

  function Min(a: nat, b: nat): nat { if a < b then a else b }

  /** Uint8Array.slice clamps both ends to the array. */
  function Slice(b: bytes, lo: nat, hi: nat): bytes
    requires lo <= hi
  {
    b[Min(lo, |b|)..Min(hi, |b|)]
  }

  /** The two INTEGER bodies, or None where decodeDer throws. A missing second length slices to nothing. */
  function DecodeDer(buf: bytes): Option<(bytes, bytes)> {
    if |buf| < 8 || buf[0] != 0x30 || buf[1] != |buf| - 2 || buf[2] != 0x02 then None else
    var rLen: nat := buf[3];
    var r := Slice(buf, 4, 4 + rLen);
    var off := 4 + rLen;
    if off >= |buf| || buf[off] != 0x02 then None else
    var s := if off + 1 < |buf| then Slice(buf, off + 2, off + 2 + (buf[off + 1] as int)) else [];
    Some((r, s))
  }

  /** The moving offset of decodeDer. */
  method ReadDer(buf: bytes) returns (rs: Option<(bytes, bytes)>)
    ensures rs == DecodeDer(buf)
  {
    if |buf| < 8 { return None; }
    if buf[0] != 0x30 { return None; }
    if buf[1] != |buf| - 2 { return None; }
    var off: nat := 2;
    if buf[off] != 0x02 { return None; }
    var rLen: nat := buf[off + 1];
    var r := Slice(buf, off + 2, off + 2 + rLen);
    off := off + 2 + rLen;
    if off >= |buf| || buf[off] != 0x02 { return None; }
    if off + 1 >= |buf| { return Some((r, [])); }
    var sLen: nat := buf[off + 1];
    var s := Slice(buf, off + 2, off + 2 + sLen);
    return Some((r, s));
  }

  /** Cut or fill on the left to 32 bytes. */
  function PadTo32(b: bytes): (p: bytes)
    ensures |p| == 32
  {
    if |b| == 32 then b
    else if |b| > 32 then b[|b| - 32..]
    else Zeros(32 - |b|) + b
  }

  // ----- INTEGER bodies -----

  /** Section 8.3 of ITU-T X.690 for a non-negative INTEGER: no byte too many, top bit clear. */
  predicate MinimalPositive(body: bytes) {
    body != [] && body[0] < 0x80 && (|body| > 1 && body[0] == 0 ==> body[1] >= 0x80)
  }

  lemma {:induction false} StrippedKeepsNumber(n: bytes)
    ensures FromBE(Stripped(n)) == FromBE(n)
    ensures |Stripped(n)| > 1 ==> Stripped(n)[0] != 0
    ensures |Stripped(n)| <= |n|
    decreases |n|
  {
    if |n| > 1 && n[0] == 0 {
      StrippedKeepsNumber(n[1..]);
      LeadingZero(n[1..]);
      assert n == [0] + n[1..];
    }
  }

  /** Every body encodeDerInt writes for a non-empty input is minimal, positive and the same number. */
  lemma BodyIsMinimal(n: bytes)
    requires n != []
    ensures MinimalPositive(Body(n)) && FromBE(Body(n)) == FromBE(n) && |Body(n)| <= |n| + 1
  {
    StrippedKeepsNumber(n);
    LeadingZero(Stripped(n));
  }

  lemma NoLeadingZeroUnique(a: bytes, b: bytes)
    requires a != [] && b != [] && a[0] != 0 && b[0] != 0 && FromBE(a) == FromBE(b)
    ensures a == b
  {
    if |a| < |b| {
      ShorterIsSmaller(a, b);
    } else if |b| < |a| {
      ShorterIsSmaller(b, a);
    } else {
      SameLengthSameNumber(a, b);
    }
  }

  lemma ShorterIsSmaller(a: bytes, b: bytes)
    requires |a| < |b| && b[0] != 0
    ensures FromBE(a) < FromBE(b)
  {
    FromBEBound(a);
    LongerIsLarger(b);
    PowGrows(|a|, |b| - 1);
  }

  lemma {:induction false} LongerIsLarger(a: bytes)
    requires a != [] && a[0] != 0
    ensures FromBE(a) >= Pow256(|a| - 1)
  {
    if |a| > 1 {
      LongerIsLarger(a[..|a| - 1]);
    } else {
      assert a[..0] == [];
    }
  }

  lemma {:induction false} PowGrows(j: nat, k: nat)
    requires j <= k
    ensures Pow256(j) <= Pow256(k)
  {
    if j < k {
      PowGrows(j, k - 1);
    }
  }

  /** A minimal positive body without its sign byte. */
  lemma MinimalCore(body: bytes)
    requires MinimalPositive(body) && body != [0]
    ensures var core := if body[0] == 0 then body[1..] else body;
            core != [] && core[0] != 0 && FromBE(core) == FromBE(body) &&
            body == if core[0] >= 0x80 then [0] + core else core
  {
    if body[0] == 0 {
      LeadingZero(body[1..]);
      assert body == [0] + body[1..];
    }
  }

  lemma ZeroBody(body: bytes)
    requires MinimalPositive(body)
    ensures FromBE(body) == 0 <==> body == [0]
  {
    if body == [0] {
      assert body[..0] == [];
    } else {
      MinimalCore(body);
      LongerIsLarger(if body[0] == 0 then body[1..] else body);
    }
  }

  /** There is one minimal positive body per number. */
  lemma MinimalBodyIsUnique(a: bytes, b: bytes)
    requires MinimalPositive(a) && MinimalPositive(b) && FromBE(a) == FromBE(b)
    ensures a == b
  {
    ZeroBody(a);
    ZeroBody(b);
    if a != [0] {
      MinimalCore(a);
      MinimalCore(b);
      NoLeadingZeroUnique(if a[0] == 0 then a[1..] else a, if b[0] == 0 then b[1..] else b);
    }
  }

  // ----- round trip -----

  lemma DecodeOfTlv(x: bytes, y: bytes)
    requires 1 <= |x| <= 33 && 1 <= |y| <= 33
    ensures DecodeDer(Tlv(0x30, Tlv(0x02, x) + Tlv(0x02, y))) == Some((x, y))
  {
    var buf := Tlv(0x30, Tlv(0x02, x) + Tlv(0x02, y));
    assert buf == [0x30, |buf| - 2, 0x02, |x|] + x + [0x02, |y|] + y;
    DecodeOfParts(buf, x, y);
  }

  lemma DecodeOfParts(buf: bytes, x: bytes, y: bytes)
    requires 1 <= |x| <= 33 && 1 <= |y| <= 33 && |buf| == 6 + |x| + |y|
    requires buf == [0x30, |buf| - 2, 0x02, |x|] + x + [0x02, |y|] + y
    ensures DecodeDer(buf) == Some((x, y))
  {
    assert buf[4..4 + |x|] == x && buf[6 + |x|..6 + |x| + |y|] == y;
    assert buf[4 + |x|] == 0x02 && buf[5 + |x|] == |y|;
  }

  /** Padding a body of at most 33 bytes loses nothing when the number fits 32. */
  lemma PadKeepsNumber(body: bytes)
    requires MinimalPositive(body) && |body| <= 33 && FromBE(body) < Pow256(32)
    ensures FromBE(PadTo32(body)) == FromBE(body)
  {
    if |body| == 33 {
      SignByteIsZero(body);
    } else {
      ShortPad(body);
    }
  }

  lemma ShortPad(body: bytes)
    requires |body| <= 32
    ensures FromBE(PadTo32(body)) == FromBE(body)
  {
    if |body| < 32 {
      PaddedNumber(PadTo32(body), 32 - |body|, body);
    }
  }

  lemma PaddedNumber(p: bytes, k: nat, b: bytes)
    requires p == Zeros(k) + b
    ensures FromBE(p) == FromBE(b)
  {
    LeadingZeros(k, b);
  }

  /** In 33 bytes the first one is only there for the sign. */
  lemma SignByteIsZero(body: bytes)
    requires |body| == 33 && FromBE(body) < Pow256(32)
    ensures FromBE(body[1..]) == FromBE(body)
  {
    if body[0] != 0 {
      LongerIsLarger(body);
    }
    LeadingZero(body[1..]);
    assert body == [0] + body[1..];
  }

  /** What signSighash writes, and the 64 compact bytes verifySighashSignature hands on. */
  function Signature(r: nat, s: nat): bytes {
    EncodeDer(BigEndian(r), BigEndian(s))
  }

  function Compact(der: bytes): Option<bytes> {
    match DecodeDer(der)
    case None => None
    case Some((r, s)) => Some(PadTo32(r) + PadTo32(s))
  }

  lemma SmallBody(n: nat)
    requires n < Pow256(32)
    ensures var body := Body(BigEndian(n));
            MinimalPositive(body) && FromBE(body) == n && |body| <= 33 && FromBE(PadTo32(body)) == n
  {
    var body := Body(BigEndian(n));
    BigEndianLength(n, 32);
    FromBEOfBigEndian(n);
    BodyIsMinimal(BigEndian(n));
    PadKeepsNumber(body);
  }

  /** The compact form holds r and s as 32 big-endian bytes each, exactly when both fit. */
  lemma SignatureRoundTrip(r: nat, s: nat)
    ensures (exists p, q ::
              Compact(Signature(r, s)) == Some(p + q) && |p| == |q| == 32 && FromBE(p) == r && FromBE(q) == s)
       <==> r < Pow256(32) && s < Pow256(32)
  {
    if r < Pow256(32) && s < Pow256(32) {
      var x, y := Body(BigEndian(r)), Body(BigEndian(s));
      SmallBody(r);
      SmallBody(s);
      DecodeOfTlv(x, y);
      assert Compact(Signature(r, s)) == Some(PadTo32(x) + PadTo32(y));
    } else {
      forall p: bytes, q: bytes | |p| == |q| == 32
        ensures FromBE(p) != r || FromBE(q) != s
      {
        FromBEBound(p);
        FromBEBound(q);
      }
    }
  }

  /** Any strict DER pair of 256-bit numbers is byte for byte what the encoder writes for them. */
  lemma StrictDerIsCanonical(x: bytes, y: bytes)
    requires MinimalPositive(x) && MinimalPositive(y) && FromBE(x) < Pow256(32) && FromBE(y) < Pow256(32)
    ensures Signature(FromBE(x), FromBE(y)) == Tlv(0x30, Tlv(0x02, x) + Tlv(0x02, y))
  {
    SmallBody(FromBE(x));
    SmallBody(FromBE(y));
    MinimalBodyIsUnique(Body(BigEndian(FromBE(x))), x);
    MinimalBodyIsUnique(Body(BigEndian(FromBE(y))), y);
  }
}
