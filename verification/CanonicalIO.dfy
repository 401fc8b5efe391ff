/** The growable writer and the sequential reader under the rule-set codec. */
module CanonicalIO {
  import opened Wrappers
  import opened Bytes
  import opened Concatenation
  import opened Utf8

  // ----- fixed-width words, byte by byte -----

  lemma FromLECons(x: byte, b: bytes)
    ensures FromLE([x] + b) == x + 256 * FromLE(b)
  {
    assert ([x] + b)[1..] == b;
  }

  /** The shifts of readU32LE, with anything behind the word. */
  lemma FromWord(a: byte, b: byte, c: byte, d: byte, rest: bytes)
    ensures FromLE([a, b, c, d] + rest) == a + 0x100 * b + 0x1_0000 * c + 0x100_0000 * d + U32 * FromLE(rest)
  {
    FromLECons(d, rest);
    FromLECons(c, [d] + rest);
    FromLECons(b, [c] + ([d] + rest));
    FromLECons(a, [b] + ([c] + ([d] + rest)));
    assert [a, b, c, d] + rest == [a] + ([b] + ([c] + ([d] + rest)));
  }

  lemma FromHalf(a: byte, b: byte)
    ensures FromLE([a, b]) == a + 0x100 * b
  {
    FromLECons(b, []);
    FromLECons(a, [b]);
    assert [a, b] == [a] + [b] && [b] == [b] + [];
  }

  /** A low and a high word make the number readU64LE computes. */
  lemma FromTwoWords(lo: bytes, hi: bytes)
    requires |lo| == 4
    ensures FromLE(lo + hi) == FromLE(lo) + U32 * FromLE(hi)
  {
    assert lo == [lo[0], lo[1], lo[2], lo[3]] && lo == lo + [];
    FromWord(lo[0], lo[1], lo[2], lo[3], hi);
    FromWord(lo[0], lo[1], lo[2], lo[3], []);
  }

  /** writeU64LE works on a low and a high half because JavaScript shifts are 32 bits wide. */
  lemma Halves(n: nat, low: nat, high: nat)
    requires n == low + U32 * high && low < U32 && high < U32
    ensures LE(n, 8) == LE(low, 4) + LE(high, 4)
  {
    Widths();
    var lo, hi := LE(low, 4), LE(high, 4);
    FromTwoWords(lo, hi);
    FromLEOfLE(low, 4);
    FromLEOfLE(high, 4);
    LEOfFromLE(lo + hi);
  }

  lemma MarkedForms(n: nat, start: bytes)
    ensures n < 0xfd ==> Varint(n) == LE(n, 1)
    ensures 0xfd <= n < U16 ==> start + LE(0xfd, 1) + LE(n, 2) == start + Varint(n)
    ensures U16 <= n < U32 ==> start + LE(0xfe, 1) + LE(n, 4) == start + Varint(n)
    ensures U32 <= n ==> start + LE(0xff, 1) + LE(n, 8) == start + Varint(n)
  {
    OneByte(0xfd);
    OneByte(0xfe);
    OneByte(0xff);
    if n < 0xfd {
      OneByte(n);
    } else {
      var mark := if n < U16 then 0xfd else if n < U32 then 0xfe else 0xff;
      Assoc(start, [mark], LE(n, if n < U16 then 2 else if n < U32 then 4 else 8));
    }
  }

  lemma OneByte(n: byte)
    ensures LE(n, 1) == [n]
  {
  }

  // ----- what the reader accepts -----

  const TEXT_CAP: nat := 4096
  const BOM: bytes := [0xEF, 0xBB, 0xBF]

  /** TextDecoder drops a leading byte-order mark. */
  function Text(b: bytes): bytes {
    if BOM <= b then b[3..] else b
  }

  function ParseU64(b: bytes): Parsed<nat> {
    var (v, rest) :- ReadLE(b, 8);
    if v > MAX_SAFE then Fail else Got(v, rest)
  }

  function ParseBool(b: bytes): Parsed<bool> {
    var (v, rest) :- ReadLE(b, 1);
    if v > 1 then Fail else Got(v == 1, rest)
  }

  function ParseVarint(b: bytes): Parsed<nat> {
    var (v, rest) :- ReadVarint(b);
    if v > MAX_SAFE then Fail else Got(v, rest)
  }

  function ParseText(b: bytes): Parsed<bytes> {
    var (n, afterLength) :- ParseVarint(b);
    if n > TEXT_CAP then Fail else
    var (s, rest) :- ReadBytes(afterLength, n);
    if ValidUtf8(s) then Got(Text(s), rest) else Fail
  }

  /** What the reader takes as a string; the second half holds of every string's bytes. */
  predicate Readable(s: bytes) { |s| <= TEXT_CAP && ValidUtf8(s) }

  /** Only the nine-byte form can exceed the safe range. */
  lemma SmallForms(b: bytes)
    ensures ReadVarint(b).Got? && b[0] < 0xff ==> ReadVarint(b).value <= MAX_SAFE
  {
    Widths();
    if |b| >= 3 { LEOfFromLE(b[1..][..2]); }
    if |b| >= 5 { LEOfFromLE(b[1..][..4]); }
  }

  lemma ParseU64OfLE(v: nat, rest: bytes)
    requires v <= MAX_SAFE
    ensures ParseU64(LE(v, 8) + rest) == Got(v, rest)
  {
    Widths();
    ReadLEOfLE(v, 8, rest);
  }

  lemma ParseBoolOf(v: bool, rest: bytes)
    ensures ParseBool(LE(if v then 1 else 0, 1) + rest) == Got(v, rest)
  {
    Widths();
    ReadLEOfLE(if v then 1 else 0, 1, rest);
  }

  /** A written string reads back unless it is too long or not UTF-8; a byte-order mark in front is lost. */
  lemma ParseTextOf(s: bytes, rest: bytes)
    requires |s| <= MAX_SAFE
    ensures ParseText(Prefixed(s) + rest) == if Readable(s) then Got(Text(s), rest) else Fail
  {
    assert Prefixed(s) + rest == Varint(|s|) + (s + rest);
    ReadVarintOfVarint(|s|, s + rest);
    ReadBytesOf(s, rest);
  }

  // ----- writer -----

  function Doubled(cap: nat, times: nat): nat
    decreases times
  {
    if times == 0 then cap else Doubled(2 * cap, times - 1)
  }

  lemma {:induction false} DoublingReaches(cap: nat, required: nat) returns (times: nat)
    requires cap > 0
    ensures required <= Doubled(cap, times)
    decreases required - cap
  {
    if required <= cap {
      times := 0;
    } else {
      var more := DoublingReaches(2 * cap, required);
      times := more + 1;
    }
  }

  lemma {:induction false} DoublingZero(times: nat)
    ensures Doubled(0, times) == 0
  {
    if times > 0 {
      DoublingZero(times - 1);
    }
  }

  /** The growth loop of a buffer of this capacity ends exactly when the capacity is not zero. */
  lemma GrowthEnds(cap: nat, required: nat)
    requires required > cap
    ensures (exists times :: required <= Doubled(cap, times)) <==> cap > 0
  {
    if cap > 0 {
      var times := DoublingReaches(cap, required);
    } else {
      forall times
        ensures Doubled(cap, times) < required
      {
        DoublingZero(times);
      }
    }
  }

  class CanonicalWriter {
    var buf: array<byte>
    var offset: nat
    ghost var contents: bytes
    ghost var Repr: set<object>

    ghost predicate Valid()
      reads this, Repr
    {
      Repr == {this, buf} && offset <= buf.Length && contents == buf[..offset]
    }

    /** A writer of capacity zero cannot write a byte: by GrowthEnds its growth loop would not end. */
    ghost predicate Growable()
      reads this, Repr
    {
      Valid() && buf.Length > 0
    }

    constructor (initialCapacity: nat := 256)
      ensures Valid() && fresh(Repr) && contents == [] && (Growable() <==> initialCapacity > 0)
    {
      buf := new byte[initialCapacity];
      offset, contents, Repr := 0, [], {this, buf};
    }

    method Bytes() returns (b: bytes)
      requires Valid()
      ensures b == contents
    {
      return buf[..offset];
    }

    /** Make room for extra bytes, doubling the buffer as often as needed. */
    method Ensure(extra: nat)
      requires Valid() && (offset + extra <= buf.Length || buf.Length > 0)
      modifies this
      ensures Valid() && fresh(Repr - old(Repr)) && buf.Length >= old(buf.Length)
      ensures offset == old(offset) && contents == old(contents) && offset + extra <= buf.Length
    {
      var required := offset + extra;
      if required <= buf.Length { return; }
      var cap := buf.Length * 2;
      while cap < required
        invariant cap >= buf.Length > 0
        decreases required - cap
      {
        cap := cap * 2;
      }
      var grown := new byte[cap];
      forall k | 0 <= k < buf.Length {
        grown[k] := buf[k];
      }
      assert grown[..offset] == buf[..offset];
      buf, Repr := grown, {this, grown};
    }

    /** One store at the offset. */
    method Put(b: byte)
      requires Valid() && offset < buf.Length
      modifies this`offset, this`contents, buf
      ensures Valid() && offset == old(offset) + 1 && contents == old(contents) + [b]
    {
      buf[offset] := b;
      assert buf[..offset] == contents;
      offset, contents := offset + 1, contents + [b];
    }

    method PutWord(n: nat)
      requires Valid() && offset + 4 <= buf.Length
      modifies this`offset, this`contents, buf
      ensures Valid() && offset == old(offset) + 4 && contents == old(contents) + LE(n, 4)
    {
      ghost var before := contents;
      Put(n % 256);
      Put(n / 0x100 % 256);
      Put(n / 0x1_0000 % 256);
      Put(n / 0x100_0000 % 256);
      FourBytes(n);
      assert contents == before + [n % 256, n / 0x100 % 256, n / 0x1_0000 % 256, n / 0x100_0000 % 256];
    }

    /** Each writer returns false where the code throws; the writer is then abandoned. */
    method WriteU8(v: int) returns (ok: bool)
      requires Valid() && (0 <= v < 256 ==> Growable())
      modifies Repr
      ensures Valid() && fresh(Repr - old(Repr)) && buf.Length >= old(buf.Length)
      ensures ok <==> 0 <= v < 256
      ensures ok ==> contents == old(contents) + LE(v, 1)
    {
      if v < 0 || v > 0xff { return false; }
      Ensure(1);
      Put(v);
      assert LE(v, 1) == [v];
      return true;
    }

    method WriteBool(v: bool)
      requires Growable()
      modifies Repr
      ensures Valid() && fresh(Repr - old(Repr)) && buf.Length >= old(buf.Length)
      ensures contents == old(contents) + LE(if v then 1 else 0, 1)
    {
      var _ := WriteU8(if v then 1 else 0);
    }

    method WriteU16(v: int) returns (ok: bool)
      requires Valid() && (0 <= v < U16 ==> Growable())
      modifies Repr
      ensures Valid() && fresh(Repr - old(Repr)) && buf.Length >= old(buf.Length)
      ensures ok <==> 0 <= v < U16
      ensures ok ==> contents == old(contents) + LE(v, 2)
    {
      if v < 0 || v > 0xffff { return false; }
      Ensure(2);
      ghost var before := contents;
      Put(v % 256);
      Put(v / 0x100 % 256);
      TwoBytes(v);
      assert contents == before + [v % 256, v / 0x100 % 256];
      return true;
    }

    method WriteU32(v: int) returns (ok: bool)
      requires Valid() && (0 <= v < U32 ==> Growable())
      modifies Repr
      ensures Valid() && fresh(Repr - old(Repr)) && buf.Length >= old(buf.Length)
      ensures ok <==> 0 <= v < U32
      ensures ok ==> contents == old(contents) + LE(v, 4)
    {
      if v < 0 || v > 0xffff_ffff { return false; }
      Ensure(4);
      PutWord(v);
      return true;
    }

    method WriteU64(v: int) returns (ok: bool)
      requires Valid() && (0 <= v <= MAX_SAFE ==> Growable())
      modifies Repr
      ensures Valid() && fresh(Repr - old(Repr)) && buf.Length >= old(buf.Length)
      ensures ok <==> 0 <= v <= MAX_SAFE
      ensures ok ==> contents == old(contents) + LE(v, 8)
    {
      if v < 0 || v > MAX_SAFE { return false; }
      Ensure(8);
      var lo, hi := v % U32, v / U32;
      PutWord(lo);
      PutWord(hi);
      Halves(v, lo, hi);
      Assoc(old(contents), LE(lo, 4), LE(hi, 4));
      return true;
    }

    method WriteI32(v: int) returns (ok: bool)
      requires Valid() && (-0x8000_0000 <= v < 0x8000_0000 ==> Growable())
      modifies Repr
      ensures Valid() && fresh(Repr - old(Repr)) && buf.Length >= old(buf.Length)
      ensures ok <==> -0x8000_0000 <= v < 0x8000_0000
      ensures ok ==> contents == old(contents) + LE(v % U32, 4)
    {
      if v < -0x8000_0000 || v > 0x7fff_ffff { return false; }
      ok := WriteU32(if v < 0 then v + U32 else v);
    }

    method WriteVarint(n: nat) returns (ok: bool)
      requires Valid() && (n <= MAX_SAFE ==> Growable())
      modifies Repr
      ensures Valid() && fresh(Repr - old(Repr)) && buf.Length >= old(buf.Length)
      ensures ok <==> n <= MAX_SAFE
      ensures ok ==> contents == old(contents) + Varint(n)
    {
      if n > MAX_SAFE { return false; }
      MarkedForms(n, contents);
      if n < 0xfd {
        ok := WriteU8(n);
      } else if n <= 0xffff {
        var _ := WriteU8(0xfd);
        ok := WriteU16(n);
      } else if n <= 0xffff_ffff {
        var _ := WriteU8(0xfe);
        ok := WriteU32(n);
      } else {
        var _ := WriteU8(0xff);
        ok := WriteU64(n);
      }
    }

    method WriteRaw(data: bytes)
      requires Valid() && (data == [] || Growable())
      modifies Repr
      ensures Valid() && fresh(Repr - old(Repr)) && buf.Length >= old(buf.Length)
      ensures contents == old(contents) + data
    {
      Ensure(|data|);
      forall k | 0 <= k < |data| {
        buf[offset + k] := data[k];
      }
      assert buf[..offset] == contents;
      offset, contents := offset + |data|, contents + data;
    }

    /** writeUtf8: the string's UTF-8 bytes behind their length. */
    method WriteText(s: bytes) returns (ok: bool)
      requires Valid() && (|s| <= MAX_SAFE ==> Growable())
      modifies Repr
      ensures Valid() && fresh(Repr - old(Repr)) && buf.Length >= old(buf.Length)
      ensures ok <==> |s| <= MAX_SAFE
      ensures ok ==> contents == old(contents) + Prefixed(s)
    {
      ok := WriteVarint(|s|);
      if !ok { return; }
      WriteRaw(s);
      Assoc(old(contents), Varint(|s|), s);
    }
  }

  // ----- reader -----

  class CanonicalReader {
    const buf: bytes
    var offset: nat

    ghost predicate Valid()
      reads this
    {
      offset <= |buf|
    }

    ghost function Unread(): bytes
      reads this
      requires Valid()
    {
      buf[offset..]
    }

    constructor (data: bytes)
      ensures Valid() && Unread() == data
    {
      buf, offset := data, 0;
    }

    method ReadU8() returns (r: Option<nat>)
      requires Valid()
      modifies this
      ensures Valid() && After(ReadLE(old(Unread()), 1), r, Unread())
    {
      if |buf| - offset < 1 { return None; }
      var v: nat := buf[offset];
      assert Unread()[..1] == [v] && FromLE([v][1..]) == 0;
      assert Unread()[1..] == buf[offset + 1..];
      offset := offset + 1;
      return Some(v);
    }

    method ReadBool() returns (r: Option<bool>)
      requires Valid()
      modifies this
      ensures Valid() && After(ParseBool(old(Unread())), r, Unread())
    {
      var b := ReadU8();
      if b == Some(0) { return Some(false); }
      if b == Some(1) { return Some(true); }
      return None;
    }

    method ReadU16() returns (r: Option<nat>)
      requires Valid()
      modifies this
      ensures Valid() && After(ReadLE(old(Unread()), 2), r, Unread())
    {
      if |buf| - offset < 2 { return None; }
      var a: nat, b: nat := buf[offset], buf[offset + 1];
      ghost var head := Unread()[..2];
      assert head == [buf[offset], buf[offset + 1]];
      FromHalf(buf[offset], buf[offset + 1]);
      assert Unread()[2..] == buf[offset + 2..];
      offset := offset + 2;
      return Some(a + 0x100 * b);
    }

    method ReadU32() returns (r: Option<nat>)
      requires Valid()
      modifies this
      ensures Valid() && After(ReadLE(old(Unread()), 4), r, Unread())
    {
      if |buf| - offset < 4 { return None; }
      var a: nat, b: nat, c: nat, d: nat := buf[offset], buf[offset + 1], buf[offset + 2], buf[offset + 3];
      ghost var head := Unread()[..4];
      assert head == [buf[offset], buf[offset + 1], buf[offset + 2], buf[offset + 3]] + [];
      FromWord(buf[offset], buf[offset + 1], buf[offset + 2], buf[offset + 3], []);
      assert Unread()[4..] == buf[offset + 4..];
      offset := offset + 4;
      return Some(a + 0x100 * b + 0x1_0000 * c + 0x100_0000 * d);
    }

    method ReadU64() returns (r: Option<nat>)
      requires Valid()
      modifies this
      ensures Valid() && After(ParseU64(old(Unread())), r, Unread())
    {
      if |buf| - offset < 8 { return None; }
      ghost var all := Unread();
      var lo := ReadU32();
      var hi := ReadU32();
      assert all[..8] == all[..4] + all[4..][..4] && all[8..] == all[4..][4..];
      FromTwoWords(all[..4], all[4..][..4]);
      var v := hi.value * U32 + lo.value;
      if v > MAX_SAFE { return None; }
      return Some(v);
    }

    method ReadVarint() returns (r: Option<nat>)
      requires Valid()
      modifies this
      ensures Valid() && After(ParseVarint(old(Unread())), r, Unread())
    {
      ghost var all := Unread();
      SmallForms(all);
      var b: Option<nat> := ReadU8();
      if b.None? { return None; }
      assert all[..1] == [all[0]] && FromLE([all[0]][1..]) == 0 && b.value == all[0];
      if b.value < 0xfd { return b; }
      if b.value == 0xfd {
        r := ReadU16();
      } else if b.value == 0xfe {
        r := ReadU32();
      } else {
        r := ReadU64();
      }
    }

    method ReadRaw(n: nat) returns (r: Option<bytes>)
      requires Valid()
      modifies this
      ensures Valid() && After(ReadBytes(old(Unread()), n), r, Unread())
    {
      if |buf| - offset < n { return None; }
      r := Some(buf[offset..offset + n]);
      assert Unread()[..n] == buf[offset..offset + n] && Unread()[n..] == buf[offset + n..];
      offset := offset + n;
    }

    /** readUtf8 with its default cap and the decoder's fatal flag. */
    method ReadText() returns (r: Option<bytes>)
      requires Valid()
      modifies this
      ensures Valid() && After(ParseText(old(Unread())), r, Unread())
    {
      var n := ReadVarint();
      if n.None? || n.value > TEXT_CAP { return None; }
      var raw := ReadRaw(n.value);
      if raw.None? || !ValidUtf8(raw.value) { return None; }
      return Some(if BOM <= raw.value then raw.value[3..] else raw.value);
    }
  }
}
