/** Scripts: minimal pushes, script numbers, and the parse that gives back what was pushed. */
module Script {
  import opened Wrappers
  import opened Bytes
  import opened Concatenation
  import opened Sorting

  // ----- script numbers -----

  function Abs(n: int): nat { if n < 0 then -n else n }

  /** v >>> 8 first reduces v to 32 bits. */
  function ShiftRight8(v: nat): (r: nat)
    ensures v > 0 ==> r < v
    ensures v < U32 ==> r == v / 256
  {
    v % U32 / 256
  }

  /** The bytes the loop of encodeScriptNum pushes. */
  function Shifted(v: nat): (b: bytes)
    ensures b == [] <==> v == 0
  {
    if v == 0 then [] else [v % 256] + Shifted(ShiftRight8(v))
  }

  /** The sign goes into the top bit of the last byte, or into a byte of its own. */
  function WithSign(magnitude: bytes, negative: bool): bytes
    requires magnitude != []
  {
    var last := magnitude[|magnitude| - 1];
    if last >= 0x80 then magnitude + [if negative then 0x80 else 0x00]
    else if negative then magnitude[|magnitude| - 1 := last + 0x80]
    else magnitude
  }

  function ScriptNum(n: int): bytes {
    if n == 0 then [] else WithSign(Shifted(Abs(n)), n < 0)
  }

  lemma PushOne(out: bytes, v: nat)
    requires v > 0
    ensures out + Shifted(v) == out + [v % 256] + Shifted(ShiftRight8(v))
  {
  }

  /** The loop of encodeScriptNum. */
  method LowBytes(abs: nat) returns (out: bytes)
    ensures out == Shifted(abs)
  {
    out := [];
    var v := abs;
    while v > 0
      invariant out + Shifted(v) == Shifted(abs)
    {
      PushOne(out, v);
      out := out + [v % 256];
      v := ShiftRight8(v);
    }
    assert out == out + Shifted(0);
  }

  method EncodeScriptNum(n: int) returns (b: bytes)
    ensures b == ScriptNum(n)
  {
    if n == 0 { return []; }
    var out := LowBytes(Abs(n));
    var last := out[|out| - 1];
    if last >= 0x80 {
      out := out + [if n < 0 then 0x80 else 0x00];
    } else if n < 0 {
      out := out[|out| - 1 := last + 0x80];
    }
    return out;
  }

  /** What a script interpreter reads: little-endian magnitude, sign in the top bit of the last byte. */
  function Magnitude(b: bytes): nat {
    if b == [] then 0 else FromLE(b[..|b| - 1] + [b[|b| - 1] % 128])
  }

  function Value(b: bytes): int {
    var m: int := Magnitude(b);
    if b != [] && b[|b| - 1] >= 0x80 then -m else m
  }

  /** No byte could be dropped: the last one carries more than the sign, or guards a set top bit. */
  predicate MinimalNum(b: bytes) {
    b == [] || b[|b| - 1] % 128 != 0 || (|b| > 1 && b[|b| - 2] >= 0x80)
  }

  lemma {:induction false} FromLEOfShifted(v: nat)
    requires v < U32
    ensures FromLE(Shifted(v)) == v
    ensures v > 0 ==> Shifted(v)[|Shifted(v)| - 1] > 0
  {
    if v > 0 {
      FromLEOfShifted(v / 256);
      assert Shifted(v)[1..] == Shifted(v / 256);
    }
  }

  lemma {:induction false} TrailingZero(b: bytes)
    ensures FromLE(b + [0]) == FromLE(b)
  {
    if b == [] {
      assert [0][1..] == [];
    } else {
      TrailingZero(b[1..]);
      assert (b + [0])[1..] == b[1..] + [0];
    }
  }

  /** A sign byte of its own carries no magnitude. */
  lemma OwnSignByte(m: bytes, sign: byte)
    requires sign == 0 || sign == 0x80
    ensures Magnitude(m + [sign]) == FromLE(m)
  {
    MagnitudeOf(m, sign, 0);
    TrailingZero(m);
  }

  lemma MagnitudeOf(head: bytes, top: byte, low: byte)
    requires top == low || top == low + 0x80
    requires low < 0x80
    ensures Magnitude(head + [top]) == FromLE(head + [low])
  {
    var w := head + [top];
    assert w[..|w| - 1] == head;
  }

  /** A sign bit in the last byte is masked off again. */
  lemma SharedSignByte(m: bytes, head: bytes, last: byte, top: byte)
    requires m == head + [last] && last < 0x80 && (top == last || top == last + 0x80)
    ensures Magnitude(head + [top]) == FromLE(m)
  {
    MagnitudeOf(head, top, last);
  }

  lemma SignShape(m: bytes, negative: bool) returns (head: bytes, last: byte, top: byte)
    requires m != []
    ensures m == head + [last] && last == m[|m| - 1]
    ensures last >= 0x80 ==> WithSign(m, negative) == m + [if negative then 0x80 else 0x00]
    ensures last < 0x80 ==> WithSign(m, negative) == head + [top] && top == last + if negative then 0x80 else 0x00
  {
    head, last := m[..|m| - 1], m[|m| - 1];
    top := if last >= 0x80 then last else last + if negative then 0x80 else 0x00;
  }

  /** The sign does not disturb the magnitude. */
  lemma SignedReadsBack(m: bytes, negative: bool)
    requires m != []
    ensures Magnitude(WithSign(m, negative)) == FromLE(m)
    ensures (WithSign(m, negative)[|WithSign(m, negative)| - 1] >= 0x80) == negative
  {
    var head, last, top := SignShape(m, negative);
    SignIsRead(m, negative);
    if last >= 0x80 {
      OwnSignByte(m, if negative then 0x80 else 0x00);
    } else {
      SharedSignByte(m, head, last, top);
    }
  }

  lemma SignIsRead(m: bytes, negative: bool)
    requires m != []
    ensures (WithSign(m, negative)[|WithSign(m, negative)| - 1] >= 0x80) == negative
  {
  }

  /** Beyond 32 bits only the low 32 bits of the magnitude are encoded. */
  lemma ShiftedTruncates(v: nat)
    requires v >= U32
    ensures Shifted(v) == if v % U32 == 0 then [0] else Shifted(v % U32)
  {
    var u := v % U32;
    LowByte(v);
    assert ShiftRight8(v) == ShiftRight8(u);
  }

  lemma LowByte(v: nat)
    ensures v % 256 == v % U32 % 256
  {
    assert v == v / U32 * U32 + v % U32;
  }

  lemma ValueOfScriptNum(n: int)
    ensures Value(ScriptNum(n)) == if n < 0 then -(Abs(n) % U32) else Abs(n) % U32
  {
    if n != 0 {
      var v := Abs(n);
      SignedReadsBack(Shifted(v), n < 0);
      if v < U32 {
        FromLEOfShifted(v);
      } else {
        ShiftedTruncates(v);
        FromLEOfShifted(v % U32);
      }
    }
  }

  /** A script number means what it encodes exactly below 2^32; the code accepts every integer. */
  lemma ScriptNumRoundTrip(n: int)
    ensures Value(ScriptNum(n)) == n <==> Abs(n) < U32
  {
    ValueOfScriptNum(n);
  }

  lemma SignedIsMinimal(m: bytes, negative: bool)
    requires m != [] && (m[|m| - 1] != 0 || |m| == 1)
    ensures MinimalNum(WithSign(m, negative)) <==> m[|m| - 1] != 0
  {
  }

  lemma ScriptNumIsMinimal(n: int)
    ensures MinimalNum(ScriptNum(n)) <==> n == 0 || Abs(n) % U32 != 0
  {
    if n != 0 {
      var v := Abs(n);
      if v < U32 {
        FromLEOfShifted(v);
      } else {
        ShiftedTruncates(v);
        FromLEOfShifted(v % U32);
      }
      SignedIsMinimal(Shifted(v), n < 0);
    }
  }

  lemma LowByteOf(low: byte, high: nat)
    ensures (low + 256 * high) % 256 == low && (low + 256 * high) / 256 == high
  {
  }

  lemma {:induction false} ShiftedOfFromLE(m: bytes)
    requires FromLE(m) < U32 && (m != [] ==> m[|m| - 1] > 0)
    ensures Shifted(FromLE(m)) == m
  {
    if m != [] {
      ShiftedOfFromLE(m[1..]);
      assert m == [m[0]] + m[1..];
      NonZero(m);
      LowByteOf(m[0], FromLE(m[1..]));
    }
  }

  lemma {:induction false} NonZero(m: bytes)
    requires m != [] && m[|m| - 1] > 0
    ensures FromLE(m) > 0
  {
    if |m| > 1 {
      NonZero(m[1..]);
    }
  }

  /** The magnitude bytes of a minimal number, without the sign. */
  function MagnitudeBytes(b: bytes): bytes
    requires b != []
  {
    if b[|b| - 1] % 128 == 0 then b[..|b| - 1] else b[..|b| - 1] + [b[|b| - 1] % 128]
  }

  /** Minimal form is unique: each number below 2^32 has one, the one the writer makes. */
  lemma MinimalIsUnique(b: bytes)
    requires MinimalNum(b) && Abs(Value(b)) < U32
    ensures ScriptNum(Value(b)) == b
  {
    if b != [] {
      var m := MagnitudeBytes(b);
      MinimalMagnitude(b);
      ShiftedOfFromLE(m);
      NonZero(m);
      SignRestores(b, Value(b) < 0);
    }
  }

  /** Without its sign a minimal number has no leading zero byte. */
  lemma MinimalMagnitude(b: bytes)
    requires MinimalNum(b) && b != []
    ensures var m := MagnitudeBytes(b);
            m != [] && m[|m| - 1] > 0 && FromLE(m) == Magnitude(b)
  {
    if b[|b| - 1] % 128 == 0 {
      TrailingZero(b[..|b| - 1]);
      assert b[..|b| - 1][|b| - 2] == b[|b| - 2];
    }
  }

  lemma SignRestores(b: bytes, negative: bool)
    requires MinimalNum(b) && b != [] && (negative <==> b[|b| - 1] >= 0x80)
    ensures WithSign(MagnitudeBytes(b), negative) == b
  {
    var head := b[..|b| - 1];
    if b[|b| - 1] % 128 == 0 {
      assert head[|head| - 1] == b[|b| - 2];
    }
    assert b == head + [b[|b| - 1]];
  }

  // ----- pushes -----

  /** pushData: seven forms. */
  function Push(d: bytes): (b: bytes)
    ensures b != []
  {
    var n := |d|;
    if n == 0 then [0x00]
    else if n == 1 && 1 <= d[0] <= 16 then [0x51 + d[0] - 1]
    else if n == 1 && d[0] == 0x81 then [0x4f]
    else LongHead(n) + d
  }

  /** The opcode and length in front of data that has no opcode of its own. */
  function LongHead(n: nat): (b: bytes)
    requires n > 0
    ensures b != []
  {
    if n <= 75 then [n]
    else if n <= 255 then [0x4c, n]
    else if n <= 65535 then [0x4d, n % 256, n / 256 % 256]
    else [0x4e, n % 256, n / 0x100 % 256, n / 0x1_0000 % 256, n / 0x100_0000 % 256]
  }

  function PushNum(n: int): bytes {
    if n == 0 then [0x00] else if 1 <= n <= 16 then [0x51 + (n - 1)] else Push(ScriptNum(n))
  }

  /** The OP_n shortcut of pushNumber writes what pushing the encoded number would. */
  lemma ShortcutIsAPush(n: int)
    ensures PushNum(n) == Push(ScriptNum(n))
  {
    if 1 <= n <= 16 {
      assert Shifted(n) == [n % 256] + Shifted(0);
    }
  }

  datatype Item = Op(code: byte) | Data(data: bytes)

  function ItemBytes(i: Item): bytes {
    match i
    case Op(code) => [code]
    case Data(d) => Push(d)
  }

  class ScriptWriter {
    var buf: bytes

    constructor ()
      ensures buf == []
    {
      buf := [];
    }

    method PutOp(code: int) returns (ok: bool)
      modifies this
      ensures ok <==> 0 <= code < 256
      ensures buf == if ok then old(buf) + ItemBytes(Op(code)) else old(buf)
    {
      if code < 0 || code > 0xff { return false; }
      buf := buf + [code];
      return true;
    }

    method AppendAll(data: bytes)
      modifies this
      ensures buf == old(buf) + data
    {
      for i := 0 to |data|
        invariant buf == old(buf) + data[..i]
      {
        buf := buf + [data[i]];
      }
      assert data[..|data|] == data;
    }

    method PushData(data: bytes)
      modifies this
      ensures buf == old(buf) + ItemBytes(Data(data))
    {
      var n := |data|;
      if n == 0 {
        buf := buf + [0x00];
        return;
      }
      if n == 1 {
        var b := data[0];
        if 1 <= b <= 16 {
          buf := buf + [0x51 + b - 1];
        } else if b == 0x81 {
          buf := buf + [0x4f];
        } else {
          buf := buf + [1, b];
          assert data == [b] && [1] + [b] == [1, b];
        }
        return;
      }
      if n <= 75 {
        buf := buf + [n];
      } else if n <= 255 {
        buf := buf + [0x4c, n];
      } else if n <= 65535 {
        buf := buf + [0x4d, n % 256, n / 256 % 256];
      } else {
        buf := buf + [0x4e, n % 256, n / 0x100 % 256, n / 0x1_0000 % 256, n / 0x100_0000 % 256];
      }
      ghost var head := LongHead(n);
      AppendAll(data);
      assert buf == old(buf) + head + data == old(buf) + (head + data);
    }

    method PushNumber(n: int)
      modifies this
      ensures buf == old(buf) + ItemBytes(Data(ScriptNum(n)))
    {
      ShortcutIsAPush(n);
      if 0 <= n <= 16 {
        buf := buf + [if n == 0 then 0x00 else 0x51 + (n - 1)];
        return;
      }
      var b := EncodeScriptNum(n);
      PushData(b);
    }

    /** A compressed key: 33 bytes, the first 2 or 3. */
    method PushPubkey(key: bytes) returns (ok: bool)
      modifies this
      ensures ok <==> |key| == 33 && key[0] in {2, 3}
      ensures buf == if ok then old(buf) + ItemBytes(Data(key)) else old(buf)
    {
      if |key| != 33 || (key[0] != 2 && key[0] != 3) { return false; }
      PushData(key);
      return true;
    }

    method PushHash32(hash: bytes) returns (ok: bool)
      modifies this
      ensures ok <==> |hash| == 32
      ensures buf == if ok then old(buf) + ItemBytes(Data(hash)) else old(buf)
    {
      if |hash| != 32 { return false; }
      PushData(hash);
      return true;
    }
  }

  // ----- parsing -----

  function ReadPush(b: bytes, width: nat): Parsed<Item> {
    var (n, b1) :- ReadLE(b, width);
    var (d, b2) :- ReadBytes(b1, n);
    Got(Data(d), b2)
  }

  /** One opcode with its payload. Small constants are pushes too; Fail where the payload is cut off. */
  function NextItem(b: bytes): Parsed<Item> {
    if b == [] then Fail else
    var op, rest := b[0], b[1..];
    if op == 0 then Got(Data([]), rest)
    else if op <= 0x4b then
      var (d, after) :- ReadBytes(rest, op);
      Got(Data(d), after)
    else if op == 0x4c then ReadPush(rest, 1)
    else if op == 0x4d then ReadPush(rest, 2)
    else if op == 0x4e then ReadPush(rest, 4)
    else if op == 0x4f then Got(Data([0x81]), rest)
    else if 0x51 <= op <= 0x60 then Got(Data([op - 0x50]), rest)
    else Got(Op(op), rest)
  }

  lemma NextItemMoves(b: bytes)
    requires NextItem(b).Got?
    ensures |NextItem(b).rest| < |b|
  {
  }

  function ParseScript(b: bytes): Option<seq<Item>>
    decreases |b|
  {
    if b == [] then Some([])
    else match NextItem(b)
      case Fail => None
      case Got(item, rest) =>
        NextItemMoves(b);
        match ParseScript(rest)
        case None => None
        case Some(items) => Some([item] + items)
  }

  /** Codes that are not pushes: OP_RESERVED, and everything above OP_16. */
  predicate Plain(i: Item) {
    i.Op? ==> i.code == 0x50 || i.code > 0x60
  }

  predicate Bounded(i: Item) {
    i.Data? ==> |i.data| < U32
  }

  /** The length prefix of a long push, as the parser reads it. */
  lemma LongHeadIsLE(n: nat)
    requires 75 < n < U32
    ensures var width := if n <= 255 then 1 else if n <= 65535 then 2 else 4;
            LongHead(n) == [if n <= 255 then 0x4c else if n <= 65535 then 0x4d else 0x4e] + LE(n, width) &&
            n < Pow256(width)
  {
    Widths();
    TwoBytes(n);
    FourBytes(n);
    assert LE(n, 1) == [n % 256];
  }

  lemma ReadsPush(d: bytes, rest: bytes, width: nat)
    requires |d| < Pow256(width)
    ensures ReadPush(LE(|d|, width) + (d + rest), width) == Got(Data(d), rest)
  {
    ReadLEOfLE(|d|, width, d + rest);
    ReadBytesOf(d, rest);
  }

  lemma NextOfLongPush(d: bytes, rest: bytes)
    requires 75 < |d| < U32
    ensures NextItem(LongHead(|d|) + d + rest) == Got(Data(d), rest)
  {
    var n, b := |d|, LongHead(|d|) + d + rest;
    var width := if n <= 255 then 1 else if n <= 65535 then 2 else 4;
    LongHeadIsLE(n);
    assert b[1..] == LE(n, width) + (d + rest);
    ReadsPush(d, rest, width);
  }

  lemma NextOfPush(d: bytes, rest: bytes)
    requires |d| < U32
    ensures NextItem(Push(d) + rest) == Got(Data(d), rest)
  {
    var n, b := |d|, Push(d) + rest;
    if n > 75 {
      NextOfLongPush(d, rest);
    } else if n == 1 && (1 <= d[0] <= 16 || d[0] == 0x81) {
      assert d == [d[0]] && b[1..] == rest;
    } else if n == 0 {
      assert b[1..] == rest;
    } else {
      assert b[1..] == d + rest;
      ReadBytesOf(d, rest);
    }
  }

  lemma NextOfItem(i: Item, rest: bytes)
    requires Plain(i) && Bounded(i)
    ensures NextItem(ItemBytes(i) + rest) == Got(i, rest)
  {
    match i
    case Op(code) => assert ([code] + rest)[1..] == rest;
    case Data(d) => NextOfPush(d, rest);
  }

  lemma {:induction false} ParseOfPlain(items: seq<Item>)
    requires forall i :: i in items ==> Plain(i) && Bounded(i)
    ensures ParseScript(Each(ItemBytes, items)) == Some(items)
  {
    if items != [] {
      NextOfItem(items[0], Each(ItemBytes, items[1..]));
      ParseOfPlain(items[1..]);
      assert items == [items[0]] + items[1..];
    }
  }

  lemma {:induction false} ParsedIsPlain(b: bytes)
    requires ParseScript(b).Some?
    ensures forall i :: i in ParseScript(b).value ==> Plain(i)
    decreases |b|
  {
    if b != [] {
      NextItemMoves(b);
      ParsedIsPlain(NextItem(b).rest);
    }
  }

  /**
   * Parsing what the writer wrote gives the items back exactly when no push code was written as a bare
   * opcode; ScriptWriter.op takes any byte.
   */
  lemma ScriptRoundTrip(items: seq<Item>)
    requires forall i :: i in items ==> Bounded(i)
    ensures ParseScript(Each(ItemBytes, items)) == Some(items) <==> forall i :: i in items ==> Plain(i)
  {
    if forall i :: i in items ==> Plain(i) {
      ParseOfPlain(items);
    } else if ParseScript(Each(ItemBytes, items)) == Some(items) {
      ParsedIsPlain(Each(ItemBytes, items));
    }
  }

  /** No other push of the same data is as short. */
  lemma PushIsShortest(b: bytes, d: bytes)
    requires NextItem(b) == Got(Data(d), [])
    ensures |Push(d)| < |b| || Push(d) == b
  {
    assert b == [b[0]] + b[1..];
    if 0x4c <= b[0] <= 0x4e {
      LongFormIsNotShorter(b[0], b[1..], d);
    } else if 1 <= b[0] <= 0x4b {
      assert b[1..] == d;
    }
  }

  lemma LongFormIsNotShorter(op: byte, b: bytes, d: bytes)
    requires 0x4c <= op <= 0x4e
    requires ReadPush(b, if op == 0x4c then 1 else if op == 0x4d then 2 else 4) == Got(Data(d), [])
    ensures |Push(d)| < 1 + |b| || Push(d) == [op] + b
  {
    var width := if op == 0x4c then 1 else if op == 0x4d then 2 else 4;
    LongFormLength(b, width, d);
    if |d| > 75 {
      LongPushForm(op, width, d);
    } else {
      assert |Push(d)| <= 1 + |d|;
    }
  }

  lemma LongPushForm(op: byte, width: nat, d: bytes)
    requires (op, width) in {(0x4c, 1), (0x4d, 2), (0x4e, 4)} && 75 < |d| < U32
    requires (width == 1 ==> |d| < 256) && (width == 2 ==> |d| < U16)
    ensures |Push(d)| < 1 + width + |d| || Push(d) == [op] + (LE(|d|, width) + d)
  {
    Widths();
    LongHeadIsLE(|d|);
    assert [op] + (LE(|d|, width) + d) == [op] + LE(|d|, width) + d;
  }

  lemma LongFormLength(b: bytes, width: nat, d: bytes)
    requires width in {1, 2, 4} && ReadPush(b, width) == Got(Data(d), [])
    ensures b == LE(|d|, width) + d && |d| < U32
    ensures (width == 1 ==> |d| < 256) && (width == 2 ==> |d| < U16)
  {
    Widths();
    LEOfReadLE(b, width);
  }

  // ----- the opcode walk of the template tests -----

  function SkipPush(b: bytes, width: nat): bytes {
    if |b| < width then [] else
    var n := FromLE(b[..width]);
    if width + n <= |b| then b[width + n..] else []
  }

  /** What is left after the opcode at the head and its payload. */
  function AfterOpcode(b: bytes): (rest: bytes)
    requires b != []
    ensures |rest| < |b|
  {
    var op, tail := b[0], b[1..];
    if 1 <= op <= 0x4b then (if op <= |tail| then tail[op..] else [])
    else if op == 0x4c then SkipPush(tail, 1)
    else if op == 0x4d then SkipPush(tail, 2)
    else if op == 0x4e then SkipPush(tail, 4)
    else tail
  }

  function ListOpcodes(b: bytes): bytes
    decreases |b|
  {
    if b == [] then [] else [b[0]] + ListOpcodes(AfterOpcode(b))
  }

  lemma WalkFollowsParse(b: bytes)
    requires NextItem(b).Got?
    ensures AfterOpcode(b) == NextItem(b).rest
  {
    var tail := b[1..];
    if 0x4c <= b[0] <= 0x4e {
      var width := if b[0] == 0x4c then 1 else if b[0] == 0x4d then 2 else 4;
      var n := FromLE(tail[..width]);
      assert tail[width..][n..] == tail[width + n..];
    }
  }

  function HeadByte(i: Item): byte {
    match i
    case Op(code) => code
    case Data(d) => Push(d)[0]
  }

  lemma WalkSkipsItem(item: Item, rest: bytes)
    requires Plain(item) && Bounded(item)
    ensures ListOpcodes(ItemBytes(item) + rest) == [HeadByte(item)] + ListOpcodes(rest)
  {
    NextOfItem(item, rest);
    WalkFollowsParse(ItemBytes(item) + rest);
  }

  /** The walk sees one opcode per item, and never a payload byte: pushes cannot hide or fake an opcode. */
  lemma {:induction false} WalkSeesItems(items: seq<Item>)
    requires forall i :: i in items ==> Plain(i) && Bounded(i)
    ensures ListOpcodes(Each(ItemBytes, items)) == Mapped(HeadByte, items)
  {
    if items != [] {
      WalkSkipsItem(items[0], Each(ItemBytes, items[1..]));
      WalkSeesItems(items[1..]);
      assert Mapped(HeadByte, items) == [HeadByte(items[0])] + Mapped(HeadByte, items[1..]);
    }
  }
}
