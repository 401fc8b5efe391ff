/** The BSV transaction wire format: encoder, cursor-based decoder, and how they invert each other. */
module TxCodec {
  import opened Wrappers
  import opened Bytes
  import opened Concatenation

  datatype TxInput = TxInput(prevTxid: bytes, prevVout: nat, unlockingScript: bytes, sequence: nat)

  datatype TxOutput = TxOutput(value: nat, lockingScript: bytes)

  datatype Tx = Tx(version: int, inputs: seq<TxInput>, outputs: seq<TxOutput>, lockTime: nat)

  const I31: int := 0x8000_0000

  // ----- encoder -----

  /** setInt32: two's complement in four bytes. */
  function I32(v: int): bytes {
    LE(v % U32, 4)
  }

  function EncInput(i: TxInput): bytes {
    i.prevTxid + LE(i.prevVout, 4) + Varint(|i.unlockingScript|) + i.unlockingScript + LE(i.sequence, 4)
  }

  function EncOutput(o: TxOutput): bytes {
    LE(o.value, 8) + Varint(|o.lockingScript|) + o.lockingScript
  }

  function TxBytes(tx: Tx): bytes {
    I32(tx.version) + Varint(|tx.inputs|) + Each(EncInput, tx.inputs) +
    Varint(|tx.outputs|) + Each(EncOutput, tx.outputs) +
    LE(tx.lockTime, 4)
  }

  /** The bytes, or None where encInput throws. */
  function EncodeTx(tx: Tx): Option<bytes> {
    if exists i :: 0 <= i < |tx.inputs| && |tx.inputs[i].prevTxid| != 32 then None else Some(TxBytes(tx))
  }

  /** Push the parts in order and concatenate them. */
  method Encode(tx: Tx) returns (r: Option<bytes>)
    ensures r == EncodeTx(tx)
  {
    var ins: seq<bytes> := [];
    for i := 0 to |tx.inputs|
      invariant |ins| == i
      invariant forall k :: 0 <= k < i ==> ins[k] == EncInput(tx.inputs[k]) && |tx.inputs[k].prevTxid| == 32
    {
      if |tx.inputs[i].prevTxid| != 32 {
        return None;
      }
      ins := ins + [EncInput(tx.inputs[i])];
    }
    var outs: seq<bytes> := [];
    for i := 0 to |tx.outputs|
      invariant |outs| == i && forall k :: 0 <= k < i ==> outs[k] == EncOutput(tx.outputs[k])
    {
      outs := outs + [EncOutput(tx.outputs[i])];
    }
    var head, mid, tail := [I32(tx.version), Varint(|tx.inputs|)], [Varint(|tx.outputs|)], [LE(tx.lockTime, 4)];
    var out := ConcatParts(head + ins + mid + outs + tail);
    FlatMany(EncInput, tx.inputs, ins);
    FlatMany(EncOutput, tx.outputs, outs);
    FlatConcat(head, ins);
    FlatConcat(head + ins, mid);
    FlatConcat(head + ins + mid, outs);
    FlatConcat(head + ins + mid + outs, tail);
    FlatPair(I32(tx.version), Varint(|tx.inputs|));
    FlatOne(Varint(|tx.outputs|));
    FlatOne(LE(tx.lockTime, 4));
    return Some(out);
  }

  // ----- decoder, as a function of the unread bytes -----

  function ToSigned(n: nat): int {
    if n < I31 then n else n - U32
  }

  function ParseInput(b: bytes): Parsed<TxInput> {
    var txid := ReadBytes(b, 32);
    if txid.Fail? then Fail else
    var vout := ReadLE(txid.rest, 4);
    if vout.Fail? then Fail else
    var len := ReadVarint(vout.rest);
    if len.Fail? then Fail else
    var script := ReadBytes(len.rest, len.value);
    if script.Fail? then Fail else
    var sequence := ReadLE(script.rest, 4);
    if sequence.Fail? then Fail else
    Got(TxInput(txid.value, vout.value, script.value, sequence.value), sequence.rest)
  }

  function ParseOutput(b: bytes): Parsed<TxOutput> {
    var value := ReadLE(b, 8);
    if value.Fail? then Fail else
    var len := ReadVarint(value.rest);
    if len.Fail? then Fail else
    var script := ReadBytes(len.rest, len.value);
    if script.Fail? then Fail else
    Got(TxOutput(value.value, script.value), script.rest)
  }

  function ParseMany<T>(parse: bytes -> Parsed<T>, b: bytes, n: nat): Parsed<seq<T>>
    decreases n
  {
    if n == 0 then Got([], b) else
    var first := parse(b);
    if first.Fail? then Fail else
    var others := ParseMany(parse, first.rest, n - 1);
    if others.Fail? then Fail else Got([first.value] + others.value, others.rest)
  }

  /** The decoded transaction, or None where the decoder throws. */
  function DecodeTx(b: bytes): Option<Tx> {
    var version := ReadLE(b, 4);
    if version.Fail? then None else
    var nIn := ReadVarint(version.rest);
    if nIn.Fail? then None else
    var inputs := ParseMany(ParseInput, nIn.rest, nIn.value);
    if inputs.Fail? then None else
    var nOut := ReadVarint(inputs.rest);
    if nOut.Fail? then None else
    var outputs := ParseMany(ParseOutput, nOut.rest, nOut.value);
    if outputs.Fail? then None else
    var lockTime := ReadLE(outputs.rest, 4);
    if lockTime.Fail? || lockTime.rest != [] then None else
    Some(Tx(ToSigned(version.value), inputs.value, outputs.value, lockTime.value))
  }

  // ----- which encodings are minimal -----

  predicate MinimalInput(b: bytes) {
    ParseInput(b).Got? && MinimalVarint(b[36..])
  }

  predicate MinimalOutput(b: bytes) {
    ParseOutput(b).Got? && MinimalVarint(b[8..])
  }

  predicate MinimalMany<T>(parse: bytes -> Parsed<T>, minimal: bytes -> bool, b: bytes, n: nat)
    requires ParseMany(parse, b, n).Got?
    decreases n
  {
    n > 0 ==> minimal(b) && MinimalMany(parse, minimal, parse(b).rest, n - 1)
  }

  /** Every varint of the wire form, counts and script lengths alike, is in its shortest form. */
  predicate MinimalTx(b: bytes)
    requires DecodeTx(b).Some?
  {
    var nIn := ReadVarint(b[4..]);
    var inputs := ParseMany(ParseInput, nIn.rest, nIn.value);
    var nOut := ReadVarint(inputs.rest);
    MinimalVarint(b[4..]) && MinimalMany(ParseInput, MinimalInput, nIn.rest, nIn.value) &&
    MinimalVarint(inputs.rest) && MinimalMany(ParseOutput, MinimalOutput, nOut.rest, nOut.value)
  }

  // ----- decode after encode -----

  predicate ValidInput(i: TxInput) {
    |i.prevTxid| == 32 && i.prevVout < U32 && |i.unlockingScript| < U64 && i.sequence < U32
  }

  predicate ValidOutput(o: TxOutput) {
    o.value < U64 && |o.lockingScript| < U64
  }

  predicate ValidTx(tx: Tx) {
    -I31 <= tx.version < I31 && tx.lockTime < U32 && |tx.inputs| < U64 && |tx.outputs| < U64 &&
    (forall i :: 0 <= i < |tx.inputs| ==> ValidInput(tx.inputs[i])) &&
    (forall i :: 0 <= i < |tx.outputs| ==> ValidOutput(tx.outputs[i]))
  }

  lemma InputDecodes(i: TxInput, rest: bytes)
    requires ValidInput(i)
    ensures ParseInput(EncInput(i) + rest) == Got(i, rest)
  {
    Widths();
    var r4 := LE(i.sequence, 4) + rest;
    var r3 := i.unlockingScript + r4;
    var r2 := Varint(|i.unlockingScript|) + r3;
    var r1 := LE(i.prevVout, 4) + r2;
    assert EncInput(i) + rest == i.prevTxid + r1;
    ReadBytesOf(i.prevTxid, r1);
    ReadLEOfLE(i.prevVout, 4, r2);
    ReadVarintOfVarint(|i.unlockingScript|, r3);
    ReadBytesOf(i.unlockingScript, r4);
    ReadLEOfLE(i.sequence, 4, rest);
  }

  lemma OutputDecodes(o: TxOutput, rest: bytes)
    requires ValidOutput(o)
    ensures ParseOutput(EncOutput(o) + rest) == Got(o, rest)
  {
    Widths();
    var r2 := o.lockingScript + rest;
    var r1 := Varint(|o.lockingScript|) + r2;
    Assoc(LE(o.value, 8) + Varint(|o.lockingScript|), o.lockingScript, rest);
    Assoc(LE(o.value, 8), Varint(|o.lockingScript|), r2);
    ReadLEOfLE(o.value, 8, r1);
    ReadVarintOfVarint(|o.lockingScript|, r2);
    ReadBytesOf(o.lockingScript, rest);
  }

  lemma {:induction false} ManyDecode<T>(enc: T -> bytes, parse: bytes -> Parsed<T>, s: seq<T>, rest: bytes)
    requires forall i, r {:trigger enc(s[i]) + r} :: 0 <= i < |s| ==> parse(enc(s[i]) + r) == Got(s[i], r)
    ensures ParseMany(parse, Each(enc, s) + rest, |s|) == Got(s, rest)
  {
    if s == [] {
      assert Each(enc, s) + rest == rest;
    } else {
      var tail := Each(enc, s[1..]) + rest;
      assert Each(enc, s) + rest == enc(s[0]) + tail;
      forall i, r | 0 <= i < |s[1..]|
        ensures parse(enc(s[1..][i]) + r) == Got(s[1..][i], r)
      {
        assert parse(enc(s[i + 1]) + r) == Got(s[i + 1], r);
      }
      ManyDecode(enc, parse, s[1..], rest);
      assert parse(enc(s[0]) + tail) == Got(s[0], tail);
      assert s == [s[0]] + s[1..];
    }
  }

  lemma InputsDecode(s: seq<TxInput>, rest: bytes)
    requires forall i :: 0 <= i < |s| ==> ValidInput(s[i])
    ensures ParseMany(ParseInput, Each(EncInput, s) + rest, |s|) == Got(s, rest)
  {
    forall i, r | 0 <= i < |s|
      ensures ParseInput(EncInput(s[i]) + r) == Got(s[i], r)
    {
      InputDecodes(s[i], r);
    }
    ManyDecode(EncInput, ParseInput, s, rest);
  }

  lemma OutputsDecode(s: seq<TxOutput>, rest: bytes)
    requires forall i :: 0 <= i < |s| ==> ValidOutput(s[i])
    ensures ParseMany(ParseOutput, Each(EncOutput, s) + rest, |s|) == Got(s, rest)
  {
    forall i, r | 0 <= i < |s|
      ensures ParseOutput(EncOutput(s[i]) + r) == Got(s[i], r)
    {
      OutputDecodes(s[i], r);
    }
    ManyDecode(EncOutput, ParseOutput, s, rest);
  }

  lemma SignedRoundTrip(v: int)
    requires -I31 <= v < I31
    ensures ToSigned(v % U32) == v
  {
    if v < 0 {
      assert v % U32 == v + U32;
    }
  }

  /** The decoder's six reads, in order, as one step. */
  lemma DecodeStages(
    b: bytes, v: nat, r1: bytes, r2: bytes, ins: seq<TxInput>, r3: bytes, r4: bytes, outs: seq<TxOutput>, r5: bytes,
      l: nat)
    requires ReadLE(b, 4) == Got(v, r1) && ReadVarint(r1) == Got(|ins|, r2)
    requires ParseMany(ParseInput, r2, |ins|) == Got(ins, r3) && ReadVarint(r3) == Got(|outs|, r4)
    requires ParseMany(ParseOutput, r4, |outs|) == Got(outs, r5) && ReadLE(r5, 4) == Got(l, [])
    ensures DecodeTx(b) == Some(Tx(ToSigned(v), ins, outs, l))
  {
  }

  lemma Concat6(a: bytes, b: bytes, c: bytes, d: bytes, e: bytes, f: bytes)
    ensures a + b + c + d + e + f == a + (b + (c + (d + (e + f))))
  {
  }

  /** Decoding an encoded transaction gives it back. */
  lemma DecodeEncode(tx: Tx)
    requires ValidTx(tx)
    ensures EncodeTx(tx).Some? && DecodeTx(EncodeTx(tx).value) == Some(tx)
  {
    Widths();
    var r5 := LE(tx.lockTime, 4);
    var r4 := Each(EncOutput, tx.outputs) + r5;
    var r3 := Varint(|tx.outputs|) + r4;
    var r2 := Each(EncInput, tx.inputs) + r3;
    var r1 := Varint(|tx.inputs|) + r2;
    Concat6(I32(tx.version), Varint(|tx.inputs|), Each(EncInput, tx.inputs), Varint(|tx.outputs|),
            Each(EncOutput, tx.outputs), r5);
    ReadLEOfLE(tx.version % U32, 4, r1);
    SignedRoundTrip(tx.version);
    ReadVarintOfVarint(|tx.inputs|, r2);
    InputsDecode(tx.inputs, r3);
    ReadVarintOfVarint(|tx.outputs|, r4);
    OutputsDecode(tx.outputs, r5);
    ReadLEOfLE(tx.lockTime, 4, []);
    assert r5 + [] == r5;
    DecodeStages(I32(tx.version) + r1, tx.version % U32, r1, r2, tx.inputs, r3, r4, tx.outputs, r5, tx.lockTime);
  }

  // ----- encode after decode -----

  /** Re-encoding what was read from b: the same bytes if the varints were minimal, else fewer. */
  ghost predicate Reencodes(b: bytes, enc: bytes, rest: bytes, minimal: bool) {
    (minimal ==> enc + rest == b) && (!minimal ==> |enc| + |rest| < |b|)
  }

  lemma Chain(b: bytes, e1: bytes, r1: bytes, m1: bool, e2: bytes, r2: bytes, m2: bool)
    requires Reencodes(b, e1, r1, m1) && Reencodes(r1, e2, r2, m2)
    ensures Reencodes(b, e1 + e2, r2, m1 && m2)
  {
    if m1 && m2 {
      assert (e1 + e2) + r2 == e1 + (e2 + r2);
    }
  }

  lemma FixedReencodes(b: bytes, k: nat)
    requires |b| >= k
    ensures FromLE(b[..k]) < Pow256(k) && Reencodes(b, LE(FromLE(b[..k]), k), b[k..], true)
  {
    LEOfReadLE(b, k);
  }

  lemma ChainFive(
    b: bytes, e1: bytes, b1: bytes, e2: bytes, b2: bytes, e3: bytes, b3: bytes, e4: bytes, b4: bytes,
    e5: bytes, b5: bytes, m: bool)
    requires Reencodes(b, e1, b1, true) && Reencodes(b1, e2, b2, true) && Reencodes(b2, e3, b3, m)
    requires Reencodes(b3, e4, b4, true) && Reencodes(b4, e5, b5, true)
    ensures Reencodes(b, e1 + e2 + e3 + e4 + e5, b5, m)
  {
    Chain(b, e1, b1, true, e2, b2, true);
    Chain(b, e1 + e2, b2, true, e3, b3, m);
    Chain(b, e1 + e2 + e3, b3, m, e4, b4, true);
    Chain(b, e1 + e2 + e3 + e4, b4, m, e5, b5, true);
  }

  lemma RawReencodes(b: bytes, n: nat)
    requires n <= |b|
    ensures Reencodes(b, b[..n], b[n..], true)
  {
    assert b[..n] + b[n..] == b;
  }

  lemma InputReencodes(b: bytes)
    requires ParseInput(b).Got?
    ensures var Got(i, rest) := ParseInput(b);
            ValidInput(i) && |rest| < |b| && Reencodes(b, EncInput(i), rest, MinimalInput(b))
  {
    Widths();
    var i := ParseInput(b).value;
    var b1 := b[32..];
    var b2 := b1[4..];
    assert b2 == b[36..];
    var b3, n := ReadVarint(b2).rest, ReadVarint(b2).value;
    var b4 := b3[n..];
    RawReencodes(b, 32);
    FixedReencodes(b1, 4);
    VarintOfReadVarint(b2);
    RawReencodes(b3, n);
    FixedReencodes(b4, 4);
    ChainFive(b, i.prevTxid, b1, LE(i.prevVout, 4), b2, Varint(n), b3, i.unlockingScript, b4,
              LE(i.sequence, 4), b4[4..], MinimalInput(b));
  }

  lemma OutputReencodes(b: bytes)
    requires ParseOutput(b).Got?
    ensures var Got(o, rest) := ParseOutput(b);
            ValidOutput(o) && |rest| < |b| && Reencodes(b, EncOutput(o), rest, MinimalOutput(b))
  {
    Widths();
    var o := ParseOutput(b).value;
    var b1 := b[8..];
    var m := MinimalOutput(b);
    var b2 := ReadVarint(b1).rest;
    var n := ReadVarint(b1).value;
    FixedReencodes(b, 8);
    VarintOfReadVarint(b1);
    Chain(b, LE(o.value, 8), b1, true, Varint(n), b2, m);
    Chain(b, LE(o.value, 8) + Varint(n), b2, m, o.lockingScript, b2[n..], true);
  }

  /** What one element's parser, encoder and minimality test must satisfy. */
  ghost predicate ReencodesParsed<T(!new)>(
    enc: T -> bytes, parse: bytes -> Parsed<T>, minimal: bytes -> bool, valid: T -> bool)
  {
    forall b {:trigger parse(b)} :: parse(b).Got? ==>
      valid(parse(b).value) && |parse(b).rest| < |b| && Reencodes(b, enc(parse(b).value), parse(b).rest, minimal(b))
  }

  lemma {:induction false} ManyReencode<T(!new)>(
    enc: T -> bytes, parse: bytes -> Parsed<T>, minimal: bytes -> bool, valid: T -> bool, b: bytes, n: nat)
    requires ReencodesParsed(enc, parse, minimal, valid) && ParseMany(parse, b, n).Got?
    ensures var Got(s, rest) := ParseMany(parse, b, n);
            |s| == n && (forall i :: 0 <= i < n ==> valid(s[i])) && n + |rest| <= |b| &&
            Reencodes(b, Each(enc, s), rest, MinimalMany(parse, minimal, b, n))
    decreases n
  {
    if n > 0 {
      var b1 := parse(b).rest;
      ManyReencode(enc, parse, minimal, valid, b1, n - 1);
      var s := ParseMany(parse, b, n).value;
      assert s[1..] == ParseMany(parse, b1, n - 1).value;
      Chain(b, enc(s[0]), b1, minimal(b), Each(enc, s[1..]), ParseMany(parse, b, n).rest,
        MinimalMany(parse, minimal, b1, n - 1));
    }
  }

  lemma InputsFaithful()
    ensures ReencodesParsed(EncInput, ParseInput, MinimalInput, ValidInput)
  {
    forall b | ParseInput(b).Got?
      ensures var Got(i, rest) := ParseInput(b);
              ValidInput(i) && |rest| < |b| && Reencodes(b, EncInput(i), rest, MinimalInput(b))
    {
      InputReencodes(b);
    }
  }

  lemma OutputsFaithful()
    ensures ReencodesParsed(EncOutput, ParseOutput, MinimalOutput, ValidOutput)
  {
    forall b | ParseOutput(b).Got?
      ensures var Got(o, rest) := ParseOutput(b);
              ValidOutput(o) && |rest| < |b| && Reencodes(b, EncOutput(o), rest, MinimalOutput(b))
    {
      OutputReencodes(b);
    }
  }

  lemma StagesReencode(
    b: bytes, b1: bytes, nIn: Parsed<nat>, ins: Parsed<seq<TxInput>>, nOut: Parsed<nat>, outs: Parsed<seq<TxOutput>>)
    requires |b| >= 4 && b1 == b[4..] && nIn == ReadVarint(b1) && nIn.Got?
    requires ins == ParseMany(ParseInput, nIn.rest, nIn.value) && ins.Got?
    requires nOut == ReadVarint(ins.rest) && nOut.Got?
    requires outs == ParseMany(ParseOutput, nOut.rest, nOut.value) && outs.Got?
    ensures |ins.value| == nIn.value < U64 && |outs.value| == nOut.value < U64
    ensures forall i :: 0 <= i < |ins.value| ==> ValidInput(ins.value[i])
    ensures forall i :: 0 <= i < |outs.value| ==> ValidOutput(outs.value[i])
    ensures Reencodes(
      b,
      LE(FromLE(b[..4]), 4) + Varint(nIn.value) + Each(EncInput, ins.value) + Varint(nOut.value) +
        Each(EncOutput, outs.value),
      outs.rest,
      MinimalVarint(b1) && MinimalMany(ParseInput, MinimalInput, nIn.rest, nIn.value) &&
      MinimalVarint(ins.rest) && MinimalMany(ParseOutput, MinimalOutput, nOut.rest, nOut.value))
  {
    var m1, m2, m3, m4 := MinimalVarint(b1), MinimalMany(ParseInput, MinimalInput, nIn.rest, nIn.value),
      MinimalVarint(ins.rest), MinimalMany(ParseOutput, MinimalOutput, nOut.rest, nOut.value);
    var e1, e2 := LE(FromLE(b[..4]), 4), Each(EncInput, ins.value);
    var e3, e4 := Varint(nOut.value), Each(EncOutput, outs.value);
    FixedReencodes(b, 4);
    VarintOfReadVarint(b1);
    InputsFaithful();
    ManyReencode(EncInput, ParseInput, MinimalInput, ValidInput, nIn.rest, nIn.value);
    VarintOfReadVarint(ins.rest);
    OutputsFaithful();
    ManyReencode(EncOutput, ParseOutput, MinimalOutput, ValidOutput, nOut.rest, nOut.value);
    Chain(b, e1, b1, true, Varint(nIn.value), nIn.rest, m1);
    Chain(b, e1 + Varint(nIn.value), nIn.rest, m1, e2, ins.rest, m2);
    Chain(b, e1 + Varint(nIn.value) + e2, ins.rest, m1 && m2, e3, nOut.rest, m3);
    Chain(b, e1 + Varint(nIn.value) + e2 + e3, nOut.rest, m1 && m2 && m3, e4, outs.rest, m4);
  }

  /** The steps of a decoding that succeeded. */
  lemma DecodedStages(b: bytes)
    returns (
      b1: bytes, nIn: Parsed<nat>, ins: Parsed<seq<TxInput>>, nOut: Parsed<nat>, outs: Parsed<seq<TxOutput>>)
    requires DecodeTx(b).Some?
    ensures |b| >= 4 && b1 == b[4..] && nIn == ReadVarint(b1) && nIn.Got?
    ensures ins == ParseMany(ParseInput, nIn.rest, nIn.value) && ins.Got?
    ensures nOut == ReadVarint(ins.rest) && nOut.Got?
    ensures outs == ParseMany(ParseOutput, nOut.rest, nOut.value) && outs.Got? && |outs.rest| == 4
    ensures DecodeTx(b).value == Tx(ToSigned(FromLE(b[..4])), ins.value, outs.value, FromLE(outs.rest[..4]))
    ensures MinimalTx(b) ==
            (MinimalVarint(b1) && MinimalMany(ParseInput, MinimalInput, nIn.rest, nIn.value) &&
             MinimalVarint(ins.rest) && MinimalMany(ParseOutput, MinimalOutput, nOut.rest, nOut.value))
  {
    b1 := b[4..];
    nIn := ReadVarint(b1);
    ins := ParseMany(ParseInput, nIn.rest, nIn.value);
    nOut := ReadVarint(ins.rest);
    outs := ParseMany(ParseOutput, nOut.rest, nOut.value);
  }

  lemma SignedWord(v: nat)
    requires v < U32
    ensures I32(ToSigned(v)) == LE(v, 4) && -0x8000_0000 <= ToSigned(v) < 0x8000_0000
  {
    assert ToSigned(v) % U32 == v;
  }

  lemma TxReencodes(b: bytes)
    requires DecodeTx(b).Some?
    ensures ValidTx(DecodeTx(b).value) && Reencodes(b, TxBytes(DecodeTx(b).value), [], MinimalTx(b))
  {
    Widths();
    var b1, nIn, ins, nOut, outs := DecodedStages(b);
    var tx := DecodeTx(b).value;
    StagesReencode(b, b1, nIn, ins, nOut, outs);
    FixedReencodes(b, 4);
    FixedReencodes(outs.rest, 4);
    SignedWord(FromLE(b[..4]));
    Chain(b, I32(tx.version) + Varint(nIn.value) + Each(EncInput, ins.value) + Varint(nOut.value) +
          Each(EncOutput, outs.value),
      outs.rest, MinimalTx(b), LE(tx.lockTime, 4), [], true);
  }

  /**
   * For any bytes that decode: the transaction is in range, its canonical bytes decode to it again, are
   * never longer, and equal the original exactly when every varint of the original was minimal.
   */
  lemma EncodeDecode(b: bytes)
    requires DecodeTx(b).Some?
    ensures var tx := DecodeTx(b).value;
            ValidTx(tx) && EncodeTx(tx).Some? && DecodeTx(EncodeTx(tx).value) == Some(tx) &&
            |EncodeTx(tx).value| <= |b| && (EncodeTx(tx).value == b <==> MinimalTx(b))
  {
    var tx := DecodeTx(b).value;
    TxReencodes(b);
    assert TxBytes(tx) + [] == TxBytes(tx);
    DecodeEncode(tx);
  }
}
