/** The transaction decoder as written: one cursor that every read moves forward. */
module TxCursor {
  import opened Wrappers
  import opened Bytes
  import opened TxCodec

  ghost predicate IsInputParser(parse: bytes -> Parsed<TxInput>) {
    forall b {:trigger parse(b), ParseInput(b)} :: parse(b) == ParseInput(b)
  }

  ghost predicate IsOutputParser(parse: bytes -> Parsed<TxOutput>) {
    forall b {:trigger parse(b), ParseOutput(b)} :: parse(b) == ParseOutput(b)
  }

  /** Prepend what was already decoded. */
  function Prepend<T>(done: seq<T>, p: Parsed<seq<T>>): Parsed<seq<T>> {
    if p.Fail? then Fail else Got(done + p.value, p.rest)
  }

  lemma PrependNothing<T>(p: Parsed<seq<T>>)
    ensures Prepend([], p) == p
  {
    assert p.Got? ==> [] + p.value == p.value;
  }

  /** One more element read: the rest of the list is one shorter. */
  lemma PrependOne<T>(parse: bytes -> Parsed<T>, done: seq<T>, b: bytes, n: nat)
    requires n > 0
    ensures var whole := Prepend(done, ParseMany(parse, b, n));
            match parse(b)
            case Fail => whole.Fail?
            case Got(x, rest) => whole == Prepend(done + [x], ParseMany(parse, rest, n - 1))
  {
    var first := parse(b);
    if first.Got? {
      var others := ParseMany(parse, first.rest, n - 1);
      if others.Got? {
        assert done + ([first.value] + others.value) == (done + [first.value]) + others.value;
      }
    }
  }

  lemma PrependAll<T>(parse: bytes -> Parsed<T>, done: seq<T>, b: bytes)
    ensures Prepend(done, ParseMany(parse, b, 0)) == Got(done, b)
  {
    assert done + [] == done;
  }

  class Cursor {
    const buf: bytes
    var pos: nat

    ghost predicate Valid()
      reads this
    {
      pos <= |buf|
    }

    ghost function Unread(): bytes
      reads this
      requires Valid()
    {
      buf[pos..]
    }

    constructor (buf: bytes)
      ensures Valid() && Unread() == buf
    {
      this.buf, pos := buf, 0;
    }

    /** readU8, readU16LE, readU32LE and readU64LE: k little-endian bytes. None where the code throws. */
    method ReadFixed(k: nat) returns (r: Option<nat>)
      requires Valid()
      modifies this
      ensures Valid() && After(ReadLE(old(Unread()), k), r, Unread())
    {
      if pos + k > |buf| {
        return None;
      }
      r := Some(FromLE(buf[pos..pos + k]));
      assert buf[pos..][..k] == buf[pos..pos + k] && buf[pos..][k..] == buf[pos + k..];
      pos := pos + k;
    }

    method ReadRaw(n: nat) returns (r: Option<bytes>)
      requires Valid()
      modifies this
      ensures Valid() && After(ReadBytes(old(Unread()), n), r, Unread())
    {
      if pos + n > |buf| {
        return None;
      }
      r := Some(buf[pos..pos + n]);
      assert buf[pos..][..n] == buf[pos..pos + n] && buf[pos..][n..] == buf[pos + n..];
      pos := pos + n;
    }

    method ReadVarInt() returns (r: Option<nat>)
      requires Valid()
      modifies this
      ensures Valid() && After(ReadVarint(old(Unread())), r, Unread())
    {
      if pos >= |buf| {
        return None;
      }
      var first := buf[pos];
      assert buf[pos..][0] == first && buf[pos..][1..] == buf[pos + 1..];
      pos := pos + 1;
      if first < 0xfd {
        return Some(first);
      }
      if first == 0xfd {
        r := ReadFixed(2);
      } else if first == 0xfe {
        r := ReadFixed(4);
      } else {
        r := ReadFixed(8);
      }
    }

    method ReadInput(ghost parse: bytes -> Parsed<TxInput>) returns (r: Option<TxInput>)
      requires Valid() && IsInputParser(parse)
      modifies this
      ensures Valid() && After(parse(old(Unread())), r, Unread())
    {
      assert parse(Unread()) == ParseInput(Unread());
      var prevTxid := ReadRaw(32);
      if prevTxid.None? { return None; }
      var prevVout := ReadFixed(4);
      if prevVout.None? { return None; }
      var scriptLen := ReadVarInt();
      if scriptLen.None? { return None; }
      var script := ReadRaw(scriptLen.value);
      if script.None? { return None; }
      var sequence := ReadFixed(4);
      if sequence.None? { return None; }
      return Some(TxInput(prevTxid.value, prevVout.value, script.value, sequence.value));
    }

    method ReadOutput(ghost parse: bytes -> Parsed<TxOutput>) returns (r: Option<TxOutput>)
      requires Valid() && IsOutputParser(parse)
      modifies this
      ensures Valid() && After(parse(old(Unread())), r, Unread())
    {
      assert parse(Unread()) == ParseOutput(Unread());
      var value := ReadFixed(8);
      if value.None? { return None; }
      var scriptLen := ReadVarInt();
      if scriptLen.None? { return None; }
      var script := ReadRaw(scriptLen.value);
      if script.None? { return None; }
      return Some(TxOutput(value.value, script.value));
    }

    method ReadInputs(count: nat, ghost parse: bytes -> Parsed<TxInput>) returns (r: Option<seq<TxInput>>)
      requires Valid() && IsInputParser(parse)
      modifies this
      ensures Valid() && After(ParseMany(parse, old(Unread()), count), r, Unread())
    {
      var inputs: seq<TxInput> := [];
      ghost var whole := ParseMany(parse, Unread(), count);
      PrependNothing(whole);
      for i := 0 to count
        invariant Valid() && Prepend(inputs, ParseMany(parse, Unread(), count - i)) == whole
      {
        PrependOne(parse, inputs, Unread(), count - i);
        var input := ReadInput(parse);
        if input.None? { return None; }
        inputs := inputs + [input.value];
      }
      PrependAll(parse, inputs, Unread());
      return Some(inputs);
    }

    method ReadOutputs(count: nat, ghost parse: bytes -> Parsed<TxOutput>) returns (r: Option<seq<TxOutput>>)
      requires Valid() && IsOutputParser(parse)
      modifies this
      ensures Valid() && After(ParseMany(parse, old(Unread()), count), r, Unread())
    {
      var outputs: seq<TxOutput> := [];
      ghost var whole := ParseMany(parse, Unread(), count);
      PrependNothing(whole);
      for i := 0 to count
        invariant Valid() && Prepend(outputs, ParseMany(parse, Unread(), count - i)) == whole
      {
        PrependOne(parse, outputs, Unread(), count - i);
        var output := ReadOutput(parse);
        if output.None? { return None; }
        outputs := outputs + [output.value];
      }
      PrependAll(parse, outputs, Unread());
      return Some(outputs);
    }
  }

  /** The decoder's loop body order: version, inputs, outputs, lock time, then no byte may be left. */
  method Decode(buf: bytes) returns (r: Option<Tx>)
    ensures r == DecodeTx(buf)
  {
    var c := new Cursor(buf);
    var version := c.ReadFixed(4);
    if version.None? { return None; }
    var inputCount := c.ReadVarInt();
    if inputCount.None? { return None; }
    var inputs := c.ReadInputs(inputCount.value, ParseInput);
    if inputs.None? { return None; }
    var outputCount := c.ReadVarInt();
    if outputCount.None? { return None; }
    var outputs := c.ReadOutputs(outputCount.value, ParseOutput);
    if outputs.None? { return None; }
    var lockTime := c.ReadFixed(4);
    if lockTime.None? || c.pos != |c.buf| { return None; }
    return Some(Tx(ToSigned(version.value), inputs.value, outputs.value, lockTime.value));
  }
}
