/** Exactly which fields a signature digest binds, for every hash type. */
module SighashBinding {
  import opened Wrappers
  import opened Bytes
  import opened Concatenation
  import opened TxCodec
  import opened Sighash

  /** The fields that enter the digest under a hash type; None where the code writes 32 zero bytes. */
  datatype Covered = Covered(
    version: int, prevouts: Option<seq<(bytes, nat)>>, sequences: Option<seq<nat>>,
    prevTxid: bytes, prevVout: nat, scriptCode: bytes, value: nat, sequence: nat,
    outputs: Option<seq<TxOutput>>, lockTime: nat, hashType: nat)

  function OutpointOf(i: TxInput): (bytes, nat) { (i.prevTxid, i.prevVout) }

  function Outpoints(s: seq<TxInput>): (r: seq<(bytes, nat)>)
    ensures |r| == |s|
  {
    seq(|s|, i requires 0 <= i < |s| => OutpointOf(s[i]))
  }

  function SequencesOf(s: seq<TxInput>): (r: seq<nat>)
    ensures |r| == |s|
  {
    seq(|s|, i requires 0 <= i < |s| => s[i].sequence)
  }

  function CoveredBy(tx: Tx, idx: nat, prevScript: bytes, prevValue: nat, hashType: nat): Covered
    requires idx < |tx.inputs|
  {
    var i := tx.inputs[idx];
    Covered(
      tx.version,
      if AnyoneCanPay(hashType) then None else Some(Outpoints(tx.inputs)),
      if AnyoneCanPay(hashType) || Base(hashType) == NONE || Base(hashType) == SINGLE then None
      else Some(SequencesOf(tx.inputs)),
      i.prevTxid, i.prevVout, prevScript, prevValue, i.sequence,
      if Base(hashType) == ALL then Some(tx.outputs)
      else if Base(hashType) == SINGLE && idx < |tx.outputs| then Some([tx.outputs[idx]])
      else None,
      tx.lockTime, hashType)
  }

  // ----- lists without a count -----

  lemma {:induction false} ManyInjective<T(!new)>(enc: T -> bytes, valid: T -> bool, a: seq<T>, b: seq<T>)
    requires Delimits(enc, valid, (x: T) => x) && (forall x :: valid(x) ==> enc(x) != [])
    requires (forall x :: x in a ==> valid(x)) && (forall x :: x in b ==> valid(x))
    requires Each(enc, a) == Each(enc, b)
    ensures a == b
  {
    if a != [] && b != [] {
      assert enc(a[0]) + Each(enc, a[1..]) == enc(b[0]) + Each(enc, b[1..]);
      ManyInjective(enc, valid, a[1..], b[1..]);
      assert a == [a[0]] + a[1..] && b == [b[0]] + b[1..];
    }
  }

  function EncOutpoint(o: (bytes, nat)): bytes { o.0 + LE(o.1, 4) }
  function EncNumber(n: nat): bytes { LE(n, 4) }
  predicate ValidOutpoint(o: (bytes, nat)) { |o.0| == 32 && o.1 < U32 }
  predicate ValidNumber(n: nat) { n < U32 }

  lemma OutpointsDelimit()
    ensures Delimits(EncOutpoint, ValidOutpoint, (o: (bytes, nat)) => o)
  {
    forall x: (bytes, nat), y: (bytes, nat), r: bytes, s: bytes
      | ValidOutpoint(x) && ValidOutpoint(y) && EncOutpoint(x) + r == EncOutpoint(y) + s
      ensures x == y && r == s
    {
      Widths();
      SplitSameLength(EncOutpoint(x), r, EncOutpoint(y), s);
      SplitSameLength(x.0, LE(x.1, 4), y.0, LE(y.1, 4));
      LEInjective(x.1, y.1, 4);
    }
  }

  lemma NumbersDelimit()
    ensures Delimits(EncNumber, ValidNumber, (n: nat) => n)
  {
    forall x: nat, y: nat, r: bytes, s: bytes | ValidNumber(x) && ValidNumber(y) && EncNumber(x) + r == EncNumber(y) + s
      ensures x == y && r == s
    {
      Widths();
      SplitSameLength(EncNumber(x), r, EncNumber(y), s);
      LEInjective(x, y, 4);
    }
  }

  lemma OutputsDelimit()
    ensures Delimits(EncOutput, ValidOutput, (o: TxOutput) => o)
  {
    forall x: TxOutput, y: TxOutput, r: bytes, s: bytes | ValidOutput(x) && ValidOutput(y) &&
      EncOutput(x) + r == EncOutput(y) + s
      ensures x == y && r == s
    {
      OutputDecodes(x, r);
      OutputDecodes(y, s);
    }
  }

  lemma {:induction false} OutpointBytes(s: seq<TxInput>)
    ensures Each(EncPrevout, s) == Each(EncOutpoint, Outpoints(s))
  {
    if s != [] {
      OutpointBytes(s[1..]);
      assert Outpoints(s)[1..] == Outpoints(s[1..]);
    }
  }

  lemma {:induction false} SequenceBytes(s: seq<TxInput>)
    ensures Each(EncSequence, s) == Each(EncNumber, SequencesOf(s))
  {
    if s != [] {
      SequenceBytes(s[1..]);
      assert SequencesOf(s)[1..] == SequencesOf(s[1..]);
    }
  }

  // ----- the three sub-hashes -----

  /** A digest field: 32 zero bytes, or the double hash of some bytes. */
  datatype Part = Zero | Hashed(input: bytes)

  function Digested(h: Hash, p: Part): Digest {
    if p.Zero? then Zeros(32) else Double(h, p.input)
  }

  function PrevoutsPart(c: Covered): Part {
    if c.prevouts.None? then Zero else Hashed(Each(EncOutpoint, c.prevouts.value))
  }

  function SequencesPart(c: Covered): Part {
    if c.sequences.None? then Zero else Hashed(Each(EncNumber, c.sequences.value))
  }

  function OutputsPart(c: Covered): Part {
    if c.outputs.None? then Zero else Hashed(Each(EncOutput, c.outputs.value))
  }

  /** The hash inputs behind one part. */
  ghost function PartInputs(h: Hash, p: Part): set<bytes> {
    if p.Zero? then {} else {p.input, h(p.input)}
  }

  function CoveredBytes(h: Hash, c: Covered): bytes {
    I32(c.version) + (Digested(h, PrevoutsPart(c)) + (Digested(h, SequencesPart(c)) + (c.prevTxid +
    (LE(c.prevVout, 4) + (Varint(|c.scriptCode|) + (c.scriptCode + (LE(c.value, 8) +
    (LE(c.sequence, 4) + (Digested(h, OutputsPart(c)) + (LE(c.lockTime, 4) + LE(c.hashType, 4)))))))))))
  }

  /** Every input hashed to make the digest. */
  ghost function HashInputs(h: Hash, c: Covered): set<bytes> {
    PartInputs(h, PrevoutsPart(c)) + PartInputs(h, SequencesPart(c)) + PartInputs(h, OutputsPart(c))
    + {CoveredBytes(h, c), h(CoveredBytes(h, c))}
  }

  /** The digest is a function of the covered fields alone. */
  lemma PreimageIsCovered(h: Hash, tx: Tx, idx: nat, prevScript: bytes, prevValue: nat, hashType: nat)
    requires idx < |tx.inputs|
    ensures Preimage(h, tx, idx, prevScript, prevValue, hashType)
            == CoveredBytes(h, CoveredBy(tx, idx, prevScript, prevValue, hashType))
  {
    var c := CoveredBy(tx, idx, prevScript, prevValue, hashType);
    OutpointBytes(tx.inputs);
    SequenceBytes(tx.inputs);
    assert HashPrevouts(h, tx, hashType) == Digested(h, PrevoutsPart(c));
    assert HashSequence(h, tx, hashType) == Digested(h, SequencesPart(c));
    assert HashOutputs(h, tx, idx, hashType) == Digested(h, OutputsPart(c)) by {
      if Base(hashType) == SINGLE && idx < |tx.outputs| {
        OneOutput(tx.outputs[idx]);
      }
    }
  }

  lemma OneOutput(o: TxOutput)
    ensures Each(EncOutput, [o]) == EncOutput(o)
  {
    var one := [o];
    assert one[1..] == [] && Each(EncOutput, one[1..]) == [];
  }

  ghost predicate ValidCovered(c: Covered) {
    -I31 <= c.version < I31 && |c.prevTxid| == 32 && c.prevVout < U32 && |c.scriptCode| < U64 && c.value < U64 &&
    c.sequence < U32 && c.lockTime < U32 && c.hashType < U32 &&
    (c.prevouts.Some? ==> forall o :: o in c.prevouts.value ==> ValidOutpoint(o)) &&
    (c.sequences.Some? ==> forall n :: n in c.sequences.value ==> ValidNumber(n)) &&
    (c.outputs.Some? ==> forall o :: o in c.outputs.value ==> ValidOutput(o))
  }

  lemma PartsEqual(h: Hash, a: Part, b: Part, inputs: set<bytes>)
    requires Digested(h, a) == Digested(h, b) && (a.Zero? <==> b.Zero?)
    requires PartInputs(h, a) <= inputs && PartInputs(h, b) <= inputs && CollisionFreeOn(h, inputs)
    ensures a == b
  {
  }

  lemma VarintField(s: bytes, r: bytes, t: bytes, q: bytes)
    requires |s| < U64 && |t| < U64 && Varint(|s|) + (s + r) == Varint(|t|) + (t + q)
    ensures s == t && r == q
  {
    ReadVarintOfVarint(|s|, s + r);
    ReadVarintOfVarint(|t|, t + q);
    SplitSameLength(s, r, t, q);
  }

  /** Equal preimages have equal fixed fields, script and digest fields. */
  lemma FieldsEqual(h: Hash, a: Covered, b: Covered)
    requires ValidCovered(a) && ValidCovered(b) && CoveredBytes(h, a) == CoveredBytes(h, b)
    ensures a.version == b.version && a.prevTxid == b.prevTxid && a.prevVout == b.prevVout &&
        a.scriptCode == b.scriptCode
    ensures a.value == b.value && a.sequence == b.sequence && a.lockTime == b.lockTime && a.hashType == b.hashType
    ensures Digested(h, PrevoutsPart(a)) == Digested(h, PrevoutsPart(b))
    ensures Digested(h, SequencesPart(a)) == Digested(h, SequencesPart(b))
    ensures Digested(h, OutputsPart(a)) == Digested(h, OutputsPart(b))
  {
    Widths();
    var a9 := LE(a.lockTime, 4) + LE(a.hashType, 4);
    var b9 := LE(b.lockTime, 4) + LE(b.hashType, 4);
    var a8, b8 := Digested(h, OutputsPart(a)) + a9, Digested(h, OutputsPart(b)) + b9;
    var a7, b7 := LE(a.sequence, 4) + a8, LE(b.sequence, 4) + b8;
    var a6, b6 := LE(a.value, 8) + a7, LE(b.value, 8) + b7;
    var a5, b5 := Varint(|a.scriptCode|) + (a.scriptCode + a6), Varint(|b.scriptCode|) + (b.scriptCode + b6);
    var a4, b4 := LE(a.prevVout, 4) + a5, LE(b.prevVout, 4) + b5;
    var a3, b3 := a.prevTxid + a4, b.prevTxid + b4;
    var a2, b2 := Digested(h, SequencesPart(a)) + a3, Digested(h, SequencesPart(b)) + b3;
    var a1, b1 := Digested(h, PrevoutsPart(a)) + a2, Digested(h, PrevoutsPart(b)) + b2;
    SplitSameLength(I32(a.version), a1, I32(b.version), b1);
    SplitSameLength(Digested(h, PrevoutsPart(a)), a2, Digested(h, PrevoutsPart(b)), b2);
    SplitSameLength(Digested(h, SequencesPart(a)), a3, Digested(h, SequencesPart(b)), b3);
    SplitSameLength(a.prevTxid, a4, b.prevTxid, b4);
    SplitSameLength(LE(a.prevVout, 4), a5, LE(b.prevVout, 4), b5);
    VarintField(a.scriptCode, a6, b.scriptCode, b6);
    SplitSameLength(LE(a.value, 8), a7, LE(b.value, 8), b7);
    SplitSameLength(LE(a.sequence, 4), a8, LE(b.sequence, 4), b8);
    SplitSameLength(Digested(h, OutputsPart(a)), a9, Digested(h, OutputsPart(b)), b9);
    SplitSameLength(LE(a.lockTime, 4), LE(a.hashType, 4), LE(b.lockTime, 4), LE(b.hashType, 4));
    NumbersEqual(a, b);
  }

  lemma NumbersEqual(a: Covered, b: Covered)
    requires ValidCovered(a) && ValidCovered(b)
    requires I32(a.version) == I32(b.version) && LE(a.prevVout, 4) == LE(b.prevVout, 4) &&
        LE(a.value, 8) == LE(b.value, 8)
    requires LE(a.sequence, 4) == LE(b.sequence, 4) && LE(a.lockTime, 4) == LE(b.lockTime, 4) &&
        LE(a.hashType, 4) == LE(b.hashType, 4)
    ensures a.version == b.version && a.prevVout == b.prevVout && a.value == b.value
    ensures a.sequence == b.sequence && a.lockTime == b.lockTime && a.hashType == b.hashType
  {
    Widths();
    LEInjective(a.version % U32, b.version % U32, 4);
    SignedRoundTrip(a.version);
    SignedRoundTrip(b.version);
    LEInjective(a.prevVout, b.prevVout, 4);
    LEInjective(a.value, b.value, 8);
    LEInjective(a.sequence, b.sequence, 4);
    LEInjective(a.lockTime, b.lockTime, 4);
    LEInjective(a.hashType, b.hashType, 4);
  }

  /** The hash type decides which parts are zero, except for SINGLE without a matching output. */
  ghost predicate SameShape(a: Covered, b: Covered) {
    (a.prevouts.None? <==> b.prevouts.None?) && (a.sequences.None? <==> b.sequences.None?) &&
    (a.outputs.None? <==> b.outputs.None?)
  }

  lemma CoveredInjective(h: Hash, a: Covered, b: Covered)
    requires ValidCovered(a) && ValidCovered(b) && CoveredBytes(h, a) == CoveredBytes(h, b) && SameShape(a, b)
    requires CollisionFreeOn(h, HashInputs(h, a) + HashInputs(h, b))
    ensures a == b
  {
    var inputs := HashInputs(h, a) + HashInputs(h, b);
    FieldsEqual(h, a, b);
    PartsEqual(h, PrevoutsPart(a), PrevoutsPart(b), inputs);
    PartsEqual(h, SequencesPart(a), SequencesPart(b), inputs);
    PartsEqual(h, OutputsPart(a), OutputsPart(b), inputs);
    OutpointsDelimit();
    NumbersDelimit();
    OutputsDelimit();
    if a.prevouts.Some? {
      ManyInjective(EncOutpoint, ValidOutpoint, a.prevouts.value, b.prevouts.value);
    }
    if a.sequences.Some? {
      ManyInjective(EncNumber, ValidNumber, a.sequences.value, b.sequences.value);
    }
    if a.outputs.Some? {
      ManyInjective(EncOutput, ValidOutput, a.outputs.value, b.outputs.value);
    }
  }

  // ----- the theorem -----

  /** One request to sign: a transaction in range, an input of it, the coin it spends, and a hash type. */
  datatype Request = Request(tx: Tx, idx: nat, prevScript: bytes, prevValue: nat, hashType: nat)

  ghost predicate ValidRequest(r: Request) {
    ValidTx(r.tx) && r.idx < |r.tx.inputs| && |r.prevScript| < U64 && r.prevValue < U64 && r.hashType < U32 &&
    ForkId(r.hashType)
  }

  ghost function View(r: Request): Covered
    requires ValidRequest(r)
  {
    CoveredBy(r.tx, r.idx, r.prevScript, r.prevValue, r.hashType)
  }

  ghost function DigestOf(h: Hash, r: Request): Option<Digest> {
    ComputeSighash(h, r.tx, r.idx, r.prevScript, r.prevValue, r.hashType)
  }

  lemma ViewIsValid(r: Request)
    requires ValidRequest(r)
    ensures ValidCovered(View(r))
  {
    var i := r.tx.inputs[r.idx];
    assert ValidInput(i);
    forall o | o in Outpoints(r.tx.inputs)
      ensures ValidOutpoint(o)
    {
      var k :| 0 <= k < |r.tx.inputs| && Outpoints(r.tx.inputs)[k] == o;
      assert ValidInput(r.tx.inputs[k]);
    }
    forall n | n in SequencesOf(r.tx.inputs)
      ensures ValidNumber(n)
    {
      var k :| 0 <= k < |r.tx.inputs| && SequencesOf(r.tx.inputs)[k] == n;
      assert ValidInput(r.tx.inputs[k]);
    }
  }

  ghost predicate NoZeroDigest(h: Hash, inputs: set<bytes>) {
    forall x :: x in inputs ==> h(x) != Zeros(32)
  }

  lemma ShapesMatch(h: Hash, a: Request, b: Request)
    requires ValidRequest(a) && ValidRequest(b) && a.hashType == b.hashType
    requires Digested(h, OutputsPart(View(a))) == Digested(h, OutputsPart(View(b)))
    requires Base(a.hashType) == SINGLE ==> NoZeroDigest(h, HashInputs(h, View(a)) + HashInputs(h, View(b)))
    ensures SameShape(View(a), View(b))
  {
    var p, q := OutputsPart(View(a)), OutputsPart(View(b));
    assert p.Hashed? ==> h(p.input) in HashInputs(h, View(a));
    assert q.Hashed? ==> h(q.input) in HashInputs(h, View(b));
  }

  lemma DigestIsCovered(h: Hash, r: Request)
    requires ValidRequest(r)
    ensures DigestOf(h, r) == Some(Double(h, CoveredBytes(h, View(r))))
  {
    PreimageIsCovered(h, r.tx, r.idx, r.prevScript, r.prevValue, r.hashType);
  }

  /**
   * For every hash type, two digests are equal exactly when the covered fields are. SINGLE without a
   * matching output writes zeros, so there the hash must also not produce 32 zero bytes.
   */
  lemma DigestBindsExactlyTheCovered(h: Hash, a: Request, b: Request)
    requires ValidRequest(a) && ValidRequest(b)
    requires CollisionFreeOn(h, HashInputs(h, View(a)) + HashInputs(h, View(b)))
    requires Base(a.hashType) == SINGLE ==> NoZeroDigest(h, HashInputs(h, View(a)) + HashInputs(h, View(b)))
    ensures DigestOf(h, a) == DigestOf(h, b) <==> View(a) == View(b)
  {
    DigestIsCovered(h, a);
    DigestIsCovered(h, b);
    ViewIsValid(a);
    ViewIsValid(b);
    if DigestOf(h, a) == DigestOf(h, b) {
      SamePreimage(h, View(a), View(b));
      FieldsEqual(h, View(a), View(b));
      ShapesMatch(h, a, b);
      CoveredInjective(h, View(a), View(b));
    }
  }

  lemma SamePreimage(h: Hash, a: Covered, b: Covered)
    requires Double(h, CoveredBytes(h, a)) == Double(h, CoveredBytes(h, b))
    requires CollisionFreeOn(h, HashInputs(h, a) + HashInputs(h, b))
    ensures CoveredBytes(h, a) == CoveredBytes(h, b)
  {
    var x, y := CoveredBytes(h, a), CoveredBytes(h, b);
    var inputs := HashInputs(h, a) + HashInputs(h, b);
    assert x in inputs && y in inputs && h(x) in inputs && h(y) in inputs;
  }

  /** Lists of outpoints and sequences agree exactly when the inputs do, unlocking scripts aside. */
  lemma SameInputs(a: seq<TxInput>, b: seq<TxInput>)
    ensures Outpoints(a) == Outpoints(b) && SequencesOf(a) == SequencesOf(b) <==>
              |a| == |b| && forall i :: 0 <= i < |a| ==> WithoutScript(a[i]) == WithoutScript(b[i])
  {
    if Outpoints(a) == Outpoints(b) && SequencesOf(a) == SequencesOf(b) {
      assert |Outpoints(a)| == |Outpoints(b)|;
      forall i | 0 <= i < |a|
        ensures WithoutScript(a[i]) == WithoutScript(b[i])
      {
        assert Outpoints(a)[i] == Outpoints(b)[i] && SequencesOf(a)[i] == SequencesOf(b)[i];
      }
    }
    if |a| == |b| && forall i :: 0 <= i < |a| ==> WithoutScript(a[i]) == WithoutScript(b[i]) {
      forall i | 0 <= i < |a|
        ensures OutpointOf(a[i]) == OutpointOf(b[i]) && a[i].sequence == b[i].sequence
      {
        UnsignedFields(a[i], b[i]);
      }
    }
  }

  lemma UnsignedFields(x: TxInput, y: TxInput)
    ensures WithoutScript(x) == WithoutScript(y) <==> OutpointOf(x) == OutpointOf(y) && x.sequence == y.sequence
  {
    var u, v := WithoutScript(x), WithoutScript(y);
    assert u == v ==> u.prevTxid == v.prevTxid && u.prevVout == v.prevVout && u.sequence == v.sequence;
  }

  /** ALL without ANYONECANPAY, such as 0x41. */
  predicate CoversAll(hashType: nat) { Base(hashType) == ALL && !AnyoneCanPay(hashType) }

  /**
   * Under one ALL|FORKID type equal digests force two transactions that differ at most in unlocking scripts,
   * and the same script code, value and spent outpoint; and those are all it takes.
   */
  lemma AllForkIdBindsTheTransaction(h: Hash, a: Request, b: Request)
    requires ValidRequest(a) && ValidRequest(b) && a.hashType == b.hashType && CoversAll(a.hashType)
    requires CollisionFreeOn(h, HashInputs(h, View(a)) + HashInputs(h, View(b)))
    ensures DigestOf(h, a) == DigestOf(h, b) <==>
              SameUnsigned(a.tx, b.tx) && a.prevScript == b.prevScript && a.prevValue == b.prevValue &&
              WithoutScript(a.tx.inputs[a.idx]) == WithoutScript(b.tx.inputs[b.idx])
  {
    DigestBindsExactlyTheCovered(h, a, b);
    AllForkIdViews(a, b);
  }

  /** What ALL|FORKID covers, as fields of the two requests. */
  lemma AllForkIdViews(a: Request, b: Request)
    requires ValidRequest(a) && ValidRequest(b) && a.hashType == b.hashType && CoversAll(a.hashType)
    ensures View(a) == View(b) <==>
              SameUnsigned(a.tx, b.tx) && a.prevScript == b.prevScript && a.prevValue == b.prevValue &&
              WithoutScript(a.tx.inputs[a.idx]) == WithoutScript(b.tx.inputs[b.idx])
  {
    SameInputs(a.tx.inputs, b.tx.inputs);
    UnsignedFields(a.tx.inputs[a.idx], b.tx.inputs[b.idx]);
    AllViews(a, b);
  }

  lemma AllViews(a: Request, b: Request)
    requires ValidRequest(a) && ValidRequest(b) && a.hashType == b.hashType && CoversAll(a.hashType)
    ensures View(a) == View(b) <==>
              a.tx.version == b.tx.version && a.tx.outputs == b.tx.outputs && a.tx.lockTime == b.tx.lockTime &&
              Outpoints(a.tx.inputs) == Outpoints(b.tx.inputs) &&
                SequencesOf(a.tx.inputs) == SequencesOf(b.tx.inputs) &&
              a.prevScript == b.prevScript && a.prevValue == b.prevValue &&
              OutpointOf(a.tx.inputs[a.idx]) == OutpointOf(b.tx.inputs[b.idx]) &&
              a.tx.inputs[a.idx].sequence == b.tx.inputs[b.idx].sequence
  {
  }
}
