/** The BIP-143 signature digest: what it commits to under each hash type, and what it leaves free. */
module Sighash {
  import opened Wrappers
  import opened Bytes
  import opened Concatenation
  import opened TxCodec

  const ALL := 0x01
  const NONE := 0x02
  const SINGLE := 0x03

  function Base(hashType: nat): nat { hashType % 0x20 }

  predicate ForkId(hashType: nat) { hashType / 0x40 % 2 == 1 }

  predicate AnyoneCanPay(hashType: nat) { hashType / 0x80 % 2 == 1 }

  function Double(h: Hash, b: bytes): Digest {
    h(h(b))
  }

  function EncPrevout(i: TxInput): bytes {
    i.prevTxid + LE(i.prevVout, 4)
  }

  function EncSequence(i: TxInput): bytes {
    LE(i.sequence, 4)
  }

  function HashPrevouts(h: Hash, tx: Tx, hashType: nat): Digest {
    if AnyoneCanPay(hashType) then Zeros(32) else Double(h, Each(EncPrevout, tx.inputs))
  }

  function HashSequence(h: Hash, tx: Tx, hashType: nat): Digest {
    if AnyoneCanPay(hashType) || Base(hashType) == NONE || Base(hashType) == SINGLE then Zeros(32)
    else Double(h, Each(EncSequence, tx.inputs))
  }

  function HashOutputs(h: Hash, tx: Tx, idx: nat, hashType: nat): Digest {
    if Base(hashType) == ALL then Double(h, Each(EncOutput, tx.outputs))
    else if Base(hashType) == SINGLE && idx < |tx.outputs| then Double(h, EncOutput(tx.outputs[idx]))
    else Zeros(32)
  }

  function Preimage(h: Hash, tx: Tx, idx: nat, prevScript: bytes, prevValue: nat, hashType: nat): bytes
    requires idx < |tx.inputs|
  {
    I32(tx.version) + (HashPrevouts(h, tx, hashType) + (HashSequence(h, tx, hashType) + (tx.inputs[idx].prevTxid +
    (LE(tx.inputs[idx].prevVout, 4) + (Varint(|prevScript|) + (prevScript + (LE(prevValue, 8) +
    (LE(tx.inputs[idx].sequence, 4) + (HashOutputs(h, tx, idx, hashType) +
    (LE(tx.lockTime, 4) + LE(hashType, 4)))))))))))
  }

  /** The digest, or None where the code throws. */
  function ComputeSighash(h: Hash, tx: Tx, idx: int, prevScript: bytes, prevValue: nat, hashType: nat): Option<Digest> {
    if !ForkId(hashType) || idx < 0 || idx >= |tx.inputs| then None
    else Some(Double(h, Preimage(h, tx, idx, prevScript, prevValue, hashType)))
  }

  /** The helpers' loops push parts and hash their concatenation. */
  method HashOutputsLoop(h: Hash, tx: Tx, idx: nat, hashType: nat) returns (r: Digest)
    ensures r == HashOutputs(h, tx, idx, hashType)
  {
    if Base(hashType) == ALL {
      var parts: seq<bytes> := [];
      for i := 0 to |tx.outputs|
        invariant |parts| == i && forall k :: 0 <= k < i ==> parts[k] == EncOutput(tx.outputs[k])
      {
        parts := parts + [EncOutput(tx.outputs[i])];
      }
      FlatMany(EncOutput, tx.outputs, parts);
      var all := ConcatParts(parts);
      return Double(h, all);
    }
    if Base(hashType) == SINGLE && idx < |tx.outputs| {
      return Double(h, EncOutput(tx.outputs[idx]));
    }
    return Zeros(32);
  }

  method HashPrevoutsLoop(h: Hash, tx: Tx, hashType: nat) returns (r: Digest)
    ensures r == HashPrevouts(h, tx, hashType)
  {
    if AnyoneCanPay(hashType) {
      return Zeros(32);
    }
    var parts: seq<bytes> := [];
    for i := 0 to |tx.inputs|
      invariant Flat(parts) == Each(EncPrevout, tx.inputs[..i])
    {
      var pair := [tx.inputs[i].prevTxid, LE(tx.inputs[i].prevVout, 4)];
      FlatPair(pair[0], pair[1]);
      FlatConcat(parts, pair);
      EachNext(EncPrevout, tx.inputs, i);
      parts := parts + pair;
    }
    assert tx.inputs[..|tx.inputs|] == tx.inputs;
    var all := ConcatParts(parts);
    return Double(h, all);
  }

  method HashSequenceLoop(h: Hash, tx: Tx, hashType: nat) returns (r: Digest)
    ensures r == HashSequence(h, tx, hashType)
  {
    if AnyoneCanPay(hashType) || Base(hashType) == NONE || Base(hashType) == SINGLE {
      return Zeros(32);
    }
    var parts: seq<bytes> := [];
    for i := 0 to |tx.inputs|
      invariant |parts| == i && forall k :: 0 <= k < i ==> parts[k] == EncSequence(tx.inputs[k])
    {
      parts := parts + [EncSequence(tx.inputs[i])];
    }
    FlatMany(EncSequence, tx.inputs, parts);
    var all := ConcatParts(parts);
    return Double(h, all);
  }

  /** The whole digest from the three loops. */
  method SighashOf(h: Hash, tx: Tx, idx: int, prevScript: bytes, prevValue: nat, hashType: nat)
    returns (r: Option<Digest>)
    ensures r == ComputeSighash(h, tx, idx, prevScript, prevValue, hashType)
  {
    if !ForkId(hashType) || idx < 0 || idx >= |tx.inputs| {
      return None;
    }
    var prevouts := HashPrevoutsLoop(h, tx, hashType);
    var sequences := HashSequenceLoop(h, tx, hashType);
    var outputs := HashOutputsLoop(h, tx, idx, hashType);
    var i := tx.inputs[idx];
    var preimage := I32(tx.version) + (prevouts + (sequences + (i.prevTxid + (LE(i.prevVout, 4) +
      (Varint(|prevScript|) + (prevScript + (LE(prevValue, 8) + (LE(i.sequence, 4) + (outputs +
      (LE(tx.lockTime, 4) + LE(hashType, 4)))))))))));
    return Some(Double(h, preimage));
  }

  // ----- independence of unlocking scripts -----

  /** Equal except for unlocking scripts. */
  ghost predicate SameUnsigned(a: Tx, b: Tx) {
    a.version == b.version && a.outputs == b.outputs && a.lockTime == b.lockTime && |a.inputs| == |b.inputs| &&
    forall i :: 0 <= i < |a.inputs| ==> WithoutScript(a.inputs[i]) == WithoutScript(b.inputs[i])
  }

  function WithoutScript(i: TxInput): TxInput {
    i.(unlockingScript := [])
  }

  lemma {:induction false} SameMany(enc: TxInput -> bytes, a: seq<TxInput>, b: seq<TxInput>)
    requires |a| == |b| && forall i :: 0 <= i < |a| ==> enc(a[i]) == enc(b[i])
    ensures Each(enc, a) == Each(enc, b)
  {
    if a != [] {
      SameMany(enc, a[1..], b[1..]);
    }
  }

  /** Whatever the hash type, the digest never sees an unlocking script. */
  lemma IgnoresUnlockingScripts(h: Hash, a: Tx, b: Tx, idx: int, prevScript: bytes, prevValue: nat, hashType: nat)
    requires SameUnsigned(a, b)
    ensures ComputeSighash(h, a, idx, prevScript, prevValue, hashType) ==
        ComputeSighash(h, b, idx, prevScript, prevValue, hashType)
  {
    forall i | 0 <= i < |a.inputs|
      ensures EncPrevout(a.inputs[i]) == EncPrevout(b.inputs[i]) && EncSequence(a.inputs[i]) == EncSequence(b.inputs[i])
    {
      var x, y := a.inputs[i].(unlockingScript := []), b.inputs[i].(unlockingScript := []);
      assert x.prevTxid == y.prevTxid && x.prevVout == y.prevVout && x.sequence == y.sequence;
    }
    SameMany(EncPrevout, a.inputs, b.inputs);
    SameMany(EncSequence, a.inputs, b.inputs);
    if 0 <= idx < |a.inputs| {
      assert EncPrevout(a.inputs[idx]) == EncPrevout(b.inputs[idx]);
      var x, y := a.inputs[idx].(unlockingScript := []), b.inputs[idx].(unlockingScript := []);
      assert x.prevTxid == y.prevTxid && x.prevVout == y.prevVout && x.sequence == y.sequence;
    }
  }

  /** What a wallet needs to sign one input: the coin's script and value, the hash type, and a signer. */
  datatype Spend = Spend(prevScript: bytes, prevValue: nat, hashType: nat)

  type Signer = (nat, Option<Digest>) -> bytes

  function Unlock(h: Hash, tx: Tx, spends: seq<Spend>, sign: Signer, i: nat): bytes
    requires i < |spends|
  {
    sign(i, ComputeSighash(h, tx, i, spends[i].prevScript, spends[i].prevValue, spends[i].hashType))
  }

  /** Sign the inputs one after another in the given order, each digest taken over what is there by then. */
  function SignInOrder(h: Hash, tx: Tx, spends: seq<Spend>, sign: Signer, order: seq<nat>): Tx
    requires |spends| == |tx.inputs| && forall k :: 0 <= k < |order| ==> order[k] < |tx.inputs|
    decreases |order|
  {
    if order == [] then tx
    else
      var i := order[0];
      var signed := tx.(inputs := tx.inputs[i := tx.inputs[i].(unlockingScript := Unlock(h, tx, spends, sign, i))]);
      SignInOrder(h, signed, spends, sign, order[1..])
  }

  /** Signing in any order gives each listed input the script computed over the unsigned transaction. */
  lemma {:induction false} SigningOrderIsFree(h: Hash, tx: Tx, tx0: Tx, spends: seq<Spend>, sign: Signer,
      order: seq<nat>)
    requires |spends| == |tx.inputs| && (forall k :: 0 <= k < |order| ==> order[k] < |tx.inputs|) &&
        SameUnsigned(tx, tx0)
    ensures var done := SignInOrder(h, tx, spends, sign, order);
            SameUnsigned(done, tx0) &&
            forall i :: 0 <= i < |tx.inputs| ==>
              done.inputs[i].unlockingScript ==
              if i in order then Unlock(h, tx0, spends, sign, i) else tx.inputs[i].unlockingScript
    decreases |order|
  {
    if order != [] {
      var i := order[0];
      var signed := tx.(inputs := tx.inputs[i := tx.inputs[i].(unlockingScript := Unlock(h, tx, spends, sign, i))]);
      IgnoresUnlockingScripts(h, tx, tx0, i, spends[i].prevScript, spends[i].prevValue, spends[i].hashType);
      SigningOrderIsFree(h, signed, tx0, spends, sign, order[1..]);
      assert order == [i] + order[1..];
    }
  }
}
