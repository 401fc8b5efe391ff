/** The bytes of the wire formats and of every hashed input, spelt out down to the single byte. */
module Layouts {
  import opened Wrappers
  import opened Bytes
  import opened Concatenation
  import opened CanonicalIO
  import opened Shuffle
  import opened CryptoCards
  import opened TxCodec
  import opened Sighash
  import opened Script
  import opened Der

  // ----- numbers and strings -----

  /** Two, four and eight bytes, the low byte first. */
  function Word2(n: nat): bytes { [n % 0x100, n / 0x100 % 0x100] }

  function Word4(n: nat): bytes {
    [n % 0x100, n / 0x100 % 0x100, n / 0x1_0000 % 0x100, n / 0x100_0000 % 0x100]
  }

  function Word8(n: nat): bytes { Word4(n % U32) + Word4(n / U32) }

  /** Bitcoin's compact size. */
  function CompactSize(n: nat): bytes {
    if n < 0xfd then [n]
    else if n <= 0xffff then [0xfd] + Word2(n)
    else if n <= 0xffff_ffff then [0xfe] + Word4(n)
    else [0xff] + Word8(n)
  }

  function SizedText(s: bytes): bytes { CompactSize(|s|) + s }

  lemma Numbers(n: nat)
    requires n < U64
    ensures LE(n, 2) == Word2(n) && LE(n, 4) == Word4(n) && LE(n, 8) == Word8(n) && Varint(n) == CompactSize(n)
  {
    TwoBytes(n);
    FourBytes(n);
    FourBytes(n % U32);
    FourBytes(n / U32);
    Halves(n, n % U32, n / U32);
  }

  lemma Strings(s: bytes)
    requires |s| < U64
    ensures Prefixed(s) == SizedText(s)
  {
    Numbers(|s|);
  }

  // ----- what the readers take -----

  lemma WordsRead(n: nat, rest: bytes)
    ensures n < U16 ==> ReadLE(Word2(n) + rest, 2) == Got(n, rest)
    ensures n < U32 ==> ReadLE(Word4(n) + rest, 4) == Got(n, rest)
    ensures n < U64 ==> ReadLE(Word8(n) + rest, 8) == Got(n, rest)
  {
    Widths();
    if n < U64 {
      Numbers(n);
      ReadLEOfLE(n, 8, rest);
    }
    if n < U32 {
      ReadLEOfLE(n, 4, rest);
    }
    if n < U16 {
      ReadLEOfLE(n, 2, rest);
    }
  }

  /** A compact size is read in any of its forms, also in a longer one than it needs. */
  lemma CompactSizesRead(n: nat, rest: bytes)
    ensures n < 0xfd ==> ReadVarint([n] + rest) == Got(n, rest)
    ensures n < U16 ==> ReadVarint([0xfd] + (Word2(n) + rest)) == Got(n, rest)
    ensures n < U32 ==> ReadVarint([0xfe] + (Word4(n) + rest)) == Got(n, rest)
    ensures n < U64 ==> ReadVarint([0xff] + (Word8(n) + rest)) == Got(n, rest)
  {
    WordsRead(n, rest);
    assert ([0xfd] + (Word2(n) + rest))[1..] == Word2(n) + rest;
    assert ([0xfe] + (Word4(n) + rest))[1..] == Word4(n) + rest;
    assert ([0xff] + (Word8(n) + rest))[1..] == Word8(n) + rest;
    if n < 0xfd {
      assert ([n] + rest)[1..] == rest;
    }
  }

  /** The rule-set reader refuses numbers above 2^53 - 1 and booleans other than 0 and 1. */
  lemma SafeReads(n: nat, x: byte, rest: bytes)
    requires n < U64
    ensures ParseU64(Word8(n) + rest) == if n <= 0x1F_FFFF_FFFF_FFFF then Got(n, rest) else Fail
    ensures ParseVarint([0xff] + (Word8(n) + rest)) == if n <= 0x1F_FFFF_FFFF_FFFF then Got(n, rest) else Fail
    ensures ParseBool([x] + rest) == if x == 0 then Got(false, rest) else if x == 1 then Got(true, rest) else Fail
  {
    WordsRead(n, rest);
    CompactSizesRead(n, rest);
    Widths();
    OneByte(x);
    ReadLEOfLE(x, 1, rest);
  }

  // ----- what is hashed -----

  lemma OneTag(n: byte)
    ensures LE(n, 2) == [n, 0] && LE(n, 1) == [n]
  {
    TwoBytes(n);
    OneByte(n);
    SmallByte(n);
  }

  lemma SmallByte(n: byte)
    ensures n % 256 == n && n / 0x100 % 256 == 0
  {
  }

  lemma EntropyIsHashed(h: Hash, entropy: bytes, playerId: bytes, gameId: bytes)
    ensures CommitEntropy(h, entropy, playerId, gameId) == h([5, 0] + (entropy + (playerId + gameId)))
  {
    OneTag(5);
  }

  lemma EntropiesAreHashed(h: Hash, entropies: seq<bytes>)
    requires |entropies| < U64
    ensures CombineEntropy(h, entropies) == h([7, 0] + (CompactSize(|entropies|) + Flat(entropies)))
  {
    OneTag(7);
    Numbers(|entropies|);
  }

  function DeckNonceBytes(combined: bytes): bytes {
    [7, 0] + (combined + Ascii("deck-nonce"))
  }

  function CardNonceBytes(combined: bytes, position: nat): bytes {
    [8, 0] + (combined + (Ascii("card-nonce") + Word4(position)))
  }

  /** One card: ordinal, its own nonce, the deck's nonce. */
  function CardBytes(ordinal: byte, cardNonce: bytes, deckNonce: bytes): bytes {
    [8, 0] + ([ordinal] + (cardNonce + deckNonce))
  }

  lemma NonceNames()
    ensures DECK_NONCE == Ascii("deck-nonce") && CARD_NONCE == Ascii("card-nonce")
  {
  }

  lemma NoncesAreHashed(h: Hash, combined: bytes, position: nat)
    requires position < U32
    ensures DeckNonce(h, combined) == h(DeckNonceBytes(combined))
    ensures CardNonce(h, combined, position) == h(CardNonceBytes(combined, position))
  {
    OneTag(7);
    OneTag(8);
    Numbers(position);
    NonceNames();
  }

  lemma CardIsHashed(h: Hash, ordinal: int, cardNonce: bytes, deckNonce: bytes)
    ensures CommitCard(h, ordinal, cardNonce, deckNonce) ==
            if 0 <= ordinal <= 53 && |cardNonce| == 32 && |deckNonce| == 32
            then Some(h(CardBytes(ordinal, cardNonce, deckNonce))) else None
  {
    OneTag(8);
    if 0 <= ordinal <= 53 {
      OneTag(ordinal);
    }
  }

  /** Row i of a deck, down to the hashed bytes: card i of the shuffled deck under the two derived nonces. */
  ghost predicate RowIs(h: Hash, combined: bytes, d: Deck, i: nat) {
    i < |d.rows| && i < |d.shuffled| && 0 <= d.shuffled[i] <= 53 &&
    var r := d.rows[i];
    r.position == i && r.ordinal == d.shuffled[i] && r.deckNonce == h(DeckNonceBytes(combined)) &&
    r.cardNonce == h(CardNonceBytes(combined, i)) && r.commitment == h(CardBytes(r.ordinal, r.cardNonce, r.deckNonce))
  }

  lemma RowIsHashed(h: Hash, combined: bytes, d: Deck, i: nat)
    requires i < |d.rows| && i < |d.shuffled| && i < U32 && 0 <= d.shuffled[i] <= 53
    requires d.rows[i] == RowAt(h, combined, d.shuffled, i)
    ensures RowIs(h, combined, d, i)
  {
    NoncesAreHashed(h, combined, i);
    CardIsHashed(h, d.shuffled[i], CardNonce(h, combined, i), DeckNonce(h, combined));
  }

  /** Position i commits to the i-th shuffled card; the deck hash covers the commitments in that order. */
  lemma DeckIsHashed(h: Hash, combined: bytes, deckSize: nat, version: nat)
    ensures DeckOf(h, combined, deckSize, version).Some? <==>
              version == 1 && ShuffledDeck(h, combined, deckSize).Some?
    ensures DeckOf(h, combined, deckSize, version).Some? ==>
              var d := DeckOf(h, combined, deckSize, version).value;
              d.shuffled == ShuffledDeck(h, combined, deckSize).value && |d.rows| == deckSize &&
              (forall i :: 0 <= i < deckSize ==> RowIs(h, combined, d, i)) &&
              d.hash == h([7, 0] + ([1] + Flat(Commitments(d.rows))))
  {
    if DeckOf(h, combined, deckSize, version).Some? {
      var d := DeckOf(h, combined, deckSize, version).value;
      ShuffledOrdinals(h, combined, deckSize);
      forall i | 0 <= i < deckSize
        ensures RowIs(h, combined, d, i)
      {
        RowIsHashed(h, combined, d, i);
      }
      OneTag(7);
      OneTag(1);
    }
  }

  // ----- transactions -----

  /** An input on the wire. */
  function InputBytes(i: TxInput): bytes {
    i.prevTxid + Word4(i.prevVout) + SizedText(i.unlockingScript) + Word4(i.sequence)
  }

  function OutputBytes(o: TxOutput): bytes {
    Word8(o.value) + SizedText(o.lockingScript)
  }

  function AllInputs(s: seq<TxInput>): (parts: seq<bytes>)
    ensures |parts| == |s|
  {
    seq(|s|, i requires 0 <= i < |s| => InputBytes(s[i]))
  }

  function AllOutputs(s: seq<TxOutput>): (parts: seq<bytes>)
    ensures |parts| == |s|
  {
    seq(|s|, i requires 0 <= i < |s| => OutputBytes(s[i]))
  }

  lemma InputIs(i: TxInput)
    requires ValidInput(i)
    ensures EncInput(i) == InputBytes(i)
  {
    Numbers(i.prevVout);
    Numbers(|i.unlockingScript|);
    Numbers(i.sequence);
    assert i.prevTxid + Word4(i.prevVout) + SizedText(i.unlockingScript) ==
           i.prevTxid + Word4(i.prevVout) + CompactSize(|i.unlockingScript|) + i.unlockingScript;
  }

  lemma OutputIs(o: TxOutput)
    requires ValidOutput(o)
    ensures EncOutput(o) == OutputBytes(o)
  {
    Numbers(o.value);
    Numbers(|o.lockingScript|);
    Assoc(Word8(o.value), CompactSize(|o.lockingScript|), o.lockingScript);
  }

  lemma OutputsAre(s: seq<TxOutput>)
    requires forall i :: 0 <= i < |s| ==> ValidOutput(s[i])
    ensures Each(EncOutput, s) == Flat(AllOutputs(s))
  {
    forall i | 0 <= i < |s|
      ensures AllOutputs(s)[i] == EncOutput(s[i])
    {
      OutputIs(s[i]);
    }
    FlatMany(EncOutput, s, AllOutputs(s));
  }

  lemma InputsAre(s: seq<TxInput>)
    requires forall i :: 0 <= i < |s| ==> ValidInput(s[i])
    ensures Each(EncInput, s) == Flat(AllInputs(s))
  {
    forall i | 0 <= i < |s|
      ensures AllInputs(s)[i] == EncInput(s[i])
    {
      InputIs(s[i]);
    }
    FlatMany(EncInput, s, AllInputs(s));
  }

  /** A transaction on the wire: version, counted inputs, counted outputs, lock time. */
  lemma TransactionIs(tx: Tx)
    requires ValidTx(tx)
    ensures EncodeTx(tx) ==
            Some(Word4(tx.version % U32) + CompactSize(|tx.inputs|) + Flat(AllInputs(tx.inputs)) +
                 CompactSize(|tx.outputs|) + Flat(AllOutputs(tx.outputs)) + Word4(tx.lockTime))
  {
    Numbers(tx.version % U32);
    Numbers(|tx.inputs|);
    Numbers(|tx.outputs|);
    Numbers(tx.lockTime);
    InputsAre(tx.inputs);
    OutputsAre(tx.outputs);
  }

  /** Only an outpoint id of another length is refused. */
  lemma WhichTransactionsEncode(tx: Tx)
    ensures EncodeTx(tx).Some? <==> forall i :: 0 <= i < |tx.inputs| ==> |tx.inputs[i].prevTxid| == 32
  {
  }

  // ----- the signature digest -----

  function SpentOutpoint(i: TxInput): bytes { i.prevTxid + Word4(i.prevVout) }

  function OutpointParts(s: seq<TxInput>): (parts: seq<bytes>)
    ensures |parts| == |s|
  {
    seq(|s|, i requires 0 <= i < |s| => SpentOutpoint(s[i]))
  }

  function SequenceParts(s: seq<TxInput>): (parts: seq<bytes>)
    ensures |parts| == |s|
  {
    seq(|s|, i requires 0 <= i < |s| => Word4(s[i].sequence))
  }

  lemma InputHashes(s: seq<TxInput>)
    requires forall i :: 0 <= i < |s| ==> ValidInput(s[i])
    ensures Each(EncPrevout, s) == Flat(OutpointParts(s)) && Each(EncSequence, s) == Flat(SequenceParts(s))
  {
    forall i | 0 <= i < |s|
      ensures OutpointParts(s)[i] == EncPrevout(s[i]) && SequenceParts(s)[i] == EncSequence(s[i])
    {
      Numbers(s[i].prevVout);
      Numbers(s[i].sequence);
    }
    FlatMany(EncPrevout, s, OutpointParts(s));
    FlatMany(EncSequence, s, SequenceParts(s));
  }

  /** Bit 7 of the hash type; its low five bits. */
  predicate OneInput(hashType: nat) { hashType / 0x80 % 2 == 1 }

  function Low5(hashType: nat): nat { hashType % 0x20 }

  /** The three 32-byte fields that depend on the hash type. */
  ghost predicate HashFields(h: Hash, tx: Tx, idx: nat, hashType: nat, a: bytes, b: bytes, c: bytes) {
    a == (if OneInput(hashType) then Zeros(32) else h(h(Flat(OutpointParts(tx.inputs))))) &&
    b == (if OneInput(hashType) || Low5(hashType) == 2 || Low5(hashType) == 3 then Zeros(32)
          else h(h(Flat(SequenceParts(tx.inputs))))) &&
    c == if Low5(hashType) == 1 then h(h(Flat(AllOutputs(tx.outputs))))
         else if Low5(hashType) == 3 && idx < |tx.outputs| then h(h(OutputBytes(tx.outputs[idx])))
         else Zeros(32)
  }

  lemma HashFieldsAre(h: Hash, tx: Tx, idx: nat, hashType: nat)
    requires ValidTx(tx)
    ensures HashFields(h, tx, idx, hashType,
              HashPrevouts(h, tx, hashType), HashSequence(h, tx, hashType), HashOutputs(h, tx, idx, hashType))
  {
    InputHashes(tx.inputs);
    OutputsAre(tx.outputs);
    if idx < |tx.outputs| {
      OutputIs(tx.outputs[idx]);
    }
  }

  /** What is signed, field by field: the fixed front, the script code, the fixed back. */
  ghost predicate SignedBytes(
    p: bytes, tx: Tx, idx: nat, script: bytes, value: nat, hashType: nat, a: bytes, b: bytes, c: bytes)
    requires idx < |tx.inputs|
  {
    var n := |p|;
    n == 156 + |SizedText(script)| &&
    p[..4] == Word4(tx.version % U32) && p[4..36] == a && p[36..68] == b &&
    p[68..100] == tx.inputs[idx].prevTxid && p[100..104] == Word4(tx.inputs[idx].prevVout) &&
    p[104..n - 52] == SizedText(script) &&
    p[n - 52..n - 44] == Word8(value) && p[n - 44..n - 40] == Word4(tx.inputs[idx].sequence) &&
    p[n - 40..n - 8] == c && p[n - 8..n - 4] == Word4(tx.lockTime) && p[n - 4..n] == Word4(hashType)
  }

  lemma FrontSlices(v: bytes, a: bytes, b: bytes, id: bytes, out: bytes, rest: bytes)
    requires |v| == 4 && |a| == 32 && |b| == 32 && |id| == 32 && |out| == 4
    ensures var p := v + (a + (b + (id + (out + rest))));
            |p| == 104 + |rest| && p[..4] == v && p[4..36] == a && p[36..68] == b && p[68..100] == id &&
            p[100..104] == out && p[104..] == rest
  {
  }

  lemma BackSlices(text: bytes, value: bytes, seq4: bytes, c: bytes, lock: bytes, kind: bytes)
    requires |value| == 8 && |seq4| == 4 && |c| == 32 && |lock| == 4 && |kind| == 4
    ensures var q := text + (value + (seq4 + (c + (lock + kind))));
            var n := |q|;
            n == |text| + 52 && q[0..n - 52] == text && q[n - 52..n - 44] == value && q[n - 44..n - 40] == seq4 &&
            q[n - 40..n - 8] == c && q[n - 8..n - 4] == lock && q[n - 4..n] == kind
  {
  }

  lemma SlicesJoin(p: bytes, k: nat, q: bytes, i: nat, j: nat)
    requires k <= |p| && p[k..] == q && i <= j <= |q|
    ensures k + j <= |p| && p[k + i..k + j] == q[i..j]
  {
    forall x | i <= x < j
      ensures p[k + x] == q[x]
    {
      assert p[k..][x] == p[k + x];
    }
  }

  lemma PreimageSlices(h: Hash, tx: Tx, idx: nat, script: bytes, value: nat, hashType: nat)
    requires ValidTx(tx) && idx < |tx.inputs| && |script| < U64 && value < U64 && hashType < U32
    ensures SignedBytes(Preimage(h, tx, idx, script, value, hashType), tx, idx, script, value, hashType,
              HashPrevouts(h, tx, hashType), HashSequence(h, tx, hashType), HashOutputs(h, tx, idx, hashType))
  {
    var i, p := tx.inputs[idx], Preimage(h, tx, idx, script, value, hashType);
    var a, b, c := HashPrevouts(h, tx, hashType), HashSequence(h, tx, hashType), HashOutputs(h, tx, idx, hashType);
    Numbers(tx.version % U32);
    Numbers(i.prevVout);
    Numbers(|script|);
    Numbers(value);
    Numbers(i.sequence);
    Numbers(tx.lockTime);
    Numbers(hashType);
    var back := Word8(value) + (Word4(i.sequence) + (c + (Word4(tx.lockTime) + Word4(hashType))));
    Assoc(CompactSize(|script|), script, back);
    BackSlices(SizedText(script), Word8(value), Word4(i.sequence), c, Word4(tx.lockTime), Word4(hashType));
    var q := SizedText(script) + back;
    assert p == Word4(tx.version % U32) + (a + (b + (i.prevTxid + (Word4(i.prevVout) + q))));
    FrontSlices(Word4(tx.version % U32), a, b, i.prevTxid, Word4(i.prevVout), q);
    var m := |q|;
    SlicesJoin(p, 104, q, 0, m - 52);
    SlicesJoin(p, 104, q, m - 52, m - 44);
    SlicesJoin(p, 104, q, m - 44, m - 40);
    SlicesJoin(p, 104, q, m - 40, m - 8);
    SlicesJoin(p, 104, q, m - 8, m - 4);
    SlicesJoin(p, 104, q, m - 4, m);
  }

  /**
   * The digest in terms of the hash alone: twice over a string fixed by its slices, whose three hash fields are
   * again hashed twice, or zero where the hash type says so. Requests without bit 6 or without the input are refused.
   */
  lemma DigestIs(h: Hash, tx: Tx, idx: int, script: bytes, value: nat, hashType: nat)
    returns (p: bytes, a: bytes, b: bytes, c: bytes)
    requires ValidTx(tx) && |script| < U64 && value < U64 && hashType < U32
    ensures ComputeSighash(h, tx, idx, script, value, hashType).Some? <==>
              hashType / 0x40 % 2 == 1 && 0 <= idx < |tx.inputs|
    ensures ComputeSighash(h, tx, idx, script, value, hashType).Some? ==>
              ComputeSighash(h, tx, idx, script, value, hashType) == Some(h(h(p))) &&
              SignedBytes(p, tx, idx, script, value, hashType, a, b, c) &&
              HashFields(h, tx, idx, hashType, a, b, c)
  {
    p, a, b, c := [], [], [], [];
    if 0 <= idx < |tx.inputs| {
      p := Preimage(h, tx, idx, script, value, hashType);
      a, b, c := HashPrevouts(h, tx, hashType), HashSequence(h, tx, hashType), HashOutputs(h, tx, idx, hashType);
      PreimageSlices(h, tx, idx, script, value, hashType);
      HashFieldsAre(h, tx, idx, hashType);
    }
  }

  // ----- scripts and signatures -----

  /** The seven forms of a push, by the data's length and, for one byte, its value. */
  lemma PushIs(d: bytes)
    requires |d| < U32
    ensures |d| == 0 ==> Push(d) == [0x00]
    ensures |d| == 1 && 1 <= d[0] <= 16 ==> Push(d) == [0x50 + d[0]]
    ensures |d| == 1 && d[0] == 0x81 ==> Push(d) == [0x4f]
    ensures (|d| == 1 && !(1 <= d[0] <= 16) && d[0] != 0x81) || 2 <= |d| <= 75 ==> Push(d) == [|d|] + d
    ensures 75 < |d| <= 0xff ==> Push(d) == [0x4c, |d|] + d
    ensures 0xff < |d| <= 0xffff ==> Push(d) == [0x4d] + Word2(|d|) + d
    ensures 0xffff < |d| ==> Push(d) == [0x4e] + Word4(|d|) + d
  {
    if |d| > 0xffff {
      assert [0x4e] + Word4(|d|) == LongHead(|d|);
    } else if |d| > 0xff {
      assert [0x4d] + Word2(|d|) == LongHead(|d|);
    }
  }

  /** A DER signature: a SEQUENCE of two INTEGERs, each with the shortest non-negative body of its number. */
  lemma SignatureIs(r: nat, s: nat) returns (x: bytes, y: bytes)
    requires r < Pow256(32) && s < Pow256(32)
    ensures 1 <= |x| <= 33 && 1 <= |y| <= 33 && MinimalPositive(x) && MinimalPositive(y)
    ensures FromBE(x) == r && FromBE(y) == s
    ensures Signature(r, s) == [0x30, 4 + |x| + |y|, 0x02, |x|] + x + [0x02, |y|] + y
  {
    x, y := Body(BigEndian(r)), Body(BigEndian(s));
    SmallBody(r);
    SmallBody(s);
    TwoIntegers(x, y);
  }

  lemma TwoIntegers(x: bytes, y: bytes)
    requires 1 <= |x| <= 33 && 1 <= |y| <= 33
    ensures Tlv(0x30, Tlv(0x02, x) + Tlv(0x02, y)) == [0x30, 4 + |x| + |y|, 0x02, |x|] + x + [0x02, |y|] + y
  {
  }
}
