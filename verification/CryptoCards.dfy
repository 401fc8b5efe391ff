/** Commitments of the mental-poker deck: what is hashed, and what a reveal can open. */
module CryptoCards {
  import opened Wrappers
  import opened Bytes
  import opened Concatenation
  import opened Shuffle

  // ----- what the protocol hashes -----

  const DECK_NONCE: bytes := [100, 101, 99, 107, 45, 110, 111, 110, 99, 101]
  const CARD_NONCE: bytes := [99, 97, 114, 100, 45, 110, 111, 110, 99, 101]

  /** Every input that reaches SHA-256: five tagged payloads, two nonce derivations and the stream blocks. */
  datatype HashInput =
    | EntropyInput(entropy: bytes, playerId: bytes, gameId: bytes)
    | CombineInput(entropies: seq<bytes>)
    | DeckNonceInput(combined: bytes)
    | CardNonceInput(combined: bytes, position: nat)
    | CardInput(ordinal: nat, cardNonce: bytes, deckNonce: bytes)
    | DeckInput(version: nat, commitments: seq<bytes>)
    | BlockInput(seed: bytes, counter: nat)

  function HashedBytes(i: HashInput): bytes {
    match i
    case EntropyInput(e, p, g) => LE(5, 2) + (e + (p + g))
    case CombineInput(es) => LE(7, 2) + (Varint(|es|) + Flat(es))
    case DeckNonceInput(c) => LE(7, 2) + (c + DECK_NONCE)
    case CardNonceInput(c, position) => LE(8, 2) + (c + (CARD_NONCE + LE(position, 4)))
    case CardInput(o, cn, dn) => LE(8, 2) + (LE(o, 1) + (cn + dn))
    case DeckInput(v, cs) => LE(7, 2) + (LE(v, 1) + Flat(cs))
    case BlockInput(seed, c) => seed + LE(c, 4)
  }

  ghost predicate All32(parts: seq<bytes>) {
    forall i :: 0 <= i < |parts| ==> |parts[i]| == 32
  }

  /** The sizes the encoders insist on. */
  ghost predicate Sized(i: HashInput) {
    match i
    case EntropyInput(e, p, g) => |e| == 32 && |p| == 32 && |g| == 32
    case CombineInput(es) => All32(es) && |es| < U64
    case DeckNonceInput(c) => |c| == 32
    case CardNonceInput(c, position) => |c| == 32 && position < U32
    case CardInput(o, cn, dn) => o < 256 && |cn| == 32 && |dn| == 32
    case DeckInput(v, cs) => v == 1 && All32(cs) && |cs| in {52, 54}
    case BlockInput(seed, c) => |seed| == 32 && c < U32
  }

  lemma {:induction false} ConcatLength(parts: seq<bytes>)
    requires All32(parts)
    ensures |Flat(parts)| == 32 * |parts|
  {
    if parts != [] {
      ConcatLength(parts[1..]);
    }
  }

  lemma {:induction false} ConcatInjective(a: seq<bytes>, b: seq<bytes>)
    requires All32(a) && All32(b) && Flat(a) == Flat(b)
    ensures a == b
  {
    ConcatLength(a);
    ConcatLength(b);
    if a != [] {
      SplitSameLength(a[0], Flat(a[1..]), b[0], Flat(b[1..]));
      ConcatInjective(a[1..], b[1..]);
      assert a == [a[0]] + a[1..] && b == [b[0]] + b[1..];
    }
  }

  lemma EncodedLength(i: HashInput)
    requires Sized(i)
    ensures |HashedBytes(i)| ==
      match i
      case EntropyInput(_, _, _) => 98
      case CombineInput(es) => 2 + |Varint(|es|)| + 32 * |es|
      case DeckNonceInput(_) => 44
      case CardNonceInput(_, _) => 48
      case CardInput(_, _, _) => 67
      case DeckInput(_, cs) => 3 + 32 * |cs|
      case BlockInput(_, _) => 36
  {
    if i.CombineInput? {
      ConcatLength(i.entropies);
    } else if i.DeckInput? {
      ConcatLength(i.commitments);
    }
  }

  function Tag(i: HashInput): nat {
    match i
    case EntropyInput(_, _, _) => 5
    case CombineInput(_) => 7
    case DeckNonceInput(_) => 7
    case CardNonceInput(_, _) => 8
    case CardInput(_, _, _) => 8
    case DeckInput(_, _) => 7
    case BlockInput(_, _) => 0
  }

  lemma TagFirst(i: HashInput)
    requires !i.BlockInput?
    ensures |HashedBytes(i)| >= 2 && HashedBytes(i)[0] == Tag(i)
  {
    assert LE(Tag(i), 2)[0] == Tag(i);
    assert HashedBytes(i)[..2] == LE(Tag(i), 2);
    assert HashedBytes(i)[0] == HashedBytes(i)[..2][0];
  }

  lemma SameBytesSameKind(a: HashInput, b: HashInput)
    requires Sized(a) && Sized(b) && HashedBytes(a) == HashedBytes(b)
    ensures a.EntropyInput? <==> b.EntropyInput?
    ensures a.DeckNonceInput? <==> b.DeckNonceInput?
    ensures a.CardNonceInput? <==> b.CardNonceInput?
    ensures a.CardInput? <==> b.CardInput?
    ensures a.BlockInput? <==> b.BlockInput?
  {
    EncodedLength(a);
    EncodedLength(b);
    if !a.BlockInput? && !b.BlockInput? {
      TagFirst(a);
      TagFirst(b);
    }
  }

  /** A list of 52 or 54 entropies starts with that count; a deck starts with version 1. */
  lemma CombineIsNotDeck(a: HashInput, b: HashInput)
    requires a.CombineInput? && b.DeckInput? && Sized(a) && Sized(b)
    ensures HashedBytes(a) != HashedBytes(b)
  {
    EncodedLength(a);
    EncodedLength(b);
    if HashedBytes(a) == HashedBytes(b) {
      var n := |a.entropies|;
      assert n == |b.commitments|;
      CountIsNotVersion(n);
      SplitSameLength(LE(7, 2), Varint(n) + Flat(a.entropies), LE(7, 2), LE(1, 1) + Flat(b.commitments));
      SplitSameLength(Varint(n), Flat(a.entropies), LE(1, 1), Flat(b.commitments));
      assert false;
    }
  }

  lemma CountIsNotVersion(n: nat)
    requires n == 52 || n == 54
    ensures |Varint(n)| == |LE(1, 1)| && Varint(n) != LE(1, 1)
  {
    assert Varint(n)[0] == n && LE(1, 1)[0] == 1;
  }

  lemma SameKindInjective(a: HashInput, b: HashInput)
    requires Sized(a) && Sized(b) && HashedBytes(a) == HashedBytes(b)
    requires !a.CombineInput? && !b.CombineInput? && (a.DeckInput? <==> b.DeckInput?)
    ensures a == b
  {
    SameBytesSameKind(a, b);
    EncodedLength(a);
    EncodedLength(b);
    Widths();
    match a
    case EntropyInput(e, p, g) =>
      SplitSameLength(LE(5, 2), e + (p + g), LE(5, 2), b.entropy + (b.playerId + b.gameId));
      SplitSameLength(e, p + g, b.entropy, b.playerId + b.gameId);
      SplitSameLength(p, g, b.playerId, b.gameId);
    case DeckNonceInput(c) =>
      SplitSameLength(LE(7, 2), c + DECK_NONCE, LE(7, 2), b.combined + DECK_NONCE);
      SplitSameLength(c, DECK_NONCE, b.combined, DECK_NONCE);
    case CardNonceInput(c, position) =>
      SplitSameLength(LE(8, 2), c + (CARD_NONCE + LE(position, 4)), LE(8, 2),
        b.combined + (CARD_NONCE + LE(b.position, 4)));
      SplitSameLength(c, CARD_NONCE + LE(position, 4), b.combined, CARD_NONCE + LE(b.position, 4));
      SplitSameLength(CARD_NONCE, LE(position, 4), CARD_NONCE, LE(b.position, 4));
      LEInjective(position, b.position, 4);
    case CardInput(o, cn, dn) =>
      SplitSameLength(LE(8, 2), LE(o, 1) + (cn + dn), LE(8, 2), LE(b.ordinal, 1) + (b.cardNonce + b.deckNonce));
      SplitSameLength(LE(o, 1), cn + dn, LE(b.ordinal, 1), b.cardNonce + b.deckNonce);
      SplitSameLength(cn, dn, b.cardNonce, b.deckNonce);
      LEInjective(o, b.ordinal, 1);
    case DeckInput(v, cs) =>
      SplitSameLength(LE(7, 2), LE(1, 1) + Flat(cs), LE(7, 2), LE(1, 1) + Flat(b.commitments));
      SplitSameLength(LE(1, 1), Flat(cs), LE(1, 1), Flat(b.commitments));
      ConcatInjective(cs, b.commitments);
    case BlockInput(seed, c) =>
      SplitSameLength(seed, LE(c, 4), b.seed, LE(b.counter, 4));
      LEInjective(c, b.counter, 4);
  }

  lemma CombineInjective(a: HashInput, b: HashInput)
    requires Sized(a) && Sized(b) && HashedBytes(a) == HashedBytes(b) && a.CombineInput? && b.CombineInput?
    ensures a == b
  {
    var m, n := |a.entropies|, |b.entropies|;
    SplitSameLength(LE(7, 2), Varint(m) + Flat(a.entropies), LE(7, 2), Varint(n) + Flat(b.entropies));
    ReadVarintOfVarint(m, Flat(a.entropies));
    ReadVarintOfVarint(n, Flat(b.entropies));
    ConcatInjective(a.entropies, b.entropies);
  }

  /**
   * Domain separation: no two different well-sized inputs have the same bytes, whether of one kind or
   * of two, although the stream blocks carry no type tag at all.
   */
  lemma DomainsAreSeparate(a: HashInput, b: HashInput)
    requires Sized(a) && Sized(b)
    ensures HashedBytes(a) == HashedBytes(b) <==> a == b
  {
    if HashedBytes(a) == HashedBytes(b) {
      SameBytesSameKind(a, b);
      if a.CombineInput? && b.CombineInput? {
        CombineInjective(a, b);
      } else if a.CombineInput? {
        CombineIsNotDeck(a, b);
      } else if b.CombineInput? {
        CombineIsNotDeck(b, a);
      } else {
        SameKindInjective(a, b);
      }
    }
  }

  // ----- entropy -----

  function CommitEntropy(h: Hash, entropy: bytes, playerId: bytes, gameId: bytes): Digest {
    h(HashedBytes(EntropyInput(entropy, playerId, gameId)))
  }

  function CombineEntropy(h: Hash, entropies: seq<bytes>): Digest {
    h(HashedBytes(CombineInput(entropies)))
  }

  /** Count, then push each entropy; None where the code throws. */
  method CombineLoop(h: Hash, entropies: seq<bytes>) returns (r: Option<Digest>)
    ensures r == if entropies == [] || !All32(entropies) then None else Some(CombineEntropy(h, entropies))
  {
    if |entropies| == 0 {
      return None;
    }
    var parts := [Varint(|entropies|)];
    for i := 0 to |entropies|
      invariant All32(entropies[..i]) && parts == [Varint(|entropies|)] + entropies[..i]
    {
      if |entropies[i]| != 32 {
        return None;
      }
      parts := parts + [entropies[i]];
    }
    assert entropies[..|entropies|] == entropies;
    var payload := ConcatParts(parts);
    FlatOne(Varint(|entropies|));
    FlatConcat([Varint(|entropies|)], entropies);
    return Some(h(LE(7, 2) + payload));
  }

  /** One commitment opens to one entropy, player and game. */
  lemma CommitmentBinds(h: Hash, a: HashInput, b: HashInput)
    requires a.EntropyInput? && b.EntropyInput? && Sized(a) && Sized(b)
    requires CollisionFreeOn(h, {HashedBytes(a), HashedBytes(b)})
    ensures CommitEntropy(h, a.entropy, a.playerId, a.gameId) == CommitEntropy(h, b.entropy, b.playerId, b.gameId)
            <==> a == b
  {
    DomainsAreSeparate(a, b);
  }

  /** The bitwise operators ^ and | on non-negative numbers, bit by bit. */
  function Xor(x: nat, y: nat): nat {
    if x == 0 && y == 0 then 0 else (x + y) % 2 + 2 * Xor(x / 2, y / 2)
  }

  function Or(x: nat, y: nat): nat {
    if x == 0 && y == 0 then 0 else (if x % 2 == 1 || y % 2 == 1 then 1 else 0) + 2 * Or(x / 2, y / 2)
  }

  lemma {:induction false} XorZero(x: nat, y: nat)
    ensures Xor(x, y) == 0 <==> x == y
  {
    if x != 0 || y != 0 {
      XorZero(x / 2, y / 2);
    }
  }

  lemma {:induction false} OrZero(x: nat, y: nat)
    ensures Or(x, y) == 0 <==> x == 0 && y == 0
  {
    if x != 0 || y != 0 {
      OrZero(x / 2, y / 2);
    }
  }

  /** The loop that ORs the byte differences; equal strings are exactly the ones it accepts. */
  method ConstantTimeEquals(a: bytes, b: bytes) returns (eq: bool)
    ensures eq <==> a == b
  {
    if |a| != |b| {
      return false;
    }
    var diff := 0;
    for i := 0 to |a|
      invariant diff >= 0 && (diff == 0 <==> a[..i] == b[..i])
    {
      XorZero(a[i], b[i]);
      OrZero(diff, Xor(a[i], b[i]));
      diff := Or(diff, Xor(a[i], b[i]));
      assert a[..i + 1] == a[..i] + [a[i]] && b[..i + 1] == b[..i] + [b[i]];
    }
    assert a[..|a|] == a && b[..|b|] == b;
    return diff == 0;
  }

  // ----- the committed deck -----

  datatype Row = Row(position: nat, ordinal: nat, cardNonce: bytes, deckNonce: bytes, commitment: bytes)

  datatype Deck = Deck(shuffled: seq<int>, rows: seq<Row>, hash: bytes)

  function DeckNonce(h: Hash, combined: bytes): Digest {
    h(HashedBytes(DeckNonceInput(combined)))
  }

  function CardNonce(h: Hash, combined: bytes, position: nat): Digest {
    h(HashedBytes(CardNonceInput(combined, position)))
  }

  /** None where the code throws: an ordinal above 53 or a nonce that is not 32 bytes. */
  function CommitCard(h: Hash, ordinal: int, cardNonce: bytes, deckNonce: bytes): Option<bytes> {
    if !(0 <= ordinal <= 53) || |cardNonce| != 32 || |deckNonce| != 32 then None
    else Some(h(HashedBytes(CardInput(ordinal, cardNonce, deckNonce))))
  }

  function RowAt(h: Hash, combined: bytes, shuffled: seq<int>, i: nat): (r: Row)
    requires i < |shuffled| && 0 <= shuffled[i] <= 53
    ensures |r.commitment| == 32
  {
    var cn, dn := CardNonce(h, combined, i), DeckNonce(h, combined);
    Row(i, shuffled[i], cn, dn, CommitCard(h, shuffled[i], cn, dn).value)
  }

  lemma ShuffledOrdinals(h: Hash, combined: bytes, n: nat)
    requires ShuffledDeck(h, combined, n).Some?
    ensures forall i :: 0 <= i < n ==> 0 <= ShuffledDeck(h, combined, n).value[i] < n
  {
    var p := ShuffledDeck(h, combined, n).value;
    forall i | 0 <= i < n
      ensures 0 <= p[i] < n
    {
      assert p[i] in multiset(p);
      assert p[i] in Identity(n);
    }
  }

  function Commitments(rows: seq<Row>): (c: seq<bytes>)
    ensures |c| == |rows|
  {
    seq(|rows|, i requires 0 <= i < |rows| => rows[i].commitment)
  }

  /** The deck an honest engine derives from combined entropy, or None where the code throws. */
  function DeckOf(h: Hash, combined: bytes, deckSize: nat, version: nat): Option<Deck> {
    if version != 1 then None
    else
      var s := ShuffledDeck(h, combined, deckSize);
      if s.None? then None
      else
        ShuffledOrdinals(h, combined, deckSize);
        var rows := seq(deckSize, i requires 0 <= i < deckSize => RowAt(h, combined, s.value, i));
        Some(Deck(s.value, rows, h(HashedBytes(DeckInput(version, Commitments(rows))))))
  }

  /** The loop that derives, commits and pushes one row per position. */
  method BuildDeckCommitment(h: Hash, combined: bytes, deckSize: nat, version: nat) returns (r: Option<Deck>)
    ensures r == DeckOf(h, combined, deckSize, version)
  {
    if version != 1 {
      return None;
    }
    var shuffled := ShuffleCanonicalDeck(h, combined, deckSize);
    if shuffled.None? {
      return None;
    }
    ShuffledOrdinals(h, combined, deckSize);
    var deckNonce := DeckNonce(h, combined);
    var rows: seq<Row> := [];
    for i := 0 to |shuffled.value|
      invariant |rows| == i
      invariant forall k :: 0 <= k < i ==> rows[k] == RowAt(h, combined, shuffled.value, k)
    {
      var ordinal := shuffled.value[i];
      var cardNonce := CardNonce(h, combined, i);
      var commitment := CommitCard(h, ordinal, cardNonce, deckNonce);
      rows := rows + [Row(i, ordinal, cardNonce, deckNonce, commitment.value)];
    }
    assert rows == DeckOf(h, combined, deckSize, version).value.rows;
    return Some(Deck(shuffled.value, rows, h(HashedBytes(DeckInput(version, Commitments(rows))))));
  }

  /** Recompute and compare; None where recomputing throws. */
  function VerifyReveal(h: Hash, expected: bytes, ordinal: int, cardNonce: bytes, deckNonce: bytes): Option<bool> {
    var c := CommitCard(h, ordinal, cardNonce, deckNonce);
    if c.None? then None else Some(c.value == expected)
  }

  /** The input a position's commitment was made from. */
  function RowInput(h: Hash, combined: bytes, d: Deck, p: nat): HashInput
    requires p < |d.rows|
  {
    CardInput(d.rows[p].ordinal, CardNonce(h, combined, p), DeckNonce(h, combined))
  }

  /** At every position exactly one reveal is accepted: the shuffled ordinal with the two derived nonces. */
  lemma RevealOpensOneCard(
    h: Hash, combined: bytes, deckSize: nat, version: nat, p: nat, ordinal: int, cardNonce: bytes, deckNonce: bytes)
    requires DeckOf(h, combined, deckSize, version).Some? && p < deckSize
    requires var d := DeckOf(h, combined, deckSize, version).value;
             ordinal >= 0 ==>
               CollisionFreeOn(h, {HashedBytes(CardInput(ordinal, cardNonce, deckNonce)),
                                   HashedBytes(RowInput(h, combined, d, p))})
    ensures var d := DeckOf(h, combined, deckSize, version).value;
            VerifyReveal(h, d.rows[p].commitment, ordinal, cardNonce, deckNonce) == Some(true)
            <==> (ordinal == d.shuffled[p] && cardNonce == CardNonce(h, combined, p) &&
                  deckNonce == DeckNonce(h, combined))
  {
    ShuffledOrdinals(h, combined, deckSize);
    var d := DeckOf(h, combined, deckSize, version).value;
    assert d.rows[p] == RowAt(h, combined, d.shuffled, p);
    if 0 <= ordinal <= 53 && |cardNonce| == 32 && |deckNonce| == 32 {
      DomainsAreSeparate(CardInput(ordinal, cardNonce, deckNonce), RowInput(h, combined, d, p));
    }
  }

  /** Everything hashed into a deck's commitments and their aggregate. */
  ghost function DeckInputs(d: Deck): set<bytes>
  {
    (set r | r in d.rows :: HashedBytes(CardInput(r.ordinal, r.cardNonce, r.deckNonce)))
    + {HashedBytes(DeckInput(1, Commitments(d.rows)))}
  }

  lemma DeckRow(h: Hash, combined: bytes, deckSize: nat, version: nat, i: nat)
    requires DeckOf(h, combined, deckSize, version).Some? && i < deckSize
    ensures var d := DeckOf(h, combined, deckSize, version).value;
            |d.rows| == |d.shuffled| == deckSize && d.rows[i] in d.rows && d.rows[i].position == i &&
            d.rows[i].ordinal == d.shuffled[i] && d.rows[i].ordinal <= 53 &&
            |d.rows[i].cardNonce| == 32 && |d.rows[i].deckNonce| == 32 &&
            d.rows[i].commitment ==
              h(HashedBytes(CardInput(d.rows[i].ordinal, d.rows[i].cardNonce, d.rows[i].deckNonce)))
  {
    ShuffledOrdinals(h, combined, deckSize);
    var d := DeckOf(h, combined, deckSize, version).value;
    assert d.rows[i] == RowAt(h, combined, d.shuffled, i);
  }

  lemma SameCommitmentSameRow(h: Hash, a: Row, b: Row)
    requires a.commitment == b.commitment && a.position == b.position && a.ordinal <= 53 && b.ordinal <= 53
    requires |a.cardNonce| == 32 && |a.deckNonce| == 32 && |b.cardNonce| == 32 && |b.deckNonce| == 32
    requires a.commitment == h(HashedBytes(CardInput(a.ordinal, a.cardNonce, a.deckNonce)))
    requires b.commitment == h(HashedBytes(CardInput(b.ordinal, b.cardNonce, b.deckNonce)))
    requires CollisionFreeOn(h, {HashedBytes(CardInput(a.ordinal, a.cardNonce, a.deckNonce)),
                                 HashedBytes(CardInput(b.ordinal, b.cardNonce, b.deckNonce))})
    ensures a == b
  {
    DomainsAreSeparate(
      CardInput(a.ordinal, a.cardNonce, a.deckNonce), CardInput(b.ordinal, b.cardNonce, b.deckNonce));
  }

  lemma CollisionFreeSubset(h: Hash, big: set<bytes>, small: set<bytes>)
    requires CollisionFreeOn(h, big) && small <= big
    ensures CollisionFreeOn(h, small)
  {
  }

  /** Two decks of one size with the same deck commitment hash are the same deck. */
  lemma DeckHashBindsDeck(h: Hash, c1: bytes, c2: bytes, deckSize: nat, version: nat)
    requires DeckOf(h, c1, deckSize, version).Some? && DeckOf(h, c2, deckSize, version).Some?
    requires var d1, d2 := DeckOf(h, c1, deckSize, version).value, DeckOf(h, c2, deckSize, version).value;
             d1.hash == d2.hash && CollisionFreeOn(h, DeckInputs(d1) + DeckInputs(d2))
    ensures DeckOf(h, c1, deckSize, version).value == DeckOf(h, c2, deckSize, version).value
  {
    var d1, d2 := DeckOf(h, c1, deckSize, version).value, DeckOf(h, c2, deckSize, version).value;
    SameHashSameRows(h, d1, d2, deckSize);
    forall i | 0 <= i < deckSize
      ensures d1.rows[i] == d2.rows[i] && d1.shuffled[i] == d2.shuffled[i]
    {
      DeckRow(h, c1, deckSize, version, i);
      DeckRow(h, c2, deckSize, version, i);
      var a, b := d1.rows[i], d2.rows[i];
      CollisionFreeSubset(h, DeckInputs(d1) + DeckInputs(d2),
        {HashedBytes(CardInput(a.ordinal, a.cardNonce, a.deckNonce)),
         HashedBytes(CardInput(b.ordinal, b.cardNonce, b.deckNonce))});
      SameCommitmentSameRow(h, a, b);
    }
    assert d1.rows == d2.rows && d1.shuffled == d2.shuffled;
  }

  lemma SameHashSameRows(h: Hash, d1: Deck, d2: Deck, n: nat)
    requires n in {52, 54} && |d1.rows| == n && |d2.rows| == n
    requires All32(Commitments(d1.rows)) && All32(Commitments(d2.rows))
    requires h(HashedBytes(DeckInput(1, Commitments(d1.rows)))) == h(HashedBytes(DeckInput(1, Commitments(d2.rows))))
    requires CollisionFreeOn(h, DeckInputs(d1) + DeckInputs(d2))
    ensures forall i :: 0 <= i < n ==> d1.rows[i].commitment == d2.rows[i].commitment
  {
    DomainsAreSeparate(DeckInput(1, Commitments(d1.rows)), DeckInput(1, Commitments(d2.rows)));
    forall i | 0 <= i < n
      ensures d1.rows[i].commitment == d2.rows[i].commitment
    {
      assert Commitments(d1.rows)[i] == Commitments(d2.rows)[i];
    }
  }
}
