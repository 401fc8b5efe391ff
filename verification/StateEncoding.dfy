/** The canonical byte form of a round state, and exactly what it identifies. */
module StateEncoding {
  import opened Wrappers
  import opened Bytes
  import opened Protocol
  import opened Sorting
  import opened Concatenation
  import opened Canonical

  // ----- names of the enumerations, as the wire spells them -----

  function ClassName(c: StateClass): bytes {
    match c
    case S0TableOpen => Ascii("S0_TABLE_OPEN")
    case S1SeatOpen => Ascii("S1_SEAT_OPEN")
    case S2TableLocked => Ascii("S2_TABLE_LOCKED")
    case S3EntropyCommit => Ascii("S3_ENTROPY_COMMIT_WINDOW")
    case S4EntropyReveal => Ascii("S4_ENTROPY_REVEAL_WINDOW")
    case S5DeckCommitted => Ascii("S5_DECK_COMMITTED")
    case S6CardRevealFirst => Ascii("S6_CARD_REVEAL_FIRST")
    case S7CardRevealSecond => Ascii("S7_CARD_REVEAL_SECOND")
    case S8BetDecision => Ascii("S8_BET_DECISION")
    case S9CardRevealThird => Ascii("S9_CARD_REVEAL_THIRD")
    case S10SettledRound => Ascii("S10_SETTLED_ROUND")
    case S11RotateTurn => Ascii("S11_ROTATE_TURN")
    case S12TableClose => Ascii("S12_TABLE_CLOSE")
    case Recovered => Ascii("RECOVERED")
  }

  function ActionName(t: ActionType): bytes {
    match t
    case JoinT => Ascii("Join")
    case EntropyCommitT => Ascii("EntropyCommit")
    case EntropyRevealT => Ascii("EntropyReveal")
    case CardRevealT => Ascii("CardReveal")
    case DealConcealedT => Ascii("DealConcealed")
    case BetT => Ascii("BetAction")
    case PassT => Ascii("Pass")
    case FoldT => Ascii("Fold")
    case SettleT => Ascii("Settle")
    case RotateTurnT => Ascii("RotateTurn")
    case TableLockT => Ascii("TableLock")
    case TableCloseT => Ascii("TableClose")
    case TimeoutT => Ascii("Timeout")
    case RecoveryT => Ascii("Recovery")
  }

  function StatusName(s: Status): bytes {
    match s
    case Invited => Ascii("invited")
    case Joined => Ascii("joined")
    case Ready => Ascii("ready")
    case Active => Ascii("active")
    case Folded => Ascii("folded")
    case Settled => Ascii("settled")
    case Disconnected => Ascii("disconnected")
    case TimedOut => Ascii("timed_out")
    case Forfeited => Ascii("forfeited")
  }

  /** The third and second letters tell the classes apart. */
  function ClassIndex(c: StateClass): (int, int) {
    match c
    case S10SettledRound => (49, 48)
    case S11RotateTurn => (49, 49)
    case S12TableClose => (49, 50)
    case Recovered => (69, 67)
    case S0TableOpen => (48, 95)
    case S1SeatOpen => (49, 95)
    case S2TableLocked => (50, 95)
    case S3EntropyCommit => (51, 95)
    case S4EntropyReveal => (52, 95)
    case S5DeckCommitted => (53, 95)
    case S6CardRevealFirst => (54, 95)
    case S7CardRevealSecond => (55, 95)
    case S8BetDecision => (56, 95)
    case S9CardRevealThird => (57, 95)
  }

  lemma ClassNameIndex(c: StateClass)
    ensures |ClassName(c)| >= 3 && (ClassName(c)[1], ClassName(c)[2]) == ClassIndex(c)
  {
    if c in {S7CardRevealSecond, S8BetDecision, S9CardRevealThird, S10SettledRound, S11RotateTurn, S12TableClose,
      Recovered} {
      LateClassNameIndex(c);
    }
  }

  lemma LateClassNameIndex(c: StateClass)
    requires c in {S7CardRevealSecond, S8BetDecision, S9CardRevealThird, S10SettledRound, S11RotateTurn,
        S12TableClose, Recovered}
    ensures |ClassName(c)| >= 3 && (ClassName(c)[1], ClassName(c)[2]) == ClassIndex(c)
  {
  }

  lemma ClassNamesDiffer(a: StateClass, b: StateClass)
    ensures ClassName(a) == ClassName(b) <==> a == b
  {
    ClassNameIndex(a);
    ClassNameIndex(b);
  }

  /** Length, second and last letters tell the actions apart. */
  function ActionIndex(t: ActionType): (int, int, int) {
    match t
    case JoinT => (4, 111, 110)
    case EntropyCommitT => (13, 110, 116)
    case EntropyRevealT => (13, 110, 108)
    case CardRevealT => (10, 97, 108)
    case DealConcealedT => (13, 101, 100)
    case BetT => (9, 101, 110)
    case PassT => (4, 97, 115)
    case FoldT => (4, 111, 100)
    case SettleT => (6, 101, 101)
    case RotateTurnT => (10, 111, 110)
    case TableLockT => (9, 97, 107)
    case TableCloseT => (10, 97, 101)
    case TimeoutT => (7, 105, 116)
    case RecoveryT => (8, 101, 121)
  }

  lemma ActionNameIndex(t: ActionType)
    ensures var n := ActionName(t);
            |n| >= 4 && (|n|, n[1], n[|n| - 1]) == ActionIndex(t)
  {
    match t
    case JoinT =>
    case EntropyCommitT =>
    case EntropyRevealT =>
    case CardRevealT =>
    case _ =>
      if t in {DealConcealedT, BetT, PassT, FoldT, SettleT} {
        PlayActionNameIndex(t);
      } else {
        LateActionNameIndex(t);
      }
  }

  lemma PlayActionNameIndex(t: ActionType)
    requires t in {DealConcealedT, BetT, PassT, FoldT, SettleT}
    ensures var n := ActionName(t);
            |n| >= 4 && (|n|, n[1], n[|n| - 1]) == ActionIndex(t)
  {
  }

  lemma LateActionNameIndex(t: ActionType)
    requires t in {RotateTurnT, TableLockT, TableCloseT, TimeoutT, RecoveryT}
    ensures var n := ActionName(t);
            |n| >= 4 && (|n|, n[1], n[|n| - 1]) == ActionIndex(t)
  {
  }

  lemma ActionNamesDiffer(a: ActionType, b: ActionType)
    ensures ActionName(a) == ActionName(b) <==> a == b
  {
    ActionNameIndex(a);
    ActionNameIndex(b);
  }

  /** Length and first letter tell the statuses apart. */
  function StatusIndex(s: Status): (int, int) {
    match s
    case Invited => (7, 105)
    case Joined => (6, 106)
    case Ready => (5, 114)
    case Active => (6, 97)
    case Folded => (6, 102)
    case Settled => (7, 115)
    case Disconnected => (12, 100)
    case TimedOut => (9, 116)
    case Forfeited => (9, 102)
  }

  lemma StatusNameIndex(s: Status)
    ensures |StatusName(s)| >= 1 && (|StatusName(s)|, StatusName(s)[0]) == StatusIndex(s)
  {
  }

  lemma StatusNamesDiffer(a: Status, b: Status)
    ensures StatusName(a) == StatusName(b) <==> a == b
  {
    StatusNameIndex(a);
    StatusNameIndex(b);
  }

  // ----- encoders -----

  function EncU32(n: int): bytes { LE(n % U32, 4) }

  function EncU64(n: int): bytes { LE(n % U64, 8) }

  function EncBool(b: bool): bytes { if b then [1] else [0] }

  function EncOptionalHash(h: Option<bytes>): bytes {
    if h.None? then [0] else [1] + h.value
  }

  function EncOptionalU32(n: Option<int>): bytes {
    if n.None? then [0] else [1] + EncU32(n.value)
  }

  /** Absent and empty strings are encoded alike. */
  function EncOptionalString(s: Option<bytes>): bytes {
    if s.None? || s.value == [] then [0] else [1] + Prefixed(s.value)
  }

  /** The 32 bytes of a key behind its parity byte; shorter keys make the encoder throw. */
  function Key32(key: bytes): bytes {
    if |key| < 32 then key else Tail32(key)
  }

  function Same32(h: bytes): bytes { h }

  ghost function EncPreferences(m: map<bytes, bytes>): bytes {
    EncodeArray(EncodePair, SortedPairs(m))
  }

  function PlayerHead(p: PlayerState): seq<bytes> {
    [LE(2, 2), LE(1, 1), EncU32(p.seat), p.playerId, Key32(p.pubkey), Prefixed(StatusName(p.status)),
     EncU64(p.stakeAtRisk), EncOptionalString(p.stakeOutpoint)]
  }

  function PlayerEntropy(p: PlayerState): seq<bytes> {
    [EncBool(p.entropyCommitted), EncOptionalHash(p.commitmentHash), EncBool(p.entropyRevealed),
     EncOptionalHash(p.entropyValue)]
  }

  ghost function PlayerLists(p: PlayerState): seq<bytes> {
    [EncodeArray(Prefixed, p.concealedCardRefs), EncPreferences(p.preferences)]
  }

  ghost function PlayerParts(p: PlayerState): seq<bytes> {
    PlayerHead(p) + (PlayerEntropy(p) + PlayerLists(p))
  }

  ghost function EncPlayer(p: PlayerState): bytes {
    Flat(PlayerParts(p))
  }

  function CardParts(c: ConcealedCard): seq<bytes> {
    [LE(8, 2), LE(1, 1), EncU32(c.commitment.position), c.commitment.commitment, c.commitment.cardNonce,
     Prefixed(c.ciphertext), Prefixed(c.custodyOutpoint), Key32(c.holderPubkey), Prefixed(c.lifecycle)]
  }

  function EncCard(c: ConcealedCard): bytes {
    Flat(CardParts(c))
  }

  function EncOptionalDeck(deck: Option<seq<ConcealedCard>>): bytes {
    if deck.None? then [0] else [1] + EncodeArray(EncCard, deck.value)
  }

  function EncVisible(c: RevealedCard): bytes { LE(c.ordinal % 256, 1) }

  function EncAction(t: ActionType): bytes { Prefixed(ActionName(t)) }

  function StateHead(st: RoundState): seq<bytes> {
    [LE(9, 2), LE(1, 1), Prefixed(ClassName(st.stateClass)), st.gameId, st.ruleSetHash, EncU32(st.roundNumber),
     EncOptionalU32(st.actingSeat)]
  }

  ghost function StateMiddle(st: RoundState): seq<bytes> {
    [EncodeArray(EncPlayer, st.players), EncU64(st.potValue), EncodeArray(EncVisible, st.visibleCards),
     EncodeArray(Same32, st.hiddenCommitmentRefs), EncodeArray(EncAction, st.allowedActions)]
  }

  function StateDeadlines(st: RoundState): seq<bytes> {
    [EncOptionalU32(st.decisionDeadline), EncOptionalU32(st.recoveryDeadline),
     EncodeArray(Same32, st.successorTemplateHashes)]
  }

  function StateTail(st: RoundState): seq<bytes> {
    [EncOptionalHash(st.combinedEntropy), EncOptionalHash(st.deckCommitmentHash), EncOptionalDeck(st.concealedDeck),
     EncOptionalHash(st.priorStateHash), Zeros(32)]
  }

  ghost function StateParts(st: RoundState): seq<bytes> {
    StateHead(st) + (StateMiddle(st) + (StateDeadlines(st) + StateTail(st)))
  }

  ghost function EncodeRoundState(st: RoundState): bytes {
    Flat(StateParts(st))
  }

  // ----- what the encoders accept, and what they keep -----

  predicate U32Range(n: int) { 0 <= n < U32 }

  predicate Is32(h: bytes) { |h| == 32 }

  ghost predicate ValidPlayer(p: PlayerState) {
    U32Range(p.seat) && Is32(p.playerId) && |p.pubkey| >= 32 && 0 <= p.stakeAtRisk < U64 &&
    (p.stakeOutpoint.Some? ==> Short(p.stakeOutpoint.value)) &&
    (p.commitmentHash.Some? ==> Is32(p.commitmentHash.value)) &&
      (p.entropyValue.Some? ==> Is32(p.entropyValue.value)) &&
    |p.concealedCardRefs| < U64 && (forall r :: r in p.concealedCardRefs ==> Short(r)) &&
    |p.preferences| < U64 && forall k :: k in p.preferences ==> Short(k) && Short(p.preferences[k])
  }

  predicate ValidCard(c: ConcealedCard) {
    U32Range(c.commitment.position) && Is32(c.commitment.commitment) && Is32(c.commitment.cardNonce) &&
    Short(c.ciphertext) && Short(c.custodyOutpoint) && |c.holderPubkey| >= 32 && Short(c.lifecycle)
  }

  predicate ValidVisible(c: RevealedCard) { 0 <= c.ordinal < 256 }

  ghost predicate StateInRange(st: RoundState) {
    Is32(st.gameId) && Is32(st.ruleSetHash) && U32Range(st.roundNumber) &&
    (st.actingSeat.Some? ==> U32Range(st.actingSeat.value)) &&
    |st.players| < U64 && (forall p :: p in st.players ==> ValidPlayer(p)) &&
    0 <= st.potValue < U64 &&
    |st.visibleCards| < U64 && (forall c :: c in st.visibleCards ==> ValidVisible(c)) &&
    |st.hiddenCommitmentRefs| < U64 && (forall h :: h in st.hiddenCommitmentRefs ==> Is32(h)) &&
    |st.allowedActions| < U64 &&
    (st.decisionDeadline.Some? ==> U32Range(st.decisionDeadline.value)) &&
    (st.recoveryDeadline.Some? ==> U32Range(st.recoveryDeadline.value)) &&
    |st.successorTemplateHashes| < U64 && (forall h :: h in st.successorTemplateHashes ==> Is32(h)) &&
    (st.combinedEntropy.Some? ==> Is32(st.combinedEntropy.value)) &&
    (st.deckCommitmentHash.Some? ==> Is32(st.deckCommitmentHash.value)) &&
    (st.concealedDeck.Some? ==>
      |st.concealedDeck.value| < U64 && forall c :: c in st.concealedDeck.value ==> ValidCard(c)) &&
    (st.priorStateHash.Some? ==> Is32(st.priorStateHash.value))
  }

  function NonEmpty(s: Option<bytes>): Option<bytes> {
    if s == Some([]) then None else s
  }

  /** A player without the parity byte of the key, and with an empty outpoint made absent. */
  function PlayerView(p: PlayerState): PlayerState {
    p.(pubkey := Key32(p.pubkey), stakeOutpoint := NonEmpty(p.stakeOutpoint))
  }

  function CardView(c: ConcealedCard): ConcealedCard {
    c.(holderPubkey := Key32(c.holderPubkey))
  }

  function VisibleView(c: RevealedCard): RevealedCard {
    RevealedCard([], [], c.ordinal)
  }

  function DeckView(deck: Option<seq<ConcealedCard>>): Option<seq<ConcealedCard>> {
    if deck.None? then None else Some(Mapped(CardView, deck.value))
  }

  /** Everything the encoding keeps of a state: all fields but the ones named here. */
  function StateView(st: RoundState): RoundState {
    st.(players := Mapped(PlayerView, st.players), visibleCards := Mapped(VisibleView, st.visibleCards),
        concealedDeck := DeckView(st.concealedDeck),
        stateHash := [])
  }

  // ----- fields -----

  /** Two encoded fields: separable, and different when the values are. */
  ghost predicate Field(a: bytes, b: bytes, same: bool) {
    Splits(a, b) && (a == b ==> same)
  }

  lemma FixedField(a: bytes, b: bytes)
    requires |a| == |b|
    ensures Field(a, b, a == b)
  {
    forall u, v | a + u == b + v
      ensures a == b
    {
      SplitSameLength(a, u, b, v);
    }
  }

  lemma NumberField(m: int, n: int, k: nat)
    requires 0 <= m < Pow256(k) && 0 <= n < Pow256(k)
    ensures Field(LE(m, k), LE(n, k), m == n)
  {
    FixedField(LE(m, k), LE(n, k));
    if LE(m, k) == LE(n, k) {
      LEInjective(m, n, k);
    }
  }

  lemma U32Field(m: int, n: int)
    requires U32Range(m) && U32Range(n)
    ensures Field(EncU32(m), EncU32(n), m == n)
  {
    Widths();
    NumberField(m, n, 4);
  }

  lemma U64Field(m: int, n: int)
    requires 0 <= m < U64 && 0 <= n < U64
    ensures Field(EncU64(m), EncU64(n), m == n)
  {
    Widths();
    Fits64(m);
    Fits64(n);
    NumberField(m, n, 8);
  }

  lemma Fits64(n: int)
    requires 0 <= n < U64
    ensures EncU64(n) == LE(n, 8)
  {
    assert n % U64 == n;
  }

  lemma TextField(s: bytes, t: bytes)
    requires Short(s) && Short(t)
    ensures Field(Prefixed(s), Prefixed(t), s == t)
  {
    forall u, v | Prefixed(s) + u == Prefixed(t) + v
      ensures s == t
    {
      StringField(s, u, t, v);
    }
    if Prefixed(s) == Prefixed(t) {
      assert Prefixed(s) + [] == Prefixed(t) + [];
    }
  }

  /** A presence byte in front of a field that is itself separable. */
  lemma OptionField(a: Option<bytes>, b: Option<bytes>)
    requires a.Some? && b.Some? ==> Splits(a.value, b.value)
    ensures var x, y := if a.None? then [0] else [1] + a.value, if b.None? then [0] else [1] + b.value;
            Field(x, y, a == b)
  {
    var x, y := if a.None? then [0] else [1] + a.value, if b.None? then [0] else [1] + b.value;
    forall u, v | x + u == y + v
      ensures x == y
    {
      assert (x + u)[0] == x[0] && (y + v)[0] == y[0];
      if a.Some? && b.Some? {
        assert (x + u)[1..] == a.value + u && (y + v)[1..] == b.value + v;
      }
    }
    if x == y && a.Some? && b.Some? {
      assert x[1..] == a.value && y[1..] == b.value;
    }
  }

  function Mapping<S, T>(f: S -> T, o: Option<S>): Option<T> {
    if o.None? then None else Some(f(o.value))
  }

  lemma OptionalHashField(a: Option<bytes>, b: Option<bytes>)
    requires (a.Some? ==> Is32(a.value)) && (b.Some? ==> Is32(b.value))
    ensures Field(EncOptionalHash(a), EncOptionalHash(b), a == b)
  {
    if a.Some? && b.Some? {
      FixedField(a.value, b.value);
    }
    OptionField(a, b);
  }

  lemma OptionalU32Field(a: Option<int>, b: Option<int>)
    requires (a.Some? ==> U32Range(a.value)) && (b.Some? ==> U32Range(b.value))
    ensures Field(EncOptionalU32(a), EncOptionalU32(b), a == b)
  {
    if a.Some? && b.Some? {
      U32Field(a.value, b.value);
    }
    OptionField(Mapping(EncU32, a), Mapping(EncU32, b));
  }

  lemma OptionalStringField(a: Option<bytes>, b: Option<bytes>)
    requires (a.Some? ==> Short(a.value)) && (b.Some? ==> Short(b.value))
    ensures Field(EncOptionalString(a), EncOptionalString(b), NonEmpty(a) == NonEmpty(b))
  {
    if a.Some? && b.Some? {
      TextField(a.value, b.value);
    }
    OptionField(Mapping(Prefixed, NonEmpty(a)), Mapping(Prefixed, NonEmpty(b)));
  }

  lemma ArrayField<T(!new), V>(enc: T -> bytes, valid: T -> bool, view: T -> V, a: seq<T>, b: seq<T>)
    requires Delimits(enc, valid, view) && |a| < U64 && |b| < U64
    requires (forall x :: x in a ==> valid(x)) && (forall x :: x in b ==> valid(x))
    requires forall x, y {:trigger enc(x), enc(y)} :: view(x) == view(y) ==> enc(x) == enc(y)
    ensures Field(EncodeArray(enc, a), EncodeArray(enc, b), Mapped(view, a) == Mapped(view, b))
  {
    var x, y := EncodeArray(enc, a), EncodeArray(enc, b);
    forall u, v | x + u == y + v
      ensures x == y && Mapped(view, a) == Mapped(view, b)
    {
      ArrayDelimits(enc, valid, view, a, b, u, v);
      EachByView(enc, view, a, b);
    }
    if x == y {
      assert x + [] == y + [];
    }
  }

  // ----- records -----

  lemma PreferencesField(m: map<bytes, bytes>, n: map<bytes, bytes>)
    requires |m| < U64 && |n| < U64
    requires (forall k :: k in m ==> Short(k) && Short(m[k])) && (forall k :: k in n ==> Short(k) && Short(n[k]))
    ensures Field(EncPreferences(m), EncPreferences(n), m == n)
  {
    PreferencePairsShort(m);
    PreferencePairsShort(n);
    PairsDelimit();
    ArrayField(EncodePair, ShortPair, (p: Pair) => p, SortedPairs(m), SortedPairs(n));
    if EncPreferences(m) == EncPreferences(n) {
      assert Mapped((p: Pair) => p, SortedPairs(m)) == SortedPairs(m);
      assert Mapped((p: Pair) => p, SortedPairs(n)) == SortedPairs(n);
      SortedPairsInjective(m, n);
    }
  }

  lemma PreferencePairsShort(m: map<bytes, bytes>)
    requires forall k :: k in m ==> Short(k) && Short(m[k])
    ensures |SortedPairs(m)| == |m| && forall p :: p in SortedPairs(m) ==> ShortPair(p)
  {
    SortedKeysFacts(m);
    forall p | p in SortedPairs(m)
      ensures ShortPair(p)
    {
      var i :| 0 <= i < |SortedPairs(m)| && SortedPairs(m)[i] == p;
      assert SortedKeys(m)[i] in SortedKeys(m);
    }
  }

  lemma StringsField(a: seq<bytes>, b: seq<bytes>)
    requires |a| < U64 && |b| < U64 && (forall s :: s in a ==> Short(s)) && (forall s :: s in b ==> Short(s))
    ensures Field(EncodeArray(Prefixed, a), EncodeArray(Prefixed, b), a == b)
  {
    StringsDelimit();
    ArrayField(Prefixed, Short, (s: bytes) => s, a, b);
    assert Mapped((s: bytes) => s, a) == a && Mapped((s: bytes) => s, b) == b;
  }

  lemma PlayerHeadFields(p: PlayerState, q: PlayerState)
    requires ValidPlayer(p) && ValidPlayer(q)
    ensures AllSplit(PlayerHead(p), PlayerHead(q))
    ensures PlayerHead(p) == PlayerHead(q) ==>
              p.seat == q.seat && p.playerId == q.playerId && Key32(p.pubkey) == Key32(q.pubkey) &&
                p.status == q.status &&
              p.stakeAtRisk == q.stakeAtRisk && NonEmpty(p.stakeOutpoint) == NonEmpty(q.stakeOutpoint)
  {
    var a, b := PlayerHead(p), PlayerHead(q);
    FixedField(a[0], b[0]);
    FixedField(a[1], b[1]);
    U32Field(p.seat, q.seat);
    FixedField(p.playerId, q.playerId);
    FixedField(Key32(p.pubkey), Key32(q.pubkey));
    StatusField(p.status, q.status);
    U64Field(p.stakeAtRisk, q.stakeAtRisk);
    OptionalStringField(p.stakeOutpoint, q.stakeOutpoint);
    if a == b {
      assert a[2] == b[2] && a[3] == b[3] && a[4] == b[4] && a[5] == b[5] && a[6] == b[6] && a[7] == b[7];
    }
  }

  lemma StatusField(s: Status, t: Status)
    ensures Field(Prefixed(StatusName(s)), Prefixed(StatusName(t)), s == t)
  {
    StatusNamesDiffer(s, t);
    TextField(StatusName(s), StatusName(t));
  }

  lemma PlayerEntropyFields(p: PlayerState, q: PlayerState)
    requires ValidPlayer(p) && ValidPlayer(q)
    ensures AllSplit(PlayerEntropy(p), PlayerEntropy(q))
    ensures PlayerEntropy(p) == PlayerEntropy(q) ==>
              p.entropyCommitted == q.entropyCommitted && p.commitmentHash == q.commitmentHash &&
              p.entropyRevealed == q.entropyRevealed && p.entropyValue == q.entropyValue
  {
    EntropyParts(
      p.entropyCommitted, p.commitmentHash, p.entropyRevealed, p.entropyValue,
      q.entropyCommitted, q.commitmentHash, q.entropyRevealed, q.entropyValue);
  }

  lemma EntropyParts(
    f: bool, x: Option<bytes>, g: bool, y: Option<bytes>, f': bool, x': Option<bytes>, g': bool, y': Option<bytes>)
    requires (x.Some? ==> Is32(x.value)) && (x'.Some? ==> Is32(x'.value))
    requires (y.Some? ==> Is32(y.value)) && (y'.Some? ==> Is32(y'.value))
    ensures var a := [EncBool(f), EncOptionalHash(x), EncBool(g), EncOptionalHash(y)];
            var b := [EncBool(f'), EncOptionalHash(x'), EncBool(g'), EncOptionalHash(y')];
            AllSplit(a, b) && (a == b ==> f == f' && x == x' && g == g' && y == y')
  {
    var a := [EncBool(f), EncOptionalHash(x), EncBool(g), EncOptionalHash(y)];
    var b := [EncBool(f'), EncOptionalHash(x'), EncBool(g'), EncOptionalHash(y')];
    FlaggedHash(f, x, f', x');
    FlaggedHash(g, y, g', y');
    FourFields(a, b, f == f', x == x', g == g', y == y');
  }

  /** A flag and the hash it announces. */
  lemma FlaggedHash(f: bool, x: Option<bytes>, g: bool, y: Option<bytes>)
    requires (x.Some? ==> Is32(x.value)) && (y.Some? ==> Is32(y.value))
    ensures Field(EncBool(f), EncBool(g), f == g) && Field(EncOptionalHash(x), EncOptionalHash(y), x == y)
  {
    FixedField(EncBool(f), EncBool(g));
    FlagDecides(f, g);
    OptionalHashField(x, y);
  }

  lemma FlagDecides(f: bool, g: bool)
    ensures EncBool(f) == EncBool(g) ==> f == g
  {
  }

  lemma FourFields(a: seq<bytes>, b: seq<bytes>, s0: bool, s1: bool, s2: bool, s3: bool)
    requires |a| == 4 && |b| == 4 && Field(a[0], b[0], s0) && Field(a[1], b[1], s1)
    requires Field(a[2], b[2], s2) && Field(a[3], b[3], s3)
    ensures AllSplit(a, b) && (a == b ==> s0 && s1 && s2 && s3)
  {
  }

  lemma PlayerListFields(p: PlayerState, q: PlayerState)
    requires ValidPlayer(p) && ValidPlayer(q)
    ensures AllSplit(PlayerLists(p), PlayerLists(q))
    ensures PlayerLists(p) == PlayerLists(q) ==>
              p.concealedCardRefs == q.concealedCardRefs && p.preferences == q.preferences
  {
    var a, b := PlayerLists(p), PlayerLists(q);
    StringsField(p.concealedCardRefs, q.concealedCardRefs);
    PreferencesField(p.preferences, q.preferences);
    if a == b {
      assert a[0] == b[0] && a[1] == b[1];
    }
  }

  lemma AllSplitConcat(p: seq<bytes>, q: seq<bytes>, p': seq<bytes>, q': seq<bytes>)
    requires AllSplit(p, q) && AllSplit(p', q')
    ensures AllSplit(p + p', q + q')
    ensures p + p' == q + q' ==> p == q && p' == q'
  {
    if p + p' == q + q' {
      assert p == (p + p')[..|p|] && q == (q + q')[..|q|];
      assert p' == (p + p')[|p|..] && q' == (q + q')[|q|..];
    }
  }

  lemma PlayerFields(p: PlayerState, q: PlayerState)
    requires ValidPlayer(p) && ValidPlayer(q)
    ensures AllSplit(PlayerParts(p), PlayerParts(q))
    ensures PlayerParts(p) == PlayerParts(q) ==> PlayerView(p) == PlayerView(q)
  {
    PlayerHeadFields(p, q);
    PlayerEntropyFields(p, q);
    PlayerListFields(p, q);
    AllSplitConcat(PlayerEntropy(p), PlayerEntropy(q), PlayerLists(p), PlayerLists(q));
    AllSplitConcat(
      PlayerHead(p), PlayerHead(q), PlayerEntropy(p) + PlayerLists(p), PlayerEntropy(q) + PlayerLists(q));
  }

  lemma CardFields(c: ConcealedCard, d: ConcealedCard)
    requires ValidCard(c) && ValidCard(d)
    ensures AllSplit(CardParts(c), CardParts(d))
    ensures CardParts(c) == CardParts(d) ==> CardView(c) == CardView(d)
  {
    var a, b := CardParts(c), CardParts(d);
    FixedField(a[0], b[0]);
    FixedField(a[1], b[1]);
    U32Field(c.commitment.position, d.commitment.position);
    FixedField(c.commitment.commitment, d.commitment.commitment);
    FixedField(c.commitment.cardNonce, d.commitment.cardNonce);
    TextField(c.ciphertext, d.ciphertext);
    TextField(c.custodyOutpoint, d.custodyOutpoint);
    FixedField(Key32(c.holderPubkey), Key32(d.holderPubkey));
    TextField(c.lifecycle, d.lifecycle);
  }

  // ----- element encoders delimit themselves up to their views -----

  lemma PlayersDelimit()
    ensures Delimits(EncPlayer, ValidPlayer, PlayerView)
    ensures forall p, q {:trigger EncPlayer(p), EncPlayer(q)} :: PlayerView(p) == PlayerView(q) ==>
        EncPlayer(p) == EncPlayer(q)
  {
    forall p: PlayerState, q: PlayerState, r: bytes, s: bytes
      | ValidPlayer(p) && ValidPlayer(q) && EncPlayer(p) + r == EncPlayer(q) + s
      ensures PlayerView(p) == PlayerView(q) && r == s
    {
      PlayerFields(p, q);
      FlatSplits(PlayerParts(p), PlayerParts(q), r, s);
    }
    forall p, q | PlayerView(p) == PlayerView(q)
      ensures EncPlayer(p) == EncPlayer(q)
    {
      SamePlayerParts(p, q);
    }
  }

  lemma SamePlayerParts(p: PlayerState, q: PlayerState)
    requires PlayerView(p) == PlayerView(q)
    ensures PlayerParts(p) == PlayerParts(q)
  {
    var v, w := PlayerView(p), PlayerView(q);
    assert v.pubkey == w.pubkey && v.stakeOutpoint == w.stakeOutpoint;
    assert p.(pubkey := v.pubkey, stakeOutpoint := v.stakeOutpoint) ==
      q.(pubkey := w.pubkey, stakeOutpoint := w.stakeOutpoint);
    assert EncOptionalString(p.stakeOutpoint) == EncOptionalString(q.stakeOutpoint);
    assert v.seat == w.seat && v.playerId == w.playerId && v.status == w.status && v.stakeAtRisk == w.stakeAtRisk;
    assert v.entropyCommitted == w.entropyCommitted && v.commitmentHash == w.commitmentHash;
    assert v.entropyRevealed == w.entropyRevealed && v.entropyValue == w.entropyValue;
    assert v.concealedCardRefs == w.concealedCardRefs && v.preferences == w.preferences;
  }

  lemma CardsDelimit()
    ensures Delimits(EncCard, ValidCard, CardView)
    ensures forall c, d {:trigger EncCard(c), EncCard(d)} :: CardView(c) == CardView(d) ==> EncCard(c) == EncCard(d)
  {
    forall c: ConcealedCard, d: ConcealedCard, r: bytes, s: bytes
      | ValidCard(c) && ValidCard(d) && EncCard(c) + r == EncCard(d) + s
      ensures CardView(c) == CardView(d) && r == s
    {
      CardFields(c, d);
      FlatSplits(CardParts(c), CardParts(d), r, s);
    }
    forall c, d | CardView(c) == CardView(d)
      ensures EncCard(c) == EncCard(d)
    {
      var v, w := CardView(c), CardView(d);
      assert v.commitment == w.commitment && v.ciphertext == w.ciphertext && v.custodyOutpoint == w.custodyOutpoint;
      assert v.holderPubkey == w.holderPubkey && v.lifecycle == w.lifecycle;
      assert CardParts(c) == CardParts(d);
    }
  }

  lemma PlayersField(a: seq<PlayerState>, b: seq<PlayerState>)
    requires |a| < U64 && |b| < U64 && (forall p :: p in a ==> ValidPlayer(p)) &&
        (forall p :: p in b ==> ValidPlayer(p))
    ensures Field(EncodeArray(EncPlayer, a), EncodeArray(EncPlayer, b), Mapped(PlayerView, a) == Mapped(PlayerView, b))
  {
    PlayersDelimit();
    ArrayField(EncPlayer, ValidPlayer, PlayerView, a, b);
  }

  lemma VisibleField(a: seq<RevealedCard>, b: seq<RevealedCard>)
    requires |a| < U64 && |b| < U64 && (forall c :: c in a ==> ValidVisible(c)) &&
        (forall c :: c in b ==> ValidVisible(c))
    ensures Field(EncodeArray(EncVisible, a), EncodeArray(EncVisible, b),
                  Mapped(VisibleView, a) == Mapped(VisibleView, b))
  {
    forall c: RevealedCard, d: RevealedCard, r: bytes, s: bytes
      | ValidVisible(c) && ValidVisible(d) && EncVisible(c) + r == EncVisible(d) + s
      ensures VisibleView(c) == VisibleView(d) && r == s
    {
      Widths();
      SplitSameLength(EncVisible(c), r, EncVisible(d), s);
      LEInjective(c.ordinal, d.ordinal, 1);
    }
    ArrayField(EncVisible, ValidVisible, VisibleView, a, b);
  }

  lemma HashesField(a: seq<bytes>, b: seq<bytes>)
    requires |a| < U64 && |b| < U64 && (forall h :: h in a ==> Is32(h)) && (forall h :: h in b ==> Is32(h))
    ensures Field(EncodeArray(Same32, a), EncodeArray(Same32, b), a == b)
  {
    forall x: bytes, y: bytes, r: bytes, s: bytes | Is32(x) && Is32(y) && Same32(x) + r == Same32(y) + s
      ensures x == y && r == s
    {
      SplitSameLength(x, r, y, s);
    }
    ArrayField(Same32, Is32, (h: bytes) => h, a, b);
    assert Mapped((h: bytes) => h, a) == a && Mapped((h: bytes) => h, b) == b;
  }

  predicate AnyAction(t: ActionType) { true }

  lemma ActionsField(a: seq<ActionType>, b: seq<ActionType>)
    requires |a| < U64 && |b| < U64
    ensures Field(EncodeArray(EncAction, a), EncodeArray(EncAction, b), a == b)
  {
    forall x: ActionType, y: ActionType, r: bytes, s: bytes
      | AnyAction(x) && AnyAction(y) && EncAction(x) + r == EncAction(y) + s
      ensures x == y && r == s
    {
      ActionNameIndex(x);
      ActionNameIndex(y);
      StringField(ActionName(x), r, ActionName(y), s);
      ActionNamesDiffer(x, y);
    }
    ArrayField(EncAction, AnyAction, (t: ActionType) => t, a, b);
    assert Mapped((t: ActionType) => t, a) == a && Mapped((t: ActionType) => t, b) == b;
  }

  lemma DeckField(a: Option<seq<ConcealedCard>>, b: Option<seq<ConcealedCard>>)
    requires a.Some? ==> |a.value| < U64 && forall c :: c in a.value ==> ValidCard(c)
    requires b.Some? ==> |b.value| < U64 && forall c :: c in b.value ==> ValidCard(c)
    ensures Field(EncOptionalDeck(a), EncOptionalDeck(b), DeckView(a) == DeckView(b))
  {
    if a.Some? && b.Some? {
      CardsDelimit();
      ArrayField(EncCard, ValidCard, CardView, a.value, b.value);
    }
    OptionField(Mapping(EncDeck, a), Mapping(EncDeck, b));
  }

  function EncDeck(deck: seq<ConcealedCard>): bytes { EncodeArray(EncCard, deck) }

  // ----- the state -----

  lemma HeadFields(a: RoundState, b: RoundState)
    requires StateInRange(a) && StateInRange(b)
    ensures AllSplit(StateHead(a), StateHead(b))
    ensures StateHead(a) == StateHead(b) ==>
              a.stateClass == b.stateClass && a.gameId == b.gameId && a.ruleSetHash == b.ruleSetHash &&
              a.roundNumber == b.roundNumber && a.actingSeat == b.actingSeat
  {
    var x, y := StateHead(a), StateHead(b);
    FixedField(x[0], y[0]);
    FixedField(x[1], y[1]);
    ClassField(a.stateClass, b.stateClass);
    FixedField(a.gameId, b.gameId);
    FixedField(a.ruleSetHash, b.ruleSetHash);
    U32Field(a.roundNumber, b.roundNumber);
    OptionalU32Field(a.actingSeat, b.actingSeat);
    if x == y {
      assert x[2] == y[2] && x[3] == y[3] && x[4] == y[4] && x[5] == y[5] && x[6] == y[6];
    }
  }

  lemma ClassField(c: StateClass, d: StateClass)
    ensures Field(Prefixed(ClassName(c)), Prefixed(ClassName(d)), c == d)
  {
    ClassNamesDiffer(c, d);
    TextField(ClassName(c), ClassName(d));
  }

  lemma MiddleFields(a: RoundState, b: RoundState)
    requires StateInRange(a) && StateInRange(b)
    ensures AllSplit(StateMiddle(a), StateMiddle(b))
    ensures StateMiddle(a) == StateMiddle(b) ==>
              Mapped(PlayerView, a.players) == Mapped(PlayerView, b.players) && a.potValue == b.potValue &&
              Mapped(VisibleView, a.visibleCards) == Mapped(VisibleView, b.visibleCards) &&
              a.hiddenCommitmentRefs == b.hiddenCommitmentRefs && a.allowedActions == b.allowedActions
  {
    var x, y := StateMiddle(a), StateMiddle(b);
    PlayersField(a.players, b.players);
    U64Field(a.potValue, b.potValue);
    VisibleField(a.visibleCards, b.visibleCards);
    HashesField(a.hiddenCommitmentRefs, b.hiddenCommitmentRefs);
    ActionsField(a.allowedActions, b.allowedActions);
    FiveFields(x[0], y[0], x[1], y[1], x[2], y[2], x[3], y[3], x[4], y[4]);
  }

  lemma DeadlineFields(a: RoundState, b: RoundState)
    requires StateInRange(a) && StateInRange(b)
    ensures AllSplit(StateDeadlines(a), StateDeadlines(b))
    ensures StateDeadlines(a) == StateDeadlines(b) ==>
              a.decisionDeadline == b.decisionDeadline && a.recoveryDeadline == b.recoveryDeadline &&
              a.successorTemplateHashes == b.successorTemplateHashes
  {
    var x, y := StateDeadlines(a), StateDeadlines(b);
    OptionalU32Field(a.decisionDeadline, b.decisionDeadline);
    OptionalU32Field(a.recoveryDeadline, b.recoveryDeadline);
    HashesField(a.successorTemplateHashes, b.successorTemplateHashes);
    if x == y {
      assert x[0] == y[0] && x[1] == y[1] && x[2] == y[2];
    }
  }

  lemma DeckOfState(a: RoundState, b: RoundState)
    requires StateInRange(a) && StateInRange(b)
    ensures Field(EncOptionalDeck(a.concealedDeck), EncOptionalDeck(b.concealedDeck),
                  DeckView(a.concealedDeck) == DeckView(b.concealedDeck))
  {
    DeckField(a.concealedDeck, b.concealedDeck);
  }

  lemma TailFields(a: RoundState, b: RoundState)
    requires StateInRange(a) && StateInRange(b)
    ensures AllSplit(StateTail(a), StateTail(b))
    ensures StateTail(a) == StateTail(b) ==>
              a.combinedEntropy == b.combinedEntropy && a.deckCommitmentHash == b.deckCommitmentHash &&
              DeckView(a.concealedDeck) == DeckView(b.concealedDeck) && a.priorStateHash == b.priorStateHash
  {
    OptionalHashField(a.combinedEntropy, b.combinedEntropy);
    OptionalHashField(a.deckCommitmentHash, b.deckCommitmentHash);
    DeckOfState(a, b);
    OptionalHashField(a.priorStateHash, b.priorStateHash);
    FiveFields(
      EncOptionalHash(a.combinedEntropy), EncOptionalHash(b.combinedEntropy),
      EncOptionalHash(a.deckCommitmentHash), EncOptionalHash(b.deckCommitmentHash),
      EncOptionalDeck(a.concealedDeck), EncOptionalDeck(b.concealedDeck),
      EncOptionalHash(a.priorStateHash), EncOptionalHash(b.priorStateHash), Zeros(32), Zeros(32));
  }

  lemma FiveFields(a0: bytes, b0: bytes, a1: bytes, b1: bytes, a2: bytes, b2: bytes, a3: bytes, b3: bytes, a4: bytes,
      b4: bytes)
    requires Splits(a0, b0) && Splits(a1, b1) && Splits(a2, b2) && Splits(a3, b3) && Splits(a4, b4)
    ensures AllSplit([a0, a1, a2, a3, a4], [b0, b1, b2, b3, b4])
    ensures [a0, a1, a2, a3, a4] == [b0, b1, b2, b3, b4] ==> a0 == b0 && a1 == b1 && a2 == b2 && a3 == b3 && a4 == b4
  {
    var x, y := [a0, a1, a2, a3, a4], [b0, b1, b2, b3, b4];
    if x == y {
      assert x[0] == y[0] && x[1] == y[1] && x[2] == y[2] && x[3] == y[3] && x[4] == y[4];
    }
  }

  lemma StateFields(a: RoundState, b: RoundState)
    requires StateInRange(a) && StateInRange(b)
    ensures AllSplit(StateParts(a), StateParts(b))
    ensures StateParts(a) == StateParts(b) ==> StateView(a) == StateView(b)
  {
    HeadFields(a, b);
    MiddleFields(a, b);
    DeadlineFields(a, b);
    TailFields(a, b);
    var s, t := StateDeadlines(a) + StateTail(a), StateDeadlines(b) + StateTail(b);
    AllSplitConcat(StateDeadlines(a), StateDeadlines(b), StateTail(a), StateTail(b));
    AllSplitConcat(StateMiddle(a), StateMiddle(b), s, t);
    AllSplitConcat(StateHead(a), StateHead(b), StateMiddle(a) + s, StateMiddle(b) + t);
  }

  lemma SameMiddle(a: RoundState, b: RoundState)
    requires StateView(a) == StateView(b)
    ensures StateMiddle(a) == StateMiddle(b)
  {
    var v, w := StateView(a), StateView(b);
    assert v.players == w.players && v.visibleCards == w.visibleCards && v.potValue == w.potValue;
    assert v.hiddenCommitmentRefs == w.hiddenCommitmentRefs && v.allowedActions == w.allowedActions;
    PlayersDelimit();
    EachByView(EncPlayer, PlayerView, a.players, b.players);
    EachByView(EncVisible, VisibleView, a.visibleCards, b.visibleCards);
  }

  lemma SameEnds(a: RoundState, b: RoundState)
    requires StateView(a) == StateView(b)
    ensures StateHead(a) == StateHead(b) && StateDeadlines(a) == StateDeadlines(b) && StateTail(a) == StateTail(b)
  {
    var v, w := StateView(a), StateView(b);
    assert v.stateClass == w.stateClass && v.gameId == w.gameId && v.ruleSetHash == w.ruleSetHash;
    assert v.roundNumber == w.roundNumber && v.actingSeat == w.actingSeat;
    assert v.decisionDeadline == w.decisionDeadline && v.recoveryDeadline == w.recoveryDeadline;
    assert v.successorTemplateHashes == w.successorTemplateHashes && v.combinedEntropy == w.combinedEntropy;
    assert v.deckCommitmentHash == w.deckCommitmentHash && v.priorStateHash == w.priorStateHash;
    assert v.concealedDeck == w.concealedDeck;
    if a.concealedDeck.Some? {
      CardsDelimit();
      EachByView(EncCard, CardView, a.concealedDeck.value, b.concealedDeck.value);
    }
  }

  /**
   * The state encoding is injective and self-delimiting up to its view: with anything behind them, two
   * encodings are equal exactly when the states agree on everything the encoder keeps and the rest is equal.
   * Not kept are the state hash, rank and suit of visible cards, key parity, and absent versus empty outpoint.
   */
  lemma EncodingIdentifiesState(a: RoundState, b: RoundState, x: bytes, y: bytes)
    requires StateInRange(a) && StateInRange(b)
    ensures EncodeRoundState(a) + x == EncodeRoundState(b) + y <==> StateView(a) == StateView(b) && x == y
  {
    if EncodeRoundState(a) + x == EncodeRoundState(b) + y {
      StateFields(a, b);
      FlatSplits(StateParts(a), StateParts(b), x, y);
    }
    if StateView(a) == StateView(b) {
      SameMiddle(a, b);
      SameEnds(a, b);
    }
  }

  /** Equal state hashes, without a collision between the two encodings, mean the same state up to the view. */
  lemma StateHashBinds(h: Hash, a: RoundState, b: RoundState)
    requires StateInRange(a) && StateInRange(b) && CollisionFreeOn(h, {EncodeRoundState(a), EncodeRoundState(b)})
    ensures h(EncodeRoundState(a)) == h(EncodeRoundState(b)) <==> StateView(a) == StateView(b)
  {
    EncodingIdentifiesState(a, b, [], []);
    assert EncodeRoundState(a) + [] == EncodeRoundState(a) && EncodeRoundState(b) + [] == EncodeRoundState(b);
  }
}
