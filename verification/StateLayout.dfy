/** The canonical encodings of round states and rule sets, field by field down to the single byte. */
module StateLayout {
  import opened Wrappers
  import opened Bytes
  import opened Protocol
  import opened Concatenation
  import opened Canonical
  import opened StateEncoding
  import opened RuleSetCodec
  import opened Layouts

  // ----- shapes -----

  function OptionalHash(x: Option<bytes>): bytes {
    if x.None? then [0] else [1] + x.value
  }

  function OptionalWord(x: Option<int>): bytes {
    if x.None? then [0] else [1] + Word4(x.value % U32)
  }

  function Yes(b: bool): bytes { if b then [1] else [0] }

  /** A key without its parity byte. */
  function Last32(key: bytes): bytes {
    key[if |key| < 32 then 0 else |key| - 32..]
  }

  /** A list: how many, then one after the other. */
  function Many(parts: seq<bytes>): bytes { CompactSize(|parts|) + Flat(parts) }

  lemma ManyIs<T>(enc: T -> bytes, s: seq<T>, parts: seq<bytes>)
    requires |s| < U64 && |parts| == |s| && forall i :: 0 <= i < |s| ==> parts[i] == enc(s[i])
    ensures EncodeArray(enc, s) == Many(parts)
  {
    Numbers(|s|);
    FlatMany(enc, s, parts);
  }

  lemma OptionalWordIs(x: Option<int>)
    requires x.Some? ==> U32Range(x.value)
    ensures EncOptionalU32(x) == OptionalWord(x)
  {
    if x.Some? {
      Numbers(x.value % U32);
    }
  }

  function Texts(s: seq<bytes>): (parts: seq<bytes>)
    ensures |parts| == |s|
  {
    seq(|s|, i requires 0 <= i < |s| => SizedText(s[i]))
  }

  function PairParts(s: seq<Pair>): (parts: seq<bytes>)
    ensures |parts| == |s|
  {
    seq(|s|, i requires 0 <= i < |s| => SizedText(s[i].0) + SizedText(s[i].1))
  }

  lemma TextsAre(s: seq<bytes>)
    requires |s| < U64 && forall x :: x in s ==> Short(x)
    ensures EncodeArray(Prefixed, s) == Many(Texts(s))
  {
    forall i | 0 <= i < |s|
      ensures Texts(s)[i] == Prefixed(s[i])
    {
      assert s[i] in s;
      Strings(s[i]);
    }
    ManyIs(Prefixed, s, Texts(s));
  }

  lemma PairsAre(s: seq<Pair>)
    requires |s| < U64 && forall p :: p in s ==> Short(p.0) && Short(p.1)
    ensures EncodeArray(EncodePair, s) == Many(PairParts(s))
  {
    forall i | 0 <= i < |s|
      ensures PairParts(s)[i] == EncodePair(s[i])
    {
      assert s[i] in s;
      Strings(s[i].0);
      Strings(s[i].1);
    }
    ManyIs(EncodePair, s, PairParts(s));
  }

  lemma PairsOfMap(m: map<bytes, bytes>)
    requires |m| < U64 && forall k :: k in m ==> Short(k) && Short(m[k])
    ensures EncodeArray(EncodePair, SortedPairs(m)) == Many(PairParts(SortedPairs(m)))
  {
    SortedKeysFacts(m);
    forall p | p in SortedPairs(m)
      ensures Short(p.0) && Short(p.1)
    {
      assert p.0 in SortedKeys(m);
    }
    PairsAre(SortedPairs(m));
  }

  // ----- players and cards -----

  /** Type 2, version 1, then the fields; the key without its parity byte, an empty outpoint as absent. */
  function PlayerFront(p: PlayerState): seq<bytes> {
    [[2, 0], [1], Word4(p.seat % U32), p.playerId, Last32(p.pubkey), SizedText(StatusName(p.status)),
     Word8(p.stakeAtRisk % U64),
     if p.stakeOutpoint.None? || p.stakeOutpoint.value == [] then [0] else [1] + SizedText(p.stakeOutpoint.value)]
  }

  function PlayerSecrets(p: PlayerState): seq<bytes> {
    [Yes(p.entropyCommitted), OptionalHash(p.commitmentHash), Yes(p.entropyRevealed), OptionalHash(p.entropyValue)]
  }

  ghost function PlayerOnWire(p: PlayerState): seq<bytes> {
    PlayerFront(p) +
    (PlayerSecrets(p) + [Many(Texts(p.concealedCardRefs)), Many(PairParts(SortedPairs(p.preferences)))])
  }

  lemma StatusIsShort(s: Status)
    ensures |StatusName(s)| < 20
  {
  }

  lemma ClassIsShort(c: StateClass)
    ensures |ClassName(c)| < 30
  {
  }

  lemma ActionIsShort(t: ActionType)
    ensures |ActionName(t)| < 20
  {
  }

  lemma PlayerFrontIs(p: PlayerState)
    requires ValidPlayer(p)
    ensures PlayerHead(p) == PlayerFront(p)
  {
    OneTag(2);
    OneTag(1);
    Numbers(p.seat % U32);
    Numbers(p.stakeAtRisk % U64);
    StatusIsShort(p.status);
    Strings(StatusName(p.status));
    if p.stakeOutpoint.Some? {
      Strings(p.stakeOutpoint.value);
    }
  }

  lemma PlayerSecretsAre(p: PlayerState)
    ensures PlayerEntropy(p) == PlayerSecrets(p)
  {
  }

  lemma PlayerIs(p: PlayerState)
    requires ValidPlayer(p)
    ensures EncPlayer(p) == Flat(PlayerOnWire(p))
  {
    PlayerFrontIs(p);
    PlayerSecretsAre(p);
    TextsAre(p.concealedCardRefs);
    PairsOfMap(p.preferences);
  }

  /** Type 8, version 1, then the fields of a dealt card. */
  function CardOnWire(c: ConcealedCard): seq<bytes> {
    [[8, 0], [1], Word4(c.commitment.position % U32), c.commitment.commitment, c.commitment.cardNonce,
     SizedText(c.ciphertext), SizedText(c.custodyOutpoint), Last32(c.holderPubkey), SizedText(c.lifecycle)]
  }

  lemma CardIs(c: ConcealedCard)
    requires ValidCard(c)
    ensures EncCard(c) == Flat(CardOnWire(c))
  {
    OneTag(8);
    OneTag(1);
    Numbers(c.commitment.position % U32);
    Strings(c.ciphertext);
    Strings(c.custodyOutpoint);
    Strings(c.lifecycle);
    assert CardParts(c) == CardOnWire(c);
  }

  // ----- the state -----

  ghost function Players(s: seq<PlayerState>): (parts: seq<bytes>)
    ensures |parts| == |s|
  {
    seq(|s|, i requires 0 <= i < |s| => Flat(PlayerOnWire(s[i])))
  }

  function Cards(s: seq<ConcealedCard>): (parts: seq<bytes>)
    ensures |parts| == |s|
  {
    seq(|s|, i requires 0 <= i < |s| => Flat(CardOnWire(s[i])))
  }

  function Ordinals(s: seq<RevealedCard>): (parts: seq<bytes>)
    ensures |parts| == |s|
  {
    seq(|s|, i requires 0 <= i < |s| => [s[i].ordinal % 256])
  }

  function ActionTexts(s: seq<ActionType>): (parts: seq<bytes>)
    ensures |parts| == |s|
  {
    seq(|s|, i requires 0 <= i < |s| => SizedText(ActionName(s[i])))
  }

  lemma PlayersAre(s: seq<PlayerState>)
    requires |s| < U64 && forall p :: p in s ==> ValidPlayer(p)
    ensures EncodeArray(EncPlayer, s) == Many(Players(s))
  {
    forall i | 0 <= i < |s|
      ensures Players(s)[i] == EncPlayer(s[i])
    {
      assert s[i] in s;
      PlayerIs(s[i]);
    }
    ManyIs(EncPlayer, s, Players(s));
  }

  lemma CardsAre(s: seq<ConcealedCard>)
    requires |s| < U64 && forall c :: c in s ==> ValidCard(c)
    ensures EncodeArray(EncCard, s) == Many(Cards(s))
  {
    forall i | 0 <= i < |s|
      ensures Cards(s)[i] == EncCard(s[i])
    {
      assert s[i] in s;
      CardIs(s[i]);
    }
    ManyIs(EncCard, s, Cards(s));
  }

  lemma OrdinalsAre(s: seq<RevealedCard>)
    requires |s| < U64
    ensures EncodeArray(EncVisible, s) == Many(Ordinals(s))
  {
    forall i | 0 <= i < |s|
      ensures Ordinals(s)[i] == EncVisible(s[i])
    {
      OneTag(s[i].ordinal % 256);
    }
    ManyIs(EncVisible, s, Ordinals(s));
  }

  lemma ActionsAre(s: seq<ActionType>)
    requires |s| < U64
    ensures EncodeArray(EncAction, s) == Many(ActionTexts(s))
  {
    forall i | 0 <= i < |s|
      ensures ActionTexts(s)[i] == EncAction(s[i])
    {
      ActionIsShort(s[i]);
      Strings(ActionName(s[i]));
    }
    ManyIs(EncAction, s, ActionTexts(s));
  }

  lemma HashesAre(s: seq<bytes>)
    requires |s| < U64
    ensures EncodeArray(Same32, s) == Many(s)
  {
    ManyIs(Same32, s, s);
  }

  /** Type 9, version 1, class, game, rules, round, acting seat. */
  function FrontOnWire(st: RoundState): seq<bytes> {
    [[9, 0], [1], SizedText(ClassName(st.stateClass)), st.gameId, st.ruleSetHash, Word4(st.roundNumber % U32),
     OptionalWord(st.actingSeat)]
  }

  /** Players, pot, ordinals of the visible cards, hidden references, allowed actions. */
  ghost function TableOnWire(st: RoundState): seq<bytes> {
    [Many(Players(st.players)), Word8(st.potValue % U64), Many(Ordinals(st.visibleCards)),
     Many(st.hiddenCommitmentRefs), Many(ActionTexts(st.allowedActions))]
  }

  /** The two deadlines and the successor templates. */
  function DeadlinesOnWire(st: RoundState): seq<bytes> {
    [OptionalWord(st.decisionDeadline), OptionalWord(st.recoveryDeadline), Many(st.successorTemplateHashes)]
  }

  /** Combined entropy, deck hash, concealed deck, parent hash, and zeros for the state's own hash. */
  function HashesOnWire(st: RoundState): seq<bytes> {
    [OptionalHash(st.combinedEntropy), OptionalHash(st.deckCommitmentHash),
     if st.concealedDeck.None? then [0] else [1] + Many(Cards(st.concealedDeck.value)),
     OptionalHash(st.priorStateHash), Zeros(32)]
  }

  ghost function StateOnWire(st: RoundState): seq<bytes> {
    FrontOnWire(st) + (TableOnWire(st) + (DeadlinesOnWire(st) + HashesOnWire(st)))
  }

  lemma FrontIs(st: RoundState)
    requires StateInRange(st)
    ensures StateHead(st) == FrontOnWire(st)
  {
    OneTag(9);
    OneTag(1);
    ClassIsShort(st.stateClass);
    Strings(ClassName(st.stateClass));
    Numbers(st.roundNumber % U32);
    OptionalWordIs(st.actingSeat);
  }

  lemma TableIs(st: RoundState)
    requires StateInRange(st)
    ensures StateMiddle(st) == TableOnWire(st)
  {
    PlayersAre(st.players);
    Numbers(st.potValue % U64);
    OrdinalsAre(st.visibleCards);
    HashesAre(st.hiddenCommitmentRefs);
    ActionsAre(st.allowedActions);
  }

  lemma DeadlinesAre(st: RoundState)
    requires StateInRange(st)
    ensures StateDeadlines(st) == DeadlinesOnWire(st)
  {
    OptionalWordIs(st.decisionDeadline);
    OptionalWordIs(st.recoveryDeadline);
    HashesAre(st.successorTemplateHashes);
  }

  lemma DeckIs(deck: Option<seq<ConcealedCard>>)
    requires deck.Some? ==> |deck.value| < U64 && forall c :: c in deck.value ==> ValidCard(c)
    ensures EncOptionalDeck(deck) == if deck.None? then [0] else [1] + Many(Cards(deck.value))
  {
    if deck.Some? {
      CardsAre(deck.value);
    }
  }

  lemma OptionalHashIs(x: Option<bytes>)
    ensures EncOptionalHash(x) == OptionalHash(x)
  {
  }

  lemma TailIs(st: RoundState)
    requires StateInRange(st)
    ensures StateTail(st) == HashesOnWire(st)
  {
    OptionalHashIs(st.combinedEntropy);
    OptionalHashIs(st.deckCommitmentHash);
    DeckIs(st.concealedDeck);
    OptionalHashIs(st.priorStateHash);
  }

  /** The encoding of a state is exactly these fields in this order. */
  lemma StateIs(st: RoundState)
    requires StateInRange(st)
    ensures EncodeRoundState(st) == Flat(StateOnWire(st))
  {
    FrontIs(st);
    TableIs(st);
    DeadlinesAre(st);
    TailIs(st);
  }

  // ----- the rule set -----

  function LimitFields(rs: RuleSet): bytes
    requires SafeLimits(rs)
  {
    [rs.playerCountMin] + [rs.playerCountMax] + Word8(rs.stakeAmount) + Word8(rs.minBet) + Word8(rs.maxBet) +
    Word4(rs.decisionTimeoutBlocks) + Word4(rs.recoveryTimeoutBlocks) + Word4(rs.invitationWindowBlocks)
  }

  function PenaltyFields(p: PenaltySchedule): bytes
    requires SafePenalties(p)
  {
    Word8(p.nonReveal) + Word8(p.badReveal) + Word8(p.consecutiveCards) + Word8(p.equalCards)
  }

  /** The multipliers in two's complement. */
  function SettlementFields(s: SettlementRules): bytes
    requires SafeSettlement(s)
  {
    Word4(s.winMultiplier % U32) + Word4(s.lossMultiplier % U32) + Word8(s.consecutivePenalty) + Word8(s.equalPenalty)
  }

  /** Version and game type, limits, sorted defaults, penalties, deck, shuffle, settlement, recovery. */
  ghost function RulesOnWire(rs: RuleSet): seq<bytes>
    requires RuleSetInRange(rs)
  {
    [[1, 1], LimitFields(rs), Many(PairParts(SortedPairs(rs.defaultActions))), PenaltyFields(rs.penaltySchedule),
     [rs.deckFormat], [rs.shuffleVersion], SettlementFields(rs.settlementRules),
     Yes(rs.recoveryRules.refundStakes) + Yes(rs.recoveryRules.applyNonReveal) + Yes(rs.recoveryRules.applyBadReveal)]
  }

  lemma LimitsAre(rs: RuleSet)
    requires SafeLimits(rs)
    ensures LimitsBytes(rs) == LimitFields(rs)
  {
    OneTag(rs.playerCountMin);
    OneTag(rs.playerCountMax);
    Numbers(rs.stakeAmount);
    Numbers(rs.minBet);
    Numbers(rs.maxBet);
    Numbers(rs.decisionTimeoutBlocks);
    Numbers(rs.recoveryTimeoutBlocks);
    Numbers(rs.invitationWindowBlocks);
  }

  lemma PenaltiesAre(p: PenaltySchedule)
    requires SafePenalties(p)
    ensures PenaltyBytes(p) == PenaltyFields(p)
  {
    Numbers(p.nonReveal);
    Numbers(p.badReveal);
    Numbers(p.consecutiveCards);
    Numbers(p.equalCards);
  }

  lemma SettlementIs(s: SettlementRules)
    requires SafeSettlement(s)
    ensures SettlementBytes(s) == SettlementFields(s)
  {
    Numbers(s.winMultiplier % U32);
    Numbers(s.lossMultiplier % U32);
    Numbers(s.consecutivePenalty);
    Numbers(s.equalPenalty);
  }

  lemma FlagIs(b: bool)
    ensures Flag(b) == Yes(b)
  {
    OneTag(0);
    OneTag(1);
  }

  /** A rule set in range is encoded as exactly these fields in this order. */
  lemma RulesAre(rs: RuleSet)
    requires RuleSetInRange(rs)
    ensures EncodeRuleSet(rs) == Some(Flat(RulesOnWire(rs)))
  {
    LimitsAre(rs);
    PairsOfMap(rs.defaultActions);
    PenaltiesAre(rs.penaltySchedule);
    OneTag(rs.deckFormat);
    OneTag(rs.shuffleVersion);
    SettlementIs(rs.settlementRules);
    FlagIs(rs.recoveryRules.refundStakes);
    FlagIs(rs.recoveryRules.applyNonReveal);
    FlagIs(rs.recoveryRules.applyBadReveal);
    assert RuleSetParts(rs) == RulesOnWire(rs);
  }

  predicate IsSafe(n: int) { 0 <= n <= 0x1F_FFFF_FFFF_FFFF }

  /** Which rule sets are encoded: version 1, bytes, 53-bit amounts, 32-bit delays, signed 32-bit multipliers. */
  lemma WhichRulesEncode(rs: RuleSet)
    ensures EncodeRuleSet(rs).Some? <==>
              rs.serialisationVersion == 1 && rs.playerCountMin <= 255 && rs.playerCountMax <= 255 &&
              rs.deckFormat <= 255 && rs.shuffleVersion <= 255 &&
              IsSafe(rs.stakeAmount) && IsSafe(rs.minBet) && IsSafe(rs.maxBet) &&
              IsSafe(rs.penaltySchedule.nonReveal) && IsSafe(rs.penaltySchedule.badReveal) &&
              IsSafe(rs.penaltySchedule.consecutiveCards) && IsSafe(rs.penaltySchedule.equalCards) &&
              IsSafe(rs.settlementRules.consecutivePenalty) && IsSafe(rs.settlementRules.equalPenalty) &&
              rs.decisionTimeoutBlocks <= 0xFFFF_FFFF && rs.recoveryTimeoutBlocks <= 0xFFFF_FFFF &&
              rs.invitationWindowBlocks <= 0xFFFF_FFFF &&
              -0x8000_0000 <= rs.settlementRules.winMultiplier <= 0x7FFF_FFFF &&
              -0x8000_0000 <= rs.settlementRules.lossMultiplier <= 0x7FFF_FFFF &&
              |rs.defaultActions| <= 0x1F_FFFF_FFFF_FFFF &&
              forall k :: k in rs.defaultActions ==>
                |k| <= 0x1F_FFFF_FFFF_FFFF && |rs.defaultActions[k]| <= 0x1F_FFFF_FFFF_FFFF
  {
  }
}
