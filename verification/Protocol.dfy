/** The protocol's records. Hex strings, keys and text are byte strings; numbers are integers. */
module Protocol {
  import opened Wrappers
  import opened Bytes

  /** The two engines of the repository: packages/state-engine and apps/relay-go. */
  datatype Impl = TypeScript | GoRelay

  datatype StateClass =
    | S0TableOpen | S1SeatOpen | S2TableLocked | S3EntropyCommit | S4EntropyReveal | S5DeckCommitted
    | S6CardRevealFirst | S7CardRevealSecond | S8BetDecision | S9CardRevealThird | S10SettledRound
    | S11RotateTurn | S12TableClose | Recovered

  datatype ActionType =
    | JoinT | EntropyCommitT | EntropyRevealT | CardRevealT | DealConcealedT | BetT | PassT | FoldT
    | SettleT | RotateTurnT | TableLockT | TableCloseT | TimeoutT | RecoveryT

  datatype Status =
    | Invited | Joined | Ready | Active | Folded | Settled | Disconnected | TimedOut | Forfeited

  /** Error codes; Thrown stands for a TypeScript exception that is not a ProtocolError. */
  datatype ErrorCode =
    | InvalidStakeAmount | InvalidRevealProof | InvalidSignature | InvalidStateTransition
    | InvalidActionForState | InvalidBetAmount | StaleState | TimeoutNotMature | RecoveryNotMature
    | PlayerNotSeated | PlayerAlreadySeated | TableFull | TableNotLockable | SeatOutOfRange
    | SerialisationError | InvalidRuleSet | UnsupportedVersion | Thrown

  datatype RevealedCard = RevealedCard(rank: bytes, suit: bytes, ordinal: int)

  datatype RevealProof =
    RevealProof(position: int, revealedCard: RevealedCard, cardNonce: bytes, deckNonce: bytes)

  datatype CardCommitment = CardCommitment(position: int, commitment: bytes, cardNonce: bytes)

  /** Lifecycle states are open-ended text; the engine acts on these two. */
  const ASSIGNED_CONCEALED: bytes := Ascii("ASSIGNED_CONCEALED")
  const SURRENDERED: bytes := Ascii("SURRENDERED")

  datatype ConcealedCard = ConcealedCard(
    commitment: CardCommitment, ciphertext: bytes, custodyOutpoint: bytes, holderPubkey: bytes,
    lifecycle: bytes)

  datatype PlayerState = PlayerState(
    seat: int, playerId: bytes, pubkey: bytes, status: Status, stakeAtRisk: int,
    stakeOutpoint: Option<bytes>,
    entropyCommitted: bool, commitmentHash: Option<bytes>,
    entropyRevealed: bool, entropyValue: Option<bytes>,
    concealedCardRefs: seq<bytes>, preferences: map<bytes, bytes>)

  datatype RoundState = RoundState(
    stateClass: StateClass, gameId: bytes, ruleSetHash: bytes, roundNumber: int,
    actingSeat: Option<int>, players: seq<PlayerState>, potValue: int,
    visibleCards: seq<RevealedCard>, hiddenCommitmentRefs: seq<bytes>,
    allowedActions: seq<ActionType>, decisionDeadline: Option<int>, recoveryDeadline: Option<int>,
    successorTemplateHashes: seq<bytes>, combinedEntropy: Option<bytes>,
    deckCommitmentHash: Option<bytes>, concealedDeck: Option<seq<ConcealedCard>>,
    priorStateHash: Option<bytes>, stateHash: bytes)

  /**
   * How an action spells the hexadecimal behind its bytes: in lower case, with upper-case digits, or in a way
   * that only TypeScript's lenient parser reads as those bytes.
   */
  datatype Spelling = LowerCase | UpperCase | Malformed

  datatype ActionBody =
    | Join(playerPubkey: bytes, stakeAmount: int)
    | EntropyCommit(commitmentHash: bytes, spelling: Spelling)
    | EntropyReveal(entropy: bytes, spelling: Spelling)
    | CardReveal(proof: RevealProof, spelling: Spelling)
    | DealConcealed(cards: seq<ConcealedCard>)
    | Bet(amount: int)
    | Pass | Fold | Settle | RotateTurn | TableLock | TableClose | Timeout | Recovery

  /** The fields of a signed action that the engine, the gate or the session reads. */
  datatype SignedAction = SignedAction(gameId: bytes, nonce: bytes, seat: Option<int>, body: ActionBody)

  datatype SettlementRules = SettlementRules(
    winMultiplier: int, lossMultiplier: int, consecutivePenalty: int, equalPenalty: int)

  datatype PenaltySchedule = PenaltySchedule(
    nonReveal: int, badReveal: int, consecutiveCards: int, equalCards: int)

  datatype RecoveryRules = RecoveryRules(
    refundStakes: bool, applyNonReveal: bool, applyBadReveal: bool)

  datatype RuleSet = RuleSet(
    playerCountMin: nat, playerCountMax: nat, stakeAmount: int, minBet: int, maxBet: int,
    decisionTimeoutBlocks: nat, recoveryTimeoutBlocks: nat, invitationWindowBlocks: nat,
    defaultActions: map<bytes, bytes>, penaltySchedule: PenaltySchedule, deckFormat: nat,
    shuffleVersion: nat, settlementRules: SettlementRules, recoveryRules: RecoveryRules,
    serialisationVersion: nat)

  function TypeOf(body: ActionBody): ActionType {
    match body
    case Join(_, _) => JoinT
    case EntropyCommit(_, _) => EntropyCommitT
    case EntropyReveal(_, _) => EntropyRevealT
    case CardReveal(_, _) => CardRevealT
    case DealConcealed(_) => DealConcealedT
    case Bet(_) => BetT
    case Pass => PassT
    case Fold => FoldT
    case Settle => SettleT
    case RotateTurn => RotateTurnT
    case TableLock => TableLockT
    case TableClose => TableCloseT
    case Timeout => TimeoutT
    case Recovery => RecoveryT
  }
}
