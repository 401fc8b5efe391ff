/**
 * The transition function of the In-Between state machine. The TypeScript and Go engines
 * share every branch except those that mention `impl`.
 */
module Engine {
  import opened Wrappers
  import opened Bytes
  import opened Protocol
  import opened Sorting
  import opened Sequences

  type StepResult = Result<RoundState, ErrorCode>

  const MAX_INT64: nat := 0x7FFF_FFFF_FFFF_FFFF

  function InitialState(gameId: bytes, ruleSetHash: bytes, recoveryDeadline: int): RoundState {
    RoundState(
      S1SeatOpen, gameId, ruleSetHash, 0, None, [], 0, [], [], [JoinT, TableLockT],
      None, Some(recoveryDeadline), [], None, None, None, None, Zeros(32))
  }

  function LegalActions(cls: StateClass): seq<ActionType> {
    match cls
    case S0TableOpen => []
    case S1SeatOpen => [JoinT, TableLockT]
    case S2TableLocked => [EntropyCommitT]
    case S3EntropyCommit => [EntropyCommitT]
    case S4EntropyReveal => [EntropyRevealT]
    case S5DeckCommitted => [CardRevealT, DealConcealedT]
    case S6CardRevealFirst => [CardRevealT]
    case S7CardRevealSecond => [BetT, PassT, TimeoutT, FoldT]
    case S8BetDecision => [BetT, PassT, TimeoutT, FoldT]
    case S9CardRevealThird => [CardRevealT]
    case S10SettledRound => [SettleT]
    case S11RotateTurn => [RotateTurnT]
    case S12TableClose => [TableCloseT]
    case Recovered => []
  }

  /** Move to a class: its legal actions, and the parent hash every handler stamps. */
  function Advance(st: RoundState, cls: StateClass): RoundState {
    st.(stateClass := cls, allowedActions := LegalActions(cls), priorStateHash := Some(st.stateHash))
  }

  function SeatsOf(players: seq<PlayerState>): (s: seq<int>)
    ensures |s| == |players| && forall i :: 0 <= i < |s| ==> s[i] == players[i].seat
  {
    seq(|players|, i requires 0 <= i < |players| => players[i].seat)
  }

  function FindSeat(players: seq<PlayerState>, seat: int): int {
    IndexOf(SeatsOf(players), seat)
  }

  function SeatLE(x: int, y: int): bool { x <= y }

  function SortedSeats(players: seq<PlayerState>): seq<int> {
    Sort(SeatLE, SeatsOf(players))
  }

  function ApplyJoin(impl: Impl, st: RoundState, seatOpt: Option<int>, pubkey: bytes, stake: int,
      rs: RuleSet): StepResult {
    if st.stateClass != S1SeatOpen then Err(InvalidActionForState)
    else if stake != rs.stakeAmount then Err(InvalidStakeAmount)
    else if |st.players| >= rs.playerCountMax then Err(TableFull)
    else
      var seat := if seatOpt.Some? then seatOpt.value else |st.players|;
      if impl.TypeScript? && !(0 <= seat <= MAX_SAFE) then Err(Thrown)
      else if seat in SeatsOf(st.players) then Err(PlayerAlreadySeated)
      else
        var p := PlayerState(seat, pubkey, pubkey, Joined, stake, None, false, None, false, None, [], map[]);
        Ok(st.(players := st.players + [p], priorStateHash := Some(st.stateHash)))
  }

  function ApplyTableLock(st: RoundState, rs: RuleSet): StepResult {
    if st.stateClass != S1SeatOpen then Err(InvalidActionForState)
    else if |st.players| < rs.playerCountMin then Err(TableNotLockable)
    else Ok(Advance(st, S3EntropyCommit))
  }

  predicate AllCommitted(players: seq<PlayerState>) {
    forall i :: 0 <= i < |players| ==> players[i].entropyCommitted
  }

  predicate AllRevealed(players: seq<PlayerState>) {
    forall i :: 0 <= i < |players| ==> players[i].entropyRevealed
  }

  function ApplyEntropyCommit(st: RoundState, seat: Option<int>, commitment: bytes): StepResult {
    if st.stateClass != S3EntropyCommit then Err(InvalidActionForState)
    else if seat.None? then Err(SeatOutOfRange)
    else
      var i := FindSeat(st.players, seat.value);
      if i < 0 then Err(PlayerNotSeated)
      else if st.players[i].entropyCommitted then Err(InvalidStateTransition)
      else
        var players := st.players[i := st.players[i].(entropyCommitted := true, commitmentHash := Some(commitment))];
        Ok(Advance(st.(players := players), if AllCommitted(players) then S4EntropyReveal else S3EntropyCommit))
  }

  function ApplyEntropyReveal(st: RoundState, seat: Option<int>, entropy: bytes): StepResult {
    if st.stateClass != S4EntropyReveal then Err(InvalidActionForState)
    else if seat.None? then Err(SeatOutOfRange)
    else
      var i := FindSeat(st.players, seat.value);
      if i < 0 then Err(PlayerNotSeated)
      else if !st.players[i].entropyCommitted then Err(InvalidStateTransition)
      else if st.players[i].entropyRevealed then Err(InvalidStateTransition)
      else
        var players := st.players[i :=
          st.players[i].(entropyRevealed := true, entropyValue := Some(entropy), status := Active)];
        Ok(Advance(st.(players := players), if AllRevealed(players) then S5DeckCommitted else S4EntropyReveal))
  }

  function ApplyCardReveal(st: RoundState, card: RevealedCard): StepResult {
    var shown := st.(visibleCards := st.visibleCards + [card]);
    match st.stateClass
    case S5DeckCommitted => Ok(Advance(shown, S6CardRevealFirst))
    case S6CardRevealFirst =>
      var acting := if st.actingSeat.None? && |st.players| > 0 then Some(st.players[0].seat) else st.actingSeat;
      Ok(Advance(shown.(actingSeat := acting), S8BetDecision))
    case S9CardRevealThird => Ok(Advance(shown, S10SettledRound))
    case _ => Err(InvalidActionForState)
  }

  /** Go tests the length of its slice, TypeScript tests for null. */
  predicate Dealt(impl: Impl, st: RoundState) {
    st.concealedDeck.Some? && (impl.GoRelay? ==> |st.concealedDeck.value| > 0)
  }

  predicate ValidPositions(cards: seq<ConcealedCard>, n: nat) {
    (forall i :: 0 <= i < |cards| ==> 0 <= cards[i].commitment.position < n) &&
    (forall i, j :: 0 <= i < j < |cards| ==> cards[i].commitment.position != cards[j].commitment.position)
  }

  function ApplyDealConcealed(impl: Impl, st: RoundState, cards: seq<ConcealedCard>, rs: RuleSet): StepResult {
    if st.stateClass != S5DeckCommitted then Err(InvalidActionForState)
    else if Dealt(impl, st) then Err(InvalidStateTransition)
    else if |cards| != rs.deckFormat then Err(InvalidStateTransition)
    else if !ValidPositions(cards, rs.deckFormat) then Err(InvalidStateTransition)
    else Ok(st.(concealedDeck := Some(cards), priorStateHash := Some(st.stateHash)))
  }

  function ApplyBet(impl: Impl, st: RoundState, amount: int, rs: RuleSet): StepResult {
    if st.stateClass != S8BetDecision then Err(InvalidActionForState)
    else if amount < rs.minBet || amount > rs.maxBet then Err(InvalidBetAmount)
    else
      var pot := st.potValue + amount;
      if impl.TypeScript? && !(0 <= pot <= MAX_SAFE) then Err(Thrown)
      else if impl.GoRelay? && pot > MAX_INT64 then Err(InvalidStateTransition)
      else Ok(Advance(st.(potValue := pot), S9CardRevealThird))
  }

  function ApplyPass(st: RoundState): StepResult {
    if st.stateClass != S8BetDecision then Err(InvalidActionForState)
    else Ok(Advance(st, S11RotateTurn))
  }

  predicate InHand(c: ConcealedCard, holder: bytes) {
    c.holderPubkey == holder && c.lifecycle == ASSIGNED_CONCEALED
  }

  function Surrender(deck: seq<ConcealedCard>, holder: bytes): (r: seq<ConcealedCard>)
    ensures |r| == |deck|
  {
    seq(|deck|, i requires 0 <= i < |deck| =>
      if InHand(deck[i], holder) then deck[i].(lifecycle := SURRENDERED) else deck[i])
  }

  function ApplyFold(impl: Impl, st: RoundState, seat: Option<int>): StepResult {
    if st.stateClass != S8BetDecision && st.stateClass != S7CardRevealSecond then Err(InvalidActionForState)
    else if seat.None? then Err(SeatOutOfRange)
    else if !Dealt(impl, st) then Err(InvalidActionForState)
    else
      var i := FindSeat(st.players, seat.value);
      if i < 0 then Err(PlayerNotSeated)
      else
        var deck, holder := st.concealedDeck.value, st.players[i].pubkey;
        if !exists k :: 0 <= k < |deck| && InHand(deck[k], holder) then Err(InvalidActionForState)
        else
          var folded := st.players[i := st.players[i].(status := Folded)];
          Ok(Advance(st.(players := folded, concealedDeck := Some(Surrender(deck, holder))), S11RotateTurn))
  }

  datatype Outcome = Win | Loss | PassOutcome | ConsecutivePenalty | EqualPenalty

  /** The remainder of JavaScript and Go, which keeps the dividend's sign. */
  function Rem13(n: int): int {
    if n >= 0 then n % 13 else -((-n) % 13)
  }

  function Classify(cards: seq<RevealedCard>): Outcome
    requires |cards| == 3
  {
    var a, b, c := Rem13(cards[0].ordinal), Rem13(cards[1].ordinal), Rem13(cards[2].ordinal);
    if a == b then EqualPenalty
    else if a - b == 1 || b - a == 1 then ConsecutivePenalty
    else if (a < c < b) || (b < c < a) then Win
    else Loss
  }

  datatype Transfer = Transfer(playerDelta: int, potDelta: int)

  function ValueTransfer(outcome: Outcome, bet: int, rules: SettlementRules): Transfer {
    match outcome
    case Win => Transfer(bet * rules.winMultiplier, -(bet * rules.winMultiplier))
    case Loss => Transfer(-(bet * rules.lossMultiplier), bet * rules.lossMultiplier)
    case PassOutcome => Transfer(0, 0)
    case ConsecutivePenalty => Transfer(-rules.consecutivePenalty, rules.consecutivePenalty)
    case EqualPenalty => Transfer(-rules.equalPenalty, rules.equalPenalty)
  }

  function Pay(players: seq<PlayerState>, seat: int, delta: int): (r: seq<PlayerState>)
    ensures |r| == |players|
  {
    seq(|players|, i requires 0 <= i < |players| =>
      if players[i].seat == seat then players[i].(stakeAtRisk := players[i].stakeAtRisk + delta) else players[i])
  }

  /** A settled balance the engine accepts. Only TypeScript bounds it from above. */
  predicate Payable(impl: Impl, n: int) {
    0 <= n && (impl.TypeScript? ==> n <= MAX_SAFE)
  }

  function ApplySettle(impl: Impl, st: RoundState, rs: RuleSet): StepResult {
    if st.stateClass != S10SettledRound then Err(InvalidActionForState)
    else if |st.visibleCards| != 3 then Err(InvalidStateTransition)
    else if st.actingSeat.None? then Err(SeatOutOfRange)
    else
      var t := ValueTransfer(Classify(st.visibleCards), st.potValue, rs.settlementRules);
      var seat := st.actingSeat.value;
      var players := Pay(st.players, seat, t.playerDelta);
      if !Payable(impl, st.potValue + t.potDelta) then Err(InvalidStateTransition)
      else if exists i :: 0 <= i < |players| && players[i].seat == seat && !Payable(impl, players[i].stakeAtRisk) then
        Err(if impl.TypeScript? then Thrown else InvalidStateTransition)
      else
        Ok(Advance(st.(players := players, potValue := st.potValue + t.potDelta), S11RotateTurn))
  }

  /** The seat after acting in cyclic order. */
  function NextSeat(seats: seq<int>, acting: int): int
    requires seats != []
  {
    seats[(IndexOf(seats, acting) + 1) % |seats|]
  }

  function ApplyRotateTurn(impl: Impl, st: RoundState): StepResult {
    var seats := SortedSeats(st.players);
    if st.stateClass != S11RotateTurn then Err(InvalidActionForState)
    else if seats == [] then Err(TableNotLockable)
    else
      var next := if st.actingSeat.None? then seats[0]
                  else NextSeat(seats, st.actingSeat.value);
      if st.actingSeat.Some? && next == seats[0] then Ok(Advance(st, S12TableClose))
      else if impl.TypeScript? && !(0 <= st.roundNumber + 1 <= MAX_SAFE) then Err(Thrown)
      else
        Ok(Advance(
          st.(roundNumber := st.roundNumber + 1, actingSeat := Some(next), visibleCards := []),
          S6CardRevealFirst))
  }

  function ApplyTableClose(st: RoundState): StepResult {
    if st.stateClass != S12TableClose then Err(InvalidActionForState)
    else Ok(st.(allowedActions := [], priorStateHash := Some(st.stateHash)))
  }

  function ApplyTimeout(st: RoundState, height: int): StepResult {
    if st.stateClass != S8BetDecision then Err(InvalidActionForState)
    else if st.decisionDeadline.None? then Err(TimeoutNotMature)
    else if height < st.decisionDeadline.value then Err(TimeoutNotMature)
    else Ok(Advance(st, S11RotateTurn))
  }

  function ApplyRecovery(st: RoundState, height: int): StepResult {
    if st.recoveryDeadline.None? then Err(RecoveryNotMature)
    else if height < st.recoveryDeadline.value then Err(RecoveryNotMature)
    else Ok(Advance(st, Recovered))
  }

  function Apply(impl: Impl, st: RoundState, a: SignedAction, rs: RuleSet, height: int): StepResult {
    if a.gameId != st.gameId then Err(StaleState)
    else if a.body != Recovery && TypeOf(a.body) !in LegalActions(st.stateClass) then Err(InvalidActionForState)
    else
      match a.body
      case Join(pubkey, stake) => ApplyJoin(impl, st, a.seat, pubkey, stake, rs)
      case TableLock => ApplyTableLock(st, rs)
      case EntropyCommit(c, _) => ApplyEntropyCommit(st, a.seat, c)
      case EntropyReveal(e, _) => ApplyEntropyReveal(st, a.seat, e)
      case CardReveal(r, _) => ApplyCardReveal(st, r.revealedCard)
      case DealConcealed(cards) => ApplyDealConcealed(impl, st, cards, rs)
      case Bet(amount) => ApplyBet(impl, st, amount, rs)
      case Pass => ApplyPass(st)
      case Fold => ApplyFold(impl, st, a.seat)
      case Settle => ApplySettle(impl, st, rs)
      case RotateTurn => ApplyRotateTurn(impl, st)
      case TableClose => ApplyTableClose(st)
      case Timeout => ApplyTimeout(st, height)
      case Recovery => ApplyRecovery(st, height)
  }

  /** Which handlers replace the player list; the others leave it alone. */
  predicate TouchesPlayers(body: ActionBody) {
    body.Join? || body.EntropyCommit? || body.EntropyReveal? || body == Fold || body == Settle
  }

  lemma OthersKeepPlayers(impl: Impl, st: RoundState, a: SignedAction, rs: RuleSet, height: int)
    requires !TouchesPlayers(a.body) && Apply(impl, st, a, rs, height).Ok?
    ensures Apply(impl, st, a, rs, height).value.players == st.players
    ensures Apply(impl, st, a, rs, height).value.gameId == st.gameId
  {
  }
}
